/** pkg/storage/map: the sharded map and its counters, one operation at a time.
    `ShardCounters` takes the same operations apart into their atomic steps. */
module ShardedMap {
  import opened Wrappers
  import opened CacheEntry

  ghost function Total(weights: map<nat, int>): int {
    if weights == map[] then 0
    else
      var k :| k in weights;
      weights[k] + Total(weights - {k})
  }

  lemma {:induction false} TotalWithout(weights: map<nat, int>, key: nat)
    requires key in weights
    ensures Total(weights) == weights[key] + Total(weights - {key})
    decreases |weights|
  {
    var k :| k in weights && Total(weights) == weights[k] + Total(weights - {k});
    if k != key {
      TotalWithout(weights - {k}, key);
      TotalWithout(weights - {key}, k);
      assert weights - {k} - {key} == weights - {key} - {k};
    }
  }

  lemma TotalOfUpdate(weights: map<nat, int>, key: nat, w: int)
    ensures Total(weights[key := w]) == Total(weights) + w - if key in weights then weights[key] else 0
  {
    TotalWithout(weights[key := w], key);
    assert weights[key := w] - {key} == weights - {key};
    if key in weights {
      TotalWithout(weights, key);
    } else {
      assert weights - {key} == weights;
    }
  }

  class Shard {
    const id: nat
    var items: map<nat, Entry>
    var mem: int
    var len: int

    constructor (id: nat)
      ensures this.id == id && items == map[] && mem == 0 && len == 0
    {
      this.id, items, mem, len := id, map[], 0, 0;
    }

    function Weight(): int
      reads this`mem
    {
      mem
    }

    /** What each item weighs now. */
    ghost function Weighed(): map<nat, int>
      reads this`items, (set k | k in items :: items[k])`payload
    {
      map k | k in items :: items[k].Weight()
    }

    /** The books of the shard, over its items: the counter is their weight up to `drift`, what payload
        changes did to residents since they came in. */
    ghost predicate Booked(drift: int)
      reads this, (set k | k in items :: items[k])`payload
    {
      && (forall k {:trigger items[k]} :: k in items ==> items[k].key == k)
      && mem + drift == Total(Weighed())
    }

    /** The payload of a resident changed and nothing else: the change of its weight is drift. */
    twostate lemma Reweighed(x: Entry)
      requires unchanged(this) && x.key in items && items[x.key] == x
      requires forall k {:trigger items[k]} :: k in items && items[k] != x ==> items[k].payload == old(items[k].payload)
      ensures forall d {:trigger old(Booked(d))} :: old(Booked(d)) ==> Booked(d + x.Weight() - old(x.Weight()))
    {
      forall d {:trigger old(Booked(d))} | old(Booked(d)) ensures Booked(d + x.Weight() - old(x.Weight())) {
        assert Weighed() == old(Weighed())[x.key := x.Weight()];
        TotalOfUpdate(old(Weighed()), x.key, x.Weight());
      }
    }

    method Set(key: nat, new_: Entry)
      modifies this
      ensures new_.key == key ==> forall d {:trigger old(Booked(d))} :: old(Booked(d)) ==> Booked(d)
      ensures items == old(items)[key := new_]
      ensures mem == old(mem) + new_.Weight() - (if key in old(items) then old(items)[key].Weight() else 0)
      ensures len == old(len) + if key in old(items) then 0 else 1
    {
      TotalOfUpdate(Weighed(), key, new_.Weight());
      var prior := if key in items then Some(items[key]) else None;
      items := items[key := new_];
      if prior.Some? {
        mem := mem + (new_.Weight() - prior.value.Weight());
      } else {
        len := len + 1;
        mem := mem + new_.Weight();
      }
      assert Weighed() == old(Weighed())[key := new_.Weight()];
    }

    function Get(key: nat): Option<Entry>
      reads this`items
    {
      if key in items then Some(items[key]) else None
    }

    method Remove(key: nat) returns (freed: int, hit: bool)
      modifies this
      ensures forall d {:trigger old(Booked(d))} :: old(Booked(d)) ==> Booked(d)
      ensures hit == (key in old(items))
      ensures freed == if hit then old(items)[key].Weight() else 0
      ensures items == old(items) - {key} && mem == old(mem) - freed
      ensures len == old(len) - if hit then 1 else 0
    {
      if key !in items {
        return 0, false;
      }
      freed := items[key].Weight();
      TotalWithout(Weighed(), key);
      items := items - {key};
      len := len - 1;
      mem := mem - freed;
      hit := true;
      assert Weighed() == old(Weighed()) - {key};
    }

    method Clear()
      modifies this
      ensures items == map[] && mem == 0 && len == 0 && Booked(0)
    {
      items := map[];
      mem := 0;
      len := 0;
    }
  }

  function Sum(s: seq<int>): int {
    if s == [] then 0 else Sum(s[..|s| - 1]) + s[|s| - 1]
  }

  function Mems(shards: seq<Shard>): (m: seq<int>)
    reads shards
    ensures |m| == |shards| && forall i :: 0 <= i < |m| ==> m[i] == shards[i].mem
  {
    seq(|shards|, i requires 0 <= i < |shards| reads shards => shards[i].mem)
  }

  function Lens(shards: seq<Shard>): (m: seq<int>)
    reads shards
    ensures |m| == |shards| && forall i :: 0 <= i < |m| ==> m[i] == shards[i].len
  {
    seq(|shards|, i requires 0 <= i < |shards| reads shards => shards[i].len)
  }

  /** Changing one summand changes the total by the same amount. */
  lemma {:induction false} SumMoves(s: seq<int>, t: seq<int>, i: nat)
    requires |s| == |t| && forall j :: 0 <= j < |s| && j != i ==> s[j] == t[j]
    ensures Sum(t) == Sum(s) + if i < |s| then t[i] - s[i] else 0
  {
    if s != [] {
      SumMoves(s[..|s| - 1], t[..|t| - 1], i);
    }
  }

  lemma {:induction false} PositiveSummand(s: seq<int>) returns (i: nat)
    requires Sum(s) > 0
    ensures i < |s| && s[i] > 0
  {
    i := |s| - 1;
    if s[i] <= 0 {
      i := PositiveSummand(s[..|s| - 1]);
    }
  }

  lemma {:induction false} SumIsNatural(s: seq<int>)
    requires forall i :: 0 <= i < |s| ==> s[i] >= 0
    ensures Sum(s) >= 0
  {
    if s != [] { SumIsNatural(s[..|s| - 1]); }
  }

  class Map {
    const shards: seq<Shard>
    /** Totals as of the last refresh. */
    var mem: int
    var len: int

    constructor (totalShards: nat)
      ensures |shards| == totalShards && mem == 0 && len == 0
      ensures forall i :: 0 <= i < totalShards ==>
        fresh(shards[i]) && shards[i].id == i && shards[i].items == map[] && shards[i].mem == 0 && shards[i].len == 0
    {
      var made: seq<Shard> := [];
      for id := 0 to totalShards
        invariant |made| == id
        invariant forall i :: 0 <= i < id ==>
          fresh(made[i]) && made[i].id == i && made[i].items == map[] && made[i].mem == 0 && made[i].len == 0
      {
        var s := new Shard(id);
        made := made + [s];
      }
      shards, mem, len := made, 0, 0;
    }

    function MapShardKey(key: nat): (i: nat)
      requires |shards| > 0
      ensures i < |shards|
    {
      key % |shards|
    }

    method RealMem() returns (total: int)
      modifies this`mem
      ensures total == mem == Sum(Mems(shards))
    {
      total := 0;
      for i := 0 to |shards|
        invariant total == Sum(Mems(shards)[..i])
      {
        assert Mems(shards)[..i + 1][..i] == Mems(shards)[..i];
        total := total + shards[i].Weight();
      }
      assert Mems(shards)[..|shards|] == Mems(shards);
      mem := total;
    }

    method RealLen() returns (total: int)
      modifies this`len
      ensures total == len == Sum(Lens(shards))
    {
      total := 0;
      for i := 0 to |shards|
        invariant total == Sum(Lens(shards)[..i])
      {
        assert Lens(shards)[..i + 1][..i] == Lens(shards)[..i];
        total := total + shards[i].len;
      }
      assert Lens(shards)[..|shards|] == Lens(shards);
      len := total;
    }
  }
}
