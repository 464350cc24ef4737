/** pkg/storage/lru/storage.go: the map and the LRU lists kept in step under TinyLFU admission. */
module Storage {
  import opened Wrappers
  import opened Positions
  import opened ByteCompare
  import opened RingList
  import opened CacheEntry
  import opened ShardedMap
  import opened Balancer
  import TinyLfu

  /** Total weight of the entries on a list. */
  ghost function Weights(nodes: seq<Node>): int
    reads (set e | e in nodes && e.value.Some? :: e.value.value)`payload
  {
    if nodes == [] then 0
    else (if nodes[0].value.Some? then nodes[0].value.value.Weight() else 0) + Weights(nodes[1..])
  }

  lemma {:induction false} WeightsConcat(a: seq<Node>, b: seq<Node>)
    ensures Weights(a + b) == Weights(a) + Weights(b)
  {
    if a == [] {
      assert a + b == b;
    } else {
      WeightsConcat(a[1..], b);
      assert (a + b)[1..] == a[1..] + b;
    }
  }

  lemma WeightsWithout(nodes: seq<Node>, e: Node)
    requires e in nodes && e.value.Some?
    ensures Weights(nodes) == Weights(Without<Node>(nodes, e)) + e.Value().Weight()
  {
    var i := Position<Node>(nodes, e);
    assert nodes == nodes[..i] + ([e] + nodes[i + 1..]);
    assert Without<Node>(nodes, e) == nodes[..i] + nodes[i + 1..];
    WeightsConcat(nodes[..i], [e] + nodes[i + 1..]);
    WeightsConcat(nodes[..i], nodes[i + 1..]);
  }

  ghost function KeyAt(nodes: seq<Node>, a: nat): nat
    requires a < |nodes| && nodes[a].value.Some?
  {
    nodes[a].value.value.key
  }

  /** A list that holds every entry of a map once weighs what the map weighs. */
  lemma {:induction false} ListWeighsMap(nodes: seq<Node>, weights: map<nat, int>)
    requires forall a :: 0 <= a < |nodes| ==> nodes[a].value.Some?
    requires forall a: nat {:trigger KeyAt(nodes, a)} :: a < |nodes| ==>
      KeyAt(nodes, a) in weights && weights[KeyAt(nodes, a)] == nodes[a].value.value.Weight()
    requires forall a: nat, b: nat {:trigger KeyAt(nodes, a), KeyAt(nodes, b)} ::
      a < b < |nodes| ==> KeyAt(nodes, a) != KeyAt(nodes, b)
    requires forall k {:trigger k in weights} :: k in weights ==> exists a: nat :: a < |nodes| && KeyAt(nodes, a) == k
    ensures Weights(nodes) == Total(weights)
  {
    if nodes == [] {
      assert weights == map[];
    } else {
      var key, rest := KeyAt(nodes, 0), nodes[1..];
      TotalWithout(weights, key);
      assert forall a: nat {:trigger KeyAt(rest, a)} :: a < |rest| ==> KeyAt(rest, a) == KeyAt(nodes, a + 1);
      forall k | k in weights - {key} ensures exists a: nat :: a < |rest| && KeyAt(rest, a) == k {
        var a: nat :| a < |nodes| && KeyAt(nodes, a) == k;
        assert KeyAt(rest, a - 1) == k;
      }
      ListWeighsMap(rest, weights - {key});
    }
  }

  twostate predicate Untouched(x: Entry)
    reads x
  {
    x.payload == old(x.payload) && x.lruListElem == old(x.lruListElem) && x.lastUse == old(x.lastUse)
  }

  /** What a lookup by key finds. */
  datatype Item = Item(fingerprint: Bytes, payload: Option<Payload>) {
    /** What the entry found weighs in its shard's counter. */
    function Weight(): int {
      ENTRY_SIZE + if payload.Some? then payload.value.capacity else 0
    }
  }

  /** What stands beside the index: the ranking of the shards and the admission filter. */
  datatype Side = Ranking | Filter

  class InMemoryStorage {
    const map_: Map
    const balancer: Balance
    const tinyLFU: TinyLfu.TinyLFU
    const hash: Hash
    const memoryThreshold: int
    /** Counts the uses of entries; the recency order is stated against it. */
    ghost var clock: int
    /** Per shard, how much the weights of residents changed since they entered the map. */
    ghost var drift: seq<int>

    ghost function N(): nat {
      |map_.shards|
    }

    ghost function S(i: nat): Shard
      requires i < |map_.shards|
    {
      map_.shards[i]
    }

    ghost function L(i: nat): List<Entry>
      requires i < |balancer.shards|
    {
      balancer.shards[i].lruList
    }

    /** What construction fixes for good. */
    ghost predicate Wired() {
      && N() > 0 && |balancer.shards| == N()
      && balancer.ListsApart()
      && (forall i {:trigger map_.shards[i]} {:trigger balancer.shards[i]} :: 0 <= i < N() ==>
            map_.shards[i].id == i && balancer.shards[i].shard == map_.shards[i])
    }

    /** The map and the list of shard `i` hold the same entries, once each, and each entry knows its
        own node. */
    ghost predicate Paired(i: nat)
      requires i < N() && Wired()
      reads *
    {
      var s, nodes := S(i), L(i).Nodes;
      && s.len == |s.items| == |nodes|
      && (forall k {:trigger s.items[k]} :: k in s.items ==>
            var x := s.items[k];
            && x.key == k && x.shard == i && k % N() == i
            && x.lruListElem != null && x.lruListElem in nodes && x.lruListElem.value == Some(x))
      && (forall e {:trigger e in nodes} :: e in nodes ==>
            && e.value.Some? && e.value.value.key in s.items && s.items[e.value.value.key] == e.value.value
            && e.value.value.lruListElem == e)
    }

    /** The counter of shard `i` is the total weight of its residents up to their drift. */
    ghost predicate Accounted(i: nat)
      requires i < N() && Wired() && |drift| == N()
      reads *
    {
      S(i).mem + drift[i] == Weights(L(i).Nodes)
    }

    ghost function LastUse(e: Node): int
      reads *
    {
      if e.value.Some? then e.value.value.lastUse else 0
    }

    /** Front to back, the list of shard `i` is in strictly decreasing order of last use. */
    ghost predicate Recent(i: nat)
      requires i < N() && Wired()
      reads *
    {
      var nodes := L(i).Nodes;
      && (forall a, b {:trigger nodes[a], nodes[b]} :: 0 <= a < b < |nodes| ==> LastUse(nodes[a]) > LastUse(nodes[b]))
      && (forall a {:trigger nodes[a]} :: 0 <= a < |nodes| ==> LastUse(nodes[a]) <= clock)
    }

    ghost predicate ShardOk(i: nat)
      requires i < N() && Wired() && |drift| == N()
      reads *
    {
      L(i).Valid() && Paired(i) && Accounted(i) && Recent(i)
    }

    /** Map and lists are in step on every shard. Stated with a disjunction, here and below, so that
        the verifier carries `ShardOk(i)` through an operation as a single fact. */
    ghost predicate Indexed()
      reads *
    {
      && Wired() && |drift| == N()
      && forall i: nat {:trigger ShardOk(i)} :: i >= N() || ShardOk(i)
    }

    ghost predicate SideOk(side: Side)
      reads *
    {
      match side
      case Ranking => balancer.Ranked()
      case Filter => tinyLFU.Valid()
    }

    /** The representation invariant. */
    ghost predicate Valid()
      reads *
    {
      Indexed() && forall side {:trigger SideOk(side)} :: SideOk(side)
    }

    constructor (totalShards: nat, memoryThreshold: int, hash: Hash, w: TinyLfu.Window, v: TinyLfu.Window)
      requires totalShards > 0 && w.Ok() && v.Ok()
      ensures Valid() && N() == totalShards && this.memoryThreshold == memoryThreshold && this.hash == hash
      ensures forall i :: 0 <= i < N() ==> S(i).items == map[] && S(i).mem == 0 && drift[i] == 0
      ensures map_.mem == 0 && fresh(map_)
      ensures forall i :: 0 <= i < N() ==> fresh(S(i)) && fresh(L(i)) && fresh(L(i).root) && L(i).Nodes == []
      ensures fresh(balancer.memList) && fresh(balancer.memList.root) && fresh(set e | e in balancer.memList.Nodes)
      ensures fresh(tinyLFU.curr) && fresh(tinyLFU.curr.table) && fresh(tinyLFU.door) && fresh(tinyLFU.door.bits)
    {
      var m := new Map(totalShards);
      map_ := m;
      balancer := new Balance(m);
      tinyLFU := new TinyLfu.TinyLFU(w, v);
      this.memoryThreshold, this.hash, clock := memoryThreshold, hash, 0;
      drift := seq(totalShards, _ => 0);
      new;
      hide Weights;
    }

    /** Nothing of shard `j` changed: its counters, its list, its nodes, its residents. */
    twostate predicate Kept(j: nat)
      requires j < N() && Wired() && |old(drift)| == |drift| == N()
      reads *
    {
      && unchanged(S(j)) && unchanged(L(j)) && unchanged(L(j).root) && drift[j] == old(drift[j])
      && (forall e {:trigger e in L(j).Nodes} :: e in L(j).Nodes ==>
            unchanged(e) && (e.value.Some? ==> Untouched(e.value.value)))
    }

    twostate lemma KeptRecent(j: nat)
      requires j < N() && Wired() && |old(drift)| == |drift| == N()
      requires old(Recent(j)) && Kept(j) && old(clock) <= clock
      ensures Recent(j)
    {
      var nodes := L(j).Nodes;
      forall a {:trigger nodes[a]} | 0 <= a < |nodes| ensures LastUse(nodes[a]) == old(LastUse(nodes[a])) {
        assert nodes[a] in nodes;
      }
    }

    twostate lemma KeptList(j: nat)
      requires j < N() && Wired() && |old(drift)| == |drift| == N() && old(L(j).Valid()) && Kept(j)
      ensures L(j).Valid()
    {
      var nodes := L(j).Nodes;
      assert forall a {:trigger nodes[a]} :: 0 <= a < |nodes| ==> nodes[a] in nodes;
    }

    twostate lemma KeptPaired(j: nat)
      requires j < N() && Wired() && |old(drift)| == |drift| == N() && old(Paired(j)) && Kept(j)
      ensures Paired(j)
    {
    }

    twostate lemma KeptAccounted(j: nat)
      requires j < N() && Wired() && |old(drift)| == |drift| == N() && old(Accounted(j)) && Kept(j)
      ensures Accounted(j)
    {
    }

    twostate lemma KeptOk(j: nat)
      requires j < N() && Wired() && |old(drift)| == |drift| == N()
      requires old(ShardOk(j)) && Kept(j) && old(clock) <= clock
      ensures ShardOk(j)
    {
      KeptList(j);
      hide Paired, Accounted, Recent, Kept;
      KeptPaired(j);
      KeptAccounted(j);
      KeptRecent(j);
    }

    /** The parts of shards `i` and `j` are different objects. */
    twostate predicate Separate(i: nat, j: nat)
      requires i < N() && j < N() && Wired()
      reads *
    {
      && S(i) != S(j) && L(i) != L(j) && L(i).root != L(j).root
      && L(i).root !in old(L(j).Nodes) && L(j).root !in old(L(i).Nodes)
      && forall e {:trigger e in old(L(j).Nodes)} :: e in old(L(j).Nodes) ==>
           e !in old(L(i).Nodes) && e.value.Some? && e.value.value.shard == j
    }

    twostate lemma Separated(pair: (nat, nat))
      requires Wired() && |old(drift)| == N() && pair.0 < N() && pair.1 < N() && pair.0 != pair.1
      requires old(ShardOk(pair.0)) && old(ShardOk(pair.1))
      ensures Separate(pair.0, pair.1)
    {
      var (i, j) := pair;
      assert L(i).label_ == i && L(j).label_ == j;
    }

    /** The objects that make up shard `i` apart from its entries. */
    ghost function Parts(i: nat): set<object>
      requires i < N() && |balancer.shards| == N()
      reads L(i)
    {
      {S(i), L(i), L(i).root} + set e | e in L(i).Nodes
    }

    /** An object that may be part of some shard. */
    ghost predicate PartType(o: object) {
      o is Shard || o is List<Entry> || o is Node || o is Entry
    }

    twostate lemma OneKept(pair: (nat, nat))
      requires pair.0 < N() && pair.1 < N() && pair.0 != pair.1 && Wired() && |old(drift)| == |drift| == N()
      requires Separate(pair.0, pair.1)
      requires forall o: object {:trigger PartType(o)} ::
        old(allocated(o)) && PartType(o) && o !in old(Parts(pair.0))
        && !(o is Entry && (o as Entry).shard == pair.0) ==>
          unchanged(o)
      requires drift[pair.1] == old(drift[pair.1])
      ensures Kept(pair.1)
    {
      var j := pair.1;
      assert PartType(S(j)) && PartType(L(j)) && PartType(L(j).root);
      assert forall e: Node {:trigger e in old(L(j).Nodes)} :: e in old(L(j).Nodes) ==>
        PartType(e) && PartType(e.value.value);
    }

    /** When every change lies within shard `i` and its entries, or in objects that are no part of
        any shard, the other shards stay in order. */
    twostate lemma OthersKept(i: nat)
      requires i < N() && Wired() && |old(drift)| == |drift| == N()
      requires forall j: nat {:trigger old(ShardOk(j))} :: j >= N() || old(ShardOk(j))
      requires forall o: object {:trigger PartType(o)} ::
        old(allocated(o)) && PartType(o) && o !in old(Parts(i)) && !(o is Entry && (o as Entry).shard == i) ==>
          unchanged(o)
      requires old(clock) <= clock
      requires forall j :: 0 <= j < N() && j != i ==> drift[j] == old(drift[j])
      ensures forall j: nat {:trigger ShardOk(j)} :: j >= N() || j == i || ShardOk(j)
    {
      forall j: nat | j < N() && j != i ensures ShardOk(j) {
        assert old(ShardOk(j)) && old(ShardOk(i));
        Separated((i, j));
        OneKept((i, j));
        KeptOk(j);
      }
    }

    /** When only parts of shards changed, the ranking and the filter are as before. */
    twostate lemma SidesKept()
      requires forall side {:trigger old(SideOk(side))} :: old(SideOk(side))
      requires forall o: object {:trigger PartType(o)} ::
        old(allocated(o)) && !PartType(o) && o != this && o != map_ ==> unchanged(o)
      ensures forall side {:trigger SideOk(side)} :: SideOk(side)
    {
      RankingKept();
      FilterKept();
      forall side ensures SideOk(side) {
        match side
        case Ranking =>
        case Filter =>
      }
    }

    twostate lemma RankingKept()
      requires old(SideOk(Ranking))
      requires forall o: object {:trigger PartType(o)} ::
        old(allocated(o)) && !PartType(o) && o != this && o != map_ ==> unchanged(o)
      ensures SideOk(Ranking)
    {
      var r := balancer.memList;
      assert !PartType(r) && !PartType(r.root);
      forall e: Element<ShardNode> {:trigger e in old(r.Nodes)} | e in old(r.Nodes) ensures unchanged(e) {
        assert old(allocated(e)) && !PartType(e);
      }
      forall n: ShardNode {:trigger n in balancer.shards} | n in balancer.shards ensures unchanged(n) {
        assert old(allocated(n)) && !PartType(n);
      }
      assert forall i {:trigger r.Nodes[i]} :: 0 <= i < |r.Nodes| ==> r.Nodes[i] in old(r.Nodes);
    }

    twostate lemma FilterKept()
      requires old(SideOk(Filter))
      requires forall o: object {:trigger PartType(o)} ::
        old(allocated(o)) && !PartType(o) && o != this && o != map_ ==> unchanged(o)
      ensures SideOk(Filter)
    {
      var t := tinyLFU;
      assert !PartType(t) && !PartType(t.curr) && !PartType(t.curr.table) && !PartType(t.prev)
        && !PartType(t.prev.table) && !PartType(t.door) && !PartType(t.door.bits);
    }

    /** An operation on shard `i` that leaves it in order and touches no part of another shard keeps
        the index. */
    twostate lemma StillIndexed(i: nat)
      requires old(Indexed()) && i < N() && |drift| == N() && ShardOk(i)
      requires forall o: object {:trigger PartType(o)} ::
        old(allocated(o)) && PartType(o) && o !in old(Parts(i)) && !(o is Entry && (o as Entry).shard == i) ==>
          unchanged(o)
      requires old(clock) <= clock
      requires forall j :: 0 <= j < N() && j != i ==> drift[j] == old(drift[j])
      ensures Indexed()
    {
      OthersKept(i);
    }

    ghost predicate Resident(x: Entry)
      requires Wired()
      reads set i | 0 <= i < |map_.shards| :: map_.shards[i]
    {
      x.shard < N() && x.key in S(x.shard).items && S(x.shard).items[x.key] == x
    }

    /** Of the residents of `x`'s shard, at most `x` changed. */
    twostate predicate OthersUntouched(x: Entry)
      requires x.shard < N() && |balancer.shards| == N()
      reads *
    {
      forall e {:trigger e in old(L(x.shard).Nodes)} :: e in old(L(x.shard).Nodes) ==>
        e.value.Some? && (e.value.value == x || Untouched(e.value.value))
    }

    twostate lemma ResidentsUntouched(x: Entry)
      requires old(Indexed()) && x.shard < N()
      requires forall y: Entry {:trigger old(Resident(y))} :: old(allocated(y)) && old(Resident(y)) && y != x ==>
        Untouched(y)
      ensures OthersUntouched(x)
    {
      var ok := old(ShardOk(x.shard));
      forall e {:trigger e in old(L(x.shard).Nodes)} | e in old(L(x.shard).Nodes)
        ensures e.value.Some? && (e.value.value == x || Untouched(e.value.value))
      {
        assert old(allocated(e.value.value)) && old(Resident(e.value.value));
      }
    }

    /** A resident's node is on its shard's list. */
    lemma NodeOf(x: Entry)
      requires Indexed() && Resident(x)
      ensures L(x.shard).Valid()
      ensures x.lruListElem != null && x.lruListElem in L(x.shard).Nodes && x.lruListElem.value == Some(x)
      ensures Weights(L(x.shard).Nodes) == Weights(Without<Node>(L(x.shard).Nodes, x.lruListElem)) + x.Weight()
    {
      var ok := ShardOk(x.shard);
      WeightsWithout(L(x.shard).Nodes, x.lruListElem);
    }

    // ----- an entry leaves

    /** `x` left the map and the list of its shard. */
    twostate predicate Dropped(x: Entry)
      requires Wired() && |old(drift)| == |drift| == N()
      reads *
    {
      var i := x.shard;
      && i < N() && old(Resident(x)) && old(x.lruListElem != null && x.lruListElem in L(i).Nodes)
      && L(i).Valid()
      && S(i).items == old(S(i).items) - {x.key}
      && S(i).mem == old(S(i).mem) - old(x.Weight()) && S(i).len == old(S(i).len) - 1
      && L(i).Nodes == Without<Node>(old(L(i).Nodes), old(x.lruListElem))
      && clock == old(clock) && drift == old(drift)
    }

    twostate lemma DroppedPaired(x: Entry)
      requires Wired() && x.shard < N() && old(Paired(x.shard)) && old(Resident(x)) && OthersUntouched(x)
      requires S(x.shard).items == old(S(x.shard).items) - {x.key} && S(x.shard).len == old(S(x.shard).len) - 1
      requires |L(x.shard).Nodes| == |old(L(x.shard).Nodes)| - 1
      requires forall e :: e in L(x.shard).Nodes <==> e in old(L(x.shard).Nodes) && e != old(x.lruListElem)
      ensures Paired(x.shard)
    {
    }

    twostate lemma DroppedRecent(x: Entry)
      requires Wired() && x.shard < N() && old(Recent(x.shard)) && OthersUntouched(x) && Untouched(x)
        && old(clock) <= clock
      requires old(x.lruListElem != null && x.lruListElem in L(x.shard).Nodes)
      requires L(x.shard).Nodes == Without<Node>(old(L(x.shard).Nodes), old(x.lruListElem))
      ensures Recent(x.shard)
    {
      var nodes, was, p := L(x.shard).Nodes, old(L(x.shard).Nodes),
        Position<Node>(old(L(x.shard).Nodes), old(x.lruListElem));
      forall a {:trigger nodes[a]} | 0 <= a < |nodes|
        ensures nodes[a] == was[if a < p then a else a + 1] && LastUse(nodes[a]) == old(LastUse(nodes[a]))
      {
        assert nodes[a] in was;
      }
    }

    twostate lemma DroppedAccounted(x: Entry)
      requires Wired() && |old(drift)| == |drift| == N() && Dropped(x) && OthersUntouched(x) && Untouched(x)
      requires old(Accounted(x.shard)) && Distinct(old(L(x.shard).Nodes))
      requires old(Weights(L(x.shard).Nodes))
         == old(Weights(Without<Node>(L(x.shard).Nodes, x.lruListElem)) + x.Weight())
      ensures Accounted(x.shard)
    {
      WithoutElements<Node>(old(L(x.shard).Nodes), old(x.lruListElem));
      assert Weights(L(x.shard).Nodes) == old(Weights(Without<Node>(L(x.shard).Nodes, x.lruListElem)));
    }

    twostate lemma DroppedOk(x: Entry)
      requires old(Indexed()) && |drift| == N() && Dropped(x) && Untouched(x)
      requires forall y: Entry {:trigger old(Resident(y))} :: old(allocated(y)) && old(Resident(y)) && y != x ==>
        Untouched(y)
      requires old(Weights(L(x.shard).Nodes))
         == old(Weights(Without<Node>(L(x.shard).Nodes, x.lruListElem)) + x.Weight())
      requires forall o: object {:trigger PartType(o)} ::
        old(allocated(o)) && PartType(o) && o !in old(Parts(x.shard))
        && !(o is Entry && (o as Entry).shard == x.shard) ==>
          unchanged(o)
      ensures Indexed()
    {
      hide Paired, Recent, Accounted, Weights, OthersUntouched;
      var i, ok, was := x.shard, old(ShardOk(x.shard)), old(L(x.shard).Nodes);
      ResidentsUntouched(x);
      WithoutElements<Node>(was, old(x.lruListElem));
      DroppedPaired(x);
      DroppedRecent(x);
      DroppedAccounted(x);
      StillIndexed(i);
    }

    method Remove(entry: Entry) returns (freed: int, hit: bool)
      requires Valid() && Resident(entry)
      modifies S(entry.shard), L(entry.shard), L(entry.shard).root, L(entry.shard).Nodes
      ensures Valid()
      ensures hit && freed == entry.Weight()
      ensures S(entry.shard).items == old(S(entry.shard).items) - {entry.key}
      ensures S(entry.shard).mem == old(S(entry.shard).mem) - freed
      ensures S(entry.shard).len == old(S(entry.shard).len) - 1
      ensures entry.lruListElem in old(L(entry.shard).Nodes)
      ensures L(entry.shard).Nodes == Without<Node>(old(L(entry.shard).Nodes), entry.lruListElem)
      ensures forall k: nat {:trigger View(k)} :: k != entry.key ==> View(k) == old(View(k))
      ensures Home(entry.key) == entry.shard && View(entry.key).None?
      ensures old(View(entry.key)) == Some(Item(entry.fingerprint, entry.payload))
    {
      NodeOf(entry);
      KeyOf(entry);
      balancer.Remove(entry.shard, entry.lruListElem);
      freed, hit := map_.shards[map_.MapShardKey(entry.key)].Remove(entry.key);
      DroppedOk(entry);
      ViewsKept(entry);
      SidesKept();
    }

    lemma KeyOf(x: Entry)
      requires Indexed() && Resident(x)
      ensures map_.MapShardKey(x.key) == x.shard
    {
      var ok := ShardOk(x.shard);
      assert S(x.shard).items[x.key] == x;
    }

    // ----- an entry moves to the front of its list

    /** `x` was used: it moved to the front of its list, its weight may have changed, and the drift
        says by how much. */
    twostate predicate Bumped(x: Entry)
      requires Wired() && |old(drift)| == |drift| == N()
      reads *
    {
      var i := x.shard;
      && i < N() && old(Resident(x)) && old(x.lruListElem != null && x.lruListElem in L(i).Nodes)
      && L(i).Valid() && unchanged(S(i))
      && L(i).Nodes == Fronted(old(L(i).Nodes), old(x.lruListElem))
      && x.lruListElem == old(x.lruListElem) && x.lastUse == clock > old(clock)
      && drift[i] == old(drift[i]) + x.Weight() - old(x.Weight())
    }

    twostate lemma BumpedPaired(x: Entry)
      requires Wired() && x.shard < N() && old(Paired(x.shard)) && OthersUntouched(x) && unchanged(S(x.shard))
      requires x.lruListElem == old(x.lruListElem)
      requires |L(x.shard).Nodes| == |old(L(x.shard).Nodes)|
      requires forall e :: e in L(x.shard).Nodes <==> e in old(L(x.shard).Nodes)
      ensures Paired(x.shard)
    {
    }

    twostate lemma BumpedRecent(x: Entry)
      requires Wired() && x.shard < N() && old(Recent(x.shard)) && OthersUntouched(x)
      requires old(x.lruListElem != null && x.lruListElem in L(x.shard).Nodes && x.lruListElem.value == Some(x))
      requires old(Paired(x.shard)) && Distinct(old(L(x.shard).Nodes))
      requires L(x.shard).Nodes == Fronted(old(L(x.shard).Nodes), old(x.lruListElem))
      requires x.lastUse == clock > old(clock)
      ensures Recent(x.shard)
    {
      var nodes, was, e := L(x.shard).Nodes, old(L(x.shard).Nodes), old(x.lruListElem);
      var p := Position<Node>(was, e);
      assert nodes[0] == e && LastUse(e) == clock;
      forall a {:trigger nodes[a]} | 0 < a < |nodes|
        ensures nodes[a] == was[if a - 1 < p then a - 1 else a] && LastUse(nodes[a]) == old(LastUse(nodes[a]))
      {
        assert nodes[a] in was && nodes[a] != e;
      }
    }

    twostate lemma BumpedOk(x: Entry)
      requires old(Indexed()) && |drift| == N() && Bumped(x)
      requires forall y: Entry {:trigger old(Resident(y))} :: old(allocated(y)) && old(Resident(y)) && y != x ==>
        Untouched(y)
      requires old(Weights(L(x.shard).Nodes))
         == old(Weights(Without<Node>(L(x.shard).Nodes, x.lruListElem)) + x.Weight())
      requires forall o: object {:trigger PartType(o)} ::
        old(allocated(o)) && PartType(o) && o !in old(Parts(x.shard))
        && !(o is Entry && (o as Entry).shard == x.shard) ==>
          unchanged(o)
      requires forall j :: 0 <= j < N() && j != x.shard ==> drift[j] == old(drift[j])
      ensures Indexed()
    {
      var i, ok, was, e := x.shard, old(ShardOk(x.shard)), old(L(x.shard).Nodes), old(x.lruListElem);
      ResidentsUntouched(x);
      WithoutElements<Node>(was, e);
      BumpedPaired(x);
      BumpedRecent(x);
      BumpedAccounted(x);
      StillIndexed(i);
    }

    twostate lemma BumpedAccounted(x: Entry)
      requires Wired() && x.shard < N() && |old(drift)| == |drift| == N()
      requires old(Accounted(x.shard)) && old(Paired(x.shard)) && OthersUntouched(x) && Distinct(old(L(x.shard).Nodes))
      requires old(x.lruListElem != null && x.lruListElem in L(x.shard).Nodes && x.lruListElem.value == Some(x))
      requires L(x.shard).Nodes == Fronted(old(L(x.shard).Nodes), old(x.lruListElem))
      requires S(x.shard).mem == old(S(x.shard).mem)
      requires drift[x.shard] == old(drift[x.shard]) + x.Weight() - old(x.Weight())
      requires old(Weights(L(x.shard).Nodes))
         == old(Weights(Without<Node>(L(x.shard).Nodes, x.lruListElem)) + x.Weight())
      ensures Accounted(x.shard)
    {
      var was, e := old(L(x.shard).Nodes), old(x.lruListElem);
      var rest := Without<Node>(was, e);
      WithoutElements<Node>(was, e);
      assert Weights(rest) == old(Weights(rest));
      assert Fronted(was, e)[1..] == rest;
    }

    method Touch(existing: Entry)
      requires Valid() && Resident(existing)
      modifies L(existing.shard), L(existing.shard).root, L(existing.shard).Nodes
      modifies existing`lastUse, this`clock
      ensures Valid() && clock == old(clock) + 1 && existing.lastUse == clock
      ensures existing.lruListElem in old(L(existing.shard).Nodes)
      ensures L(existing.shard).Nodes == Fronted(old(L(existing.shard).Nodes), existing.lruListElem)
      ensures forall k: nat {:trigger View(k)} :: View(k) == old(View(k))
    {
      NodeOf(existing);
      KeyOf(existing);
      clock := clock + 1;
      existing.lastUse := clock;
      balancer.Update(existing);
      BumpedOk(existing);
      ViewsKept(existing);
      SidesKept();
    }

    /** Swaps the payload in and moves the entry to the front; the shard's counter is left as it is. */
    method Update(existing: Entry, new_: Entry, now: int)
      requires Valid() && Resident(existing) && !Resident(new_) && new_.shard == existing.shard
      modifies L(existing.shard), L(existing.shard).root, L(existing.shard).Nodes
      modifies existing`lastUse, existing`payload, existing`refreshedAt, new_`payload, this`clock, this`drift
      ensures Valid() && clock == old(clock) + 1 && existing.lastUse == clock
      ensures existing.payload == old(new_.payload) && new_.payload == old(existing.payload)
      ensures existing.lruListElem in old(L(existing.shard).Nodes)
      ensures L(existing.shard).Nodes == Fronted(old(L(existing.shard).Nodes), existing.lruListElem)
      ensures drift
         == old(drift)[existing.shard := old(drift)[existing.shard] + existing.Weight() - old(existing.Weight())]
      ensures forall k: nat {:trigger View(k)} :: k != existing.key ==> View(k) == old(View(k))
    {
      hide ShardOk, SideOk, View, Weights, Entry.Weight, Fronted, Without, Latest;
      ghost var before := existing.Weight();
      NodeOf(existing);
      KeyOf(existing);
      existing.SwapPayloads(new_, now);
      drift := drift[existing.shard := drift[existing.shard] + existing.Weight() - before];
      clock := clock + 1;
      existing.lastUse := clock;
      balancer.Update(existing);
      BumpedOk(existing);
      ViewsKept(existing);
      SidesKept();
    }

    // ----- an entry comes in

    /** `x` joined the map and the front of the list of its shard. */
    twostate predicate Joined(x: Entry)
      requires Wired() && |old(drift)| == |drift| == N()
      reads *
    {
      var i := x.shard;
      && i == x.key % N() && x.key !in old(S(i).items)
      && L(i).Valid()
      && S(i).items == old(S(i).items)[x.key := x]
      && S(i).mem == old(S(i).mem) + x.Weight() && S(i).len == old(S(i).len) + 1
      && x.lruListElem != null && x.lruListElem.value == Some(x)
      && L(i).Nodes == [x.lruListElem] + old(L(i).Nodes)
      && x.lastUse == clock > old(clock) && drift == old(drift)
    }

    /** The joined list: the new node in front of the old ones. */
    twostate lemma JoinedNodes(x: Entry)
      requires Wired() && |old(drift)| == |drift| == N() && Joined(x)
      ensures forall e {:trigger e in L(x.shard).Nodes} ::
        e in L(x.shard).Nodes <==> e == x.lruListElem || e in old(L(x.shard).Nodes)
      ensures |L(x.shard).Nodes| == |old(L(x.shard).Nodes)| + 1
    {
      var nodes := L(x.shard).Nodes;
      assert nodes[0] == x.lruListElem;
      forall e | e in old(L(x.shard).Nodes) ensures e in nodes {
        var a :| 0 <= a < |nodes| - 1 && old(L(x.shard).Nodes)[a] == e;
        assert nodes[a + 1] == e;
      }
    }

    twostate lemma JoinedPaired(x: Entry)
      requires Wired() && |old(drift)| == |drift| == N() && Joined(x) && old(Paired(x.shard)) && OthersUntouched(x)
      requires Distinct(L(x.shard).Nodes)
      ensures Paired(x.shard)
    {
      hide Distinct;
      JoinedNodes(x);
      var s := S(x.shard);
      assert |s.items| == |old(s.items)| + 1;
    }

    twostate lemma JoinedRecent(x: Entry)
      requires Wired() && |old(drift)| == |drift| == N() && Joined(x) && OthersUntouched(x)
      requires old(Recent(x.shard)) && old(Paired(x.shard))
      ensures Recent(x.shard)
    {
      var nodes, was := L(x.shard).Nodes, old(L(x.shard).Nodes);
      assert LastUse(nodes[0]) == clock;
      forall a {:trigger nodes[a]} | 0 < a < |nodes|
        ensures nodes[a] == was[a - 1] && LastUse(nodes[a]) == old(LastUse(nodes[a]))
      {
        assert nodes[a] in was;
      }
    }

    twostate lemma JoinedAccounted(x: Entry)
      requires Wired() && |old(drift)| == |drift| == N() && Joined(x) && OthersUntouched(x)
      requires old(Accounted(x.shard)) && old(Paired(x.shard))
      ensures Accounted(x.shard)
    {
      var was := old(L(x.shard).Nodes);
      assert Weights(was) == old(Weights(was));
      assert L(x.shard).Nodes[1..] == was;
    }

    twostate lemma JoinedOk(x: Entry)
      requires old(Indexed()) && |drift| == N() && Joined(x)
      requires forall y: Entry {:trigger old(Resident(y))} :: old(allocated(y)) && old(Resident(y)) && y != x ==>
        Untouched(y)
      requires forall o: object {:trigger PartType(o)} ::
        old(allocated(o)) && PartType(o) && o !in old(Parts(x.shard))
        && !(o is Entry && (o as Entry).shard == x.shard) ==>
          unchanged(o)
      ensures Indexed()
    {
      var ok := old(ShardOk(x.shard));
      ResidentsUntouched(x);
      JoinedPaired(x);
      JoinedRecent(x);
      JoinedAccounted(x);
      StillIndexed(x.shard);
    }

    method Insert(new_: Entry)
      requires Valid() && new_.shard == new_.key % N() && new_.key !in S(new_.shard).items
      modifies S(new_.shard), L(new_.shard), L(new_.shard).root, L(new_.shard).Nodes
      modifies new_`lruListElem, new_`lastUse, this`clock
      ensures Valid() && clock == old(clock) + 1 && new_.lastUse == clock
      ensures S(new_.shard).items == old(S(new_.shard).items)[new_.key := new_]
      ensures S(new_.shard).mem == old(S(new_.shard).mem) + new_.Weight()
      ensures fresh(new_.lruListElem) && L(new_.shard).Nodes == [new_.lruListElem] + old(L(new_.shard).Nodes)
      ensures forall k: nat {:trigger View(k)} :: k != new_.key ==> View(k) == old(View(k))
    {
      ListOf(new_.shard);
      clock := clock + 1;
      new_.lastUse := clock;
      map_.shards[map_.MapShardKey(new_.key)].Set(new_.key, new_);
      balancer.Push(new_);
      JoinedOk(new_);
      ViewsKept(new_);
      SidesKept();
    }

    lemma ListOf(i: nat)
      requires Indexed() && i < N()
      ensures L(i).Valid()
    {
      var ok := ShardOk(i);
    }

    // ----- the storage as a plain map

    ghost function View(key: nat): Option<Item>
      requires Wired()
      reads *
    {
      var items := S(key % N()).items;
      if key in items then Some(Item(items[key].fingerprint, items[key].payload)) else None
    }

    ghost function Views(): imap<nat, Option<Item>>
      requires Wired()
      reads *
    {
      imap k: nat | true :: View(k)
    }

    /** Of what lookups found in `views` some are gone and the others are as they were. */
    ghost predicate Thinned(views: imap<nat, Option<Item>>)
      requires Wired()
      reads *
    {
      forall k: nat {:trigger View(k)} :: View(k).None? || (k in views && View(k) == views[k])
    }

    /** Losing more keeps it so. */
    twostate lemma StillThinned(views: imap<nat, Option<Item>>)
      requires Wired() && old(Thinned(views))
      requires forall k: nat {:trigger View(k)} :: View(k) == old(View(k)) || View(k).None?
      ensures Thinned(views)
    {
    }

    /** Views of keys other than `x`'s stay when no other resident changed and no other key came or
        went. */
    twostate lemma ViewsKept(x: Entry)
      requires old(Indexed()) && Wired() && x.shard < N() && x.key % N() == x.shard
      requires forall y: Entry {:trigger old(Resident(y))} :: old(allocated(y)) && old(Resident(y)) && y != x ==>
        Untouched(y)
      requires forall j: nat {:trigger S(j)} :: j < N() && j != x.shard ==> unchanged(S(j))
      requires forall k {:trigger k in S(x.shard).items} :: k != x.key ==>
        (k in S(x.shard).items <==> k in old(S(x.shard).items))
        && (k in S(x.shard).items ==> S(x.shard).items[k] == old(S(x.shard).items)[k])
      ensures forall k: nat {:trigger View(k)} :: k != x.key ==> View(k) == old(View(k))
    {
      forall k: nat {:trigger View(k)} | k != x.key ensures View(k) == old(View(k)) {
        var i := k % N();
        if k in old(S(i).items) {
          var ok := old(ShardOk(i));
          var y := old(S(i).items)[k];
          assert old(allocated(y)) && old(Resident(y));
        }
      }
    }

    // ----- the filter in front of the index

    /** Nothing that any shard is made of changed. */
    twostate lemma NothingMoved()
      requires old(Indexed()) && clock == old(clock) && drift == old(drift)
      requires forall o: object {:trigger PartType(o)} :: old(allocated(o)) && PartType(o) ==> unchanged(o)
      ensures Indexed()
      ensures forall k: nat {:trigger View(k)} :: View(k) == old(View(k))
    {
      forall j: nat | j < N() ensures ShardOk(j) {
        AllKept(j);
        KeptOk(j);
      }
      forall k: nat ensures View(k) == old(View(k)) {
        var i := k % N();
        assert PartType(S(i));
        if k in old(S(i).items) { assert PartType(old(S(i).items)[k]); }
      }
    }

    twostate lemma AllKept(j: nat)
      requires old(Indexed()) && drift == old(drift) && j < N()
      requires forall o: object {:trigger PartType(o)} :: old(allocated(o)) && PartType(o) ==> unchanged(o)
      ensures old(ShardOk(j)) && Kept(j)
    {
      assert PartType(S(j)) && PartType(L(j)) && PartType(L(j).root);
      forall e: Node {:trigger e in old(L(j).Nodes)} | e in old(L(j).Nodes)
        ensures unchanged(e) && (e.value.Some? ==> Untouched(e.value.value))
      {
        assert PartType(e);
        if e.value.Some? { assert PartType(e.value.value); }
      }
    }

    /** The filter was used and is in order; nothing else but the storage's own fields changed. */
    twostate lemma FilterOnly()
      requires old(SideOk(Ranking)) && tinyLFU.Valid()
      requires unchanged(balancer.memList) && unchanged(balancer.memList.root)
      requires forall e: Element<ShardNode> {:trigger e in old(balancer.memList.Nodes)} ::
        e in old(balancer.memList.Nodes) ==> unchanged(e)
      requires forall n: ShardNode {:trigger n in balancer.shards} :: n in balancer.shards ==> unchanged(n)
      ensures forall side {:trigger SideOk(side)} :: SideOk(side)
    {
      var r := balancer.memList;
      assert forall i {:trigger r.Nodes[i]} :: 0 <= i < |r.Nodes| ==> r.Nodes[i] in old(r.Nodes);
      assert balancer.Ranked();
      forall side ensures SideOk(side) {
        match side
        case Ranking =>
        case Filter =>
      }
    }

    ghost predicate RankType(o: object) {
      o is List<ShardNode> || o is Element<ShardNode>
    }

    /** The shards were ranked anew; the filter did not change. */
    twostate lemma RankingOnly()
      requires old(SideOk(Filter)) && balancer.Ranked()
      requires forall o: object {:trigger RankType(o)} :: old(allocated(o)) && !RankType(o) ==> unchanged(o)
      ensures forall side {:trigger SideOk(side)} :: SideOk(side)
    {
      var t := tinyLFU;
      assert !RankType(t) && !RankType(t.curr) && !RankType(t.curr.table) && !RankType(t.prev)
        && !RankType(t.prev.table) && !RankType(t.door) && !RankType(t.door.bits);
      forall side ensures SideOk(side) {
        match side
        case Ranking =>
        case Filter =>
      }
    }

    method CountUse(key: nat)
      requires Valid()
      modifies tinyLFU.curr`window, tinyLFU.curr.table, tinyLFU.door`seen, tinyLFU.door.bits
      ensures Valid()
      ensures forall k: nat {:trigger View(k)} :: View(k) == old(View(k))
      ensures tinyLFU.curr.window == old(tinyLFU.curr.window) + [key] && tinyLFU.prev.window == old(tinyLFU.prev.window)
      ensures key in tinyLFU.door.seen && VictimFor(key) == old(VictimFor(key))
    {
      assert SideOk(Filter);
      tinyLFU.Increment(key);
      NothingMoved();
      FilterOnly();
    }

    // ----- the public operations

    ghost function Home(key: nat): nat
      requires N() > 0
    {
      key % N()
    }

    /** The weight of the resident under `key`, if any. */
    ghost function HolderWeight(key: nat): int
      requires Wired()
      reads S(Home(key)), Holder(key)`payload
    {
      if key in S(Home(key)).items then S(Home(key)).items[key].Weight() else 0
    }

    /** The resident under `key`, if any, as a set for frames. */
    ghost function Holder(key: nat): set<Entry>
      requires Wired()
      reads S(Home(key))
    {
      if key in S(Home(key)).items then {S(Home(key)).items[key]} else {}
    }

    /** A hit needs key and fingerprint, and makes the entry the most recently used one. */
    method Get(req: Entry) returns (ptr: Entry?, found: bool)
      requires Valid()
      modifies L(Home(req.key)), L(Home(req.key)).root, L(Home(req.key)).Nodes, Holder(req.key)`lastUse, this`clock
      ensures Valid()
      ensures forall k: nat {:trigger View(k)} :: View(k) == old(View(k))
      ensures found <==> View(req.key).Some? && View(req.key).value.fingerprint == req.fingerprint
      ensures found ==> ptr != null && ptr.key == req.key && Resident(ptr) && ptr.lastUse == clock > old(clock)
      ensures !found ==> ptr == null && clock == old(clock)
    {
      var r := map_.shards[map_.MapShardKey(req.key)].Get(req.key);
      if r.None? || r.value.fingerprint != req.fingerprint {
        return null, false;
      }
      ResidentAt(req.key);
      Touch(r.value);
      return r.value, true;
    }

    lemma ResidentAt(key: nat)
      requires Indexed() && key in S(Home(key)).items
      ensures Resident(S(Home(key)).items[key]) && S(Home(key)).items[key].key == key
      ensures S(Home(key)).items[key].shard == Home(key)
    {
      var ok := ShardOk(Home(key));
    }

    /** Compares the total of the last refresh, plus the balancer's own size, with the threshold. */
    predicate ShouldEvict()
      reads map_`mem, balancer.memList
    {
      map_.mem + balancer.Mem() >= memoryThreshold
    }

    /** Memory is short exactly when what the map counted at the last refresh and the balancer's own size
        reach the threshold together. */
    lemma ShortOfMemoryIff()
      requires Valid()
      ensures ShouldEvict() <==> map_.mem + 32 + 48 * N() >= memoryThreshold
    {
      assert SideOk(Ranking);
      balancer.MemIsOwnSize();
    }

    /** The list of `key`'s shard without the node of the entry stored under `key`. */
    ghost function Rest(key: nat): seq<Node>
      requires Wired()
      reads *
    {
      var s, nodes := S(Home(key)), L(Home(key)).Nodes;
      if key in s.items && s.items[key].lruListElem in nodes
        then Without<Node>(nodes, s.items[key].lruListElem) else nodes
    }

    /** The entry that has to be no more frequent than a newcomer under `key`. */
    ghost function VictimFor(key: nat): Option<Entry>
      requires Wired()
      reads *
    {
      var i := Home(key);
      Victim(Rest(key), balancer.NodesAt(i + 1), if i - 1 > 0 then balancer.NodesAt(i - 1) else [])
    }

    /** The resident under `key` is the one used last. */
    ghost predicate Latest(key: nat)
      requires Wired()
      reads *
    {
      key in S(Home(key)).items && S(Home(key)).items[key].lastUse == clock
    }

    /** The list of shard `i` gained no node that existed before. */
    twostate predicate NodesStay(i: nat)
      requires i < N() && |balancer.shards| == N()
      reads L(i)
    {
      forall e {:trigger e in L(i).Nodes} :: e in L(i).Nodes ==> e in old(L(i).Nodes) || fresh(e)
    }

    /** The entry under the same key and fingerprint takes the new payload unless the sampled
        comparison calls the two equal. */
    method Refreshed(prior: Entry, new_: Entry, now: int)
      requires Valid() && Resident(prior) && new_.key == prior.key && new_.shard == prior.shard
      modifies L(prior.shard), L(prior.shard).root, L(prior.shard).Nodes
      modifies prior`lastUse, prior`payload, prior`refreshedAt, new_`payload, this`clock, this`drift
      ensures Valid()
      ensures forall k: nat {:trigger View(k)} :: k != prior.key ==> View(k) == old(View(k))
      ensures Resident(prior) && Latest(prior.key) && clock > old(clock)
      ensures NodesStay(prior.shard)
      ensures drift
           == old(drift)[prior.shard := old(drift)[prior.shard] + HolderWeight(new_.key) - old(HolderWeight(new_.key))]
      ensures old(Hit(new_)) <==> new_.fingerprint == prior.fingerprint
      ensures new_.fingerprint == prior.fingerprint ==>
        View(new_.key) == Some(Item(new_.fingerprint, old(Settled(new_))))
    {
      KeyOf(prior);
      if prior.IsSamePayload(hash, new_) {
        Touch(prior);
        assert drift == old(drift)[prior.shard := old(drift)[prior.shard]];
      } else {
        assert prior != new_;
        Update(prior, new_, now);
      }
    }

    /** There is a victim, and `key` is at least as frequent. */
    ghost predicate Outweighs(key: nat, victim: Option<Entry>)
      requires SideOk(Filter)
      reads *
    {
      victim.Some? && tinyLFU.EstimateOf(key) >= tinyLFU.EstimateOf(victim.value.key)
    }

    method FindVictimFor(key: nat) returns (victim: Option<Entry>)
      requires Valid() && key !in S(Home(key)).items
      ensures victim == VictimFor(key)
    {
      ListsValid();
      hide ShardOk, SideOk;
      victim := balancer.FindVictim(map_.MapShardKey(key));
    }

    /** Memory is not short, or the newcomer is as frequent as the victim of its shard. */
    method MayEnter(key: nat) returns (admit: bool)
      requires Valid() && key !in S(Home(key)).items && key in tinyLFU.door.seen
      modifies tinyLFU.door`seen, tinyLFU.door.bits
      ensures Valid()
      ensures forall k: nat {:trigger View(k)} :: View(k) == old(View(k))
      ensures admit <==> !old(ShouldEvict()) || old(Outweighs(key, VictimFor(key)))
      ensures unchanged(tinyLFU) && unchanged(tinyLFU.curr.table) && unchanged(tinyLFU.prev.table)
    {
      if !ShouldEvict() {
        return true;
      }
      var victim := FindVictimFor(key);
      if victim.None? {
        return false;
      }
      admit := Admit(key, victim.value.key);
    }

    /** A newcomer whose key is absent comes in unless memory is short and its shard's victim is more
        frequent. */
    method Admitted(new_: Entry) returns (persisted: bool)
      requires Valid() && new_.shard == Home(new_.key) && new_.key !in S(new_.shard).items
      requires new_.key in tinyLFU.door.seen
      modifies S(new_.shard), L(new_.shard), L(new_.shard).root, L(new_.shard).Nodes
      modifies new_`lruListElem, new_`lastUse, this`clock, tinyLFU.door`seen, tinyLFU.door.bits
      ensures Valid()
      ensures forall k: nat {:trigger View(k)} :: k != new_.key ==> View(k) == old(View(k))
      ensures View(new_.key) == if persisted then Some(Item(new_.fingerprint, new_.payload)) else None
      ensures persisted <==> !old(ShouldEvict()) || old(Outweighs(new_.key, VictimFor(new_.key)))
      ensures S(new_.shard).items == old(S(new_.shard).items) + if persisted then map[new_.key := new_] else map[]
      ensures S(new_.shard).mem == old(S(new_.shard).mem) + if persisted then new_.Weight() else 0
      ensures NodesStay(new_.shard)
      ensures if persisted then Latest(new_.key) && clock > old(clock) else clock == old(clock)
      ensures unchanged(tinyLFU) && unchanged(tinyLFU.curr.table) && unchanged(tinyLFU.prev.table)
    {
      hide ShardOk, SideOk, Outweighs, VictimFor, ShouldEvict;
      persisted := MayEnter(new_.key);
      if persisted {
        Insert(new_);
      }
    }

    lemma ListsValid()
      requires Indexed()
      ensures forall j {:trigger balancer.shards[j].lruList} :: 0 <= j < N() ==> balancer.shards[j].lruList.Valid()
    {
      forall j {:trigger balancer.shards[j].lruList} | 0 <= j < N() ensures balancer.shards[j].lruList.Valid() {
        ListOf(j);
      }
    }

    method Admit(newKey: nat, oldKey: nat) returns (admit: bool)
      requires Valid() && newKey in tinyLFU.door.seen
      modifies tinyLFU.door`seen, tinyLFU.door.bits
      ensures Valid()
      ensures forall k: nat {:trigger View(k)} :: View(k) == old(View(k))
      ensures SideOk(Filter) && admit == old(SideOk(Filter) && tinyLFU.EstimateOf(newKey) >= tinyLFU.EstimateOf(oldKey))
      ensures unchanged(tinyLFU) && unchanged(tinyLFU.curr.table) && unchanged(tinyLFU.prev.table)
    {
      assert SideOk(Filter);
      admit := tinyLFU.Admit(newKey, oldKey);
      NothingMoved();
      FilterOnly();
    }

    /** Removes the holder of a colliding key; the victim a newcomer has to beat stays the same. */
    method Displace(prior: Entry)
      requires Valid() && Resident(prior)
      modifies S(prior.shard), L(prior.shard), L(prior.shard).root, L(prior.shard).Nodes
      ensures Valid() && S(prior.shard).items == old(S(prior.shard).items) - {prior.key}
      ensures S(prior.shard).mem == old(S(prior.shard).mem) - prior.Weight()
      ensures forall k: nat {:trigger View(k)} :: k != prior.key ==> View(k) == old(View(k))
      ensures VictimFor(prior.key) == old(VictimFor(prior.key)) && ShouldEvict() == old(ShouldEvict())
      ensures Outweighs(prior.key, VictimFor(prior.key)) == old(Outweighs(prior.key, VictimFor(prior.key)))
      ensures forall a {:trigger L(prior.shard).Nodes[a]} :: 0 <= a < |L(prior.shard).Nodes| ==>
        L(prior.shard).Nodes[a] in old(L(prior.shard).Nodes)
    {
      NodeOf(prior);
      KeyOf(prior);
      hide ShardOk, View, Entry.Weight;
      assert Rest(prior.key) == Without<Node>(L(prior.shard).Nodes, prior.lruListElem);
      var _, _ := Remove(prior);
      WithoutIn(old(L(prior.shard).Nodes), prior.lruListElem);
      hide VictimFor, Outweighs, ShouldEvict, SideOk;
      VictimStays(prior.key);
    }

    /** The victim depends on three lists, its comparison on the sketches. */
    twostate lemma VictimStays(key: nat)
      requires Wired() && old(SideOk(Filter)) && SideOk(Filter)
      requires Rest(key) == old(Rest(key))
      requires balancer.NodesAt(Home(key) + 1) == old(balancer.NodesAt(Home(key) + 1))
      requires balancer.NodesAt(Home(key) - 1) == old(balancer.NodesAt(Home(key) - 1))
      requires unchanged(tinyLFU) && unchanged(tinyLFU.curr.table) && unchanged(tinyLFU.prev.table)
      ensures VictimFor(key) == old(VictimFor(key))
      ensures Outweighs(key, VictimFor(key)) == old(Outweighs(key, VictimFor(key)))
    {
    }

    lemma WithoutIn(nodes: seq<Node>, e: Node)
      requires e in nodes
      ensures forall a {:trigger Without<Node>(nodes, e)[a]} :: 0 <= a < |Without<Node>(nodes, e)| ==>
        Without<Node>(nodes, e)[a] in nodes
    {
      var i := Position<Node>(nodes, e);
      assert forall a {:trigger Without<Node>(nodes, e)[a]} :: 0 <= a < |Without<Node>(nodes, e)| ==>
        Without<Node>(nodes, e)[a] == nodes[if a < i then a else a + 1];
    }

    /** The holder of `key`, if there is one, is removed; the victim to beat stays the same. */
    method Vacate(key: nat)
      requires Valid()
      modifies S(Home(key)), L(Home(key)), L(Home(key)).root, L(Home(key)).Nodes
      ensures Valid() && S(Home(key)).items == old(S(Home(key)).items) - {key}
      ensures S(Home(key)).mem == old(S(Home(key)).mem) - old(HolderWeight(key))
      ensures forall k: nat {:trigger View(k)} :: k != key ==> View(k) == old(View(k))
      ensures ShouldEvict() == old(ShouldEvict())
      ensures Outweighs(key, VictimFor(key)) == old(Outweighs(key, VictimFor(key)))
      ensures forall a {:trigger L(Home(key)).Nodes[a]} :: 0 <= a < |L(Home(key)).Nodes| ==>
        L(Home(key)).Nodes[a] in old(L(Home(key)).Nodes)
    {
      hide Outweighs, VictimFor, ShouldEvict, ShardOk, SideOk;
      var prior := map_.shards[map_.MapShardKey(key)].Get(key);
      if prior.Some? {
        ResidentAt(key);
        Displace(prior.value);
      }
    }

    method Newcomer(new_: Entry) returns (persisted: bool)
      requires Valid() && new_.shard == Home(new_.key) && !Hit(new_) && new_.key in tinyLFU.door.seen
      modifies S(new_.shard), L(new_.shard), L(new_.shard).root, L(new_.shard).Nodes
      modifies new_`lruListElem, new_`lastUse, this`clock, tinyLFU.door`seen, tinyLFU.door.bits
      ensures Valid()
      ensures forall k: nat {:trigger View(k)} :: k != new_.key ==> View(k) == old(View(k))
      ensures View(new_.key) == if persisted then Some(Item(new_.fingerprint, new_.payload)) else None
      ensures persisted <==> !old(ShouldEvict()) || old(Outweighs(new_.key, VictimFor(new_.key)))
      ensures S(new_.shard).items == old(S(new_.shard).items) - {new_.key}
          + if persisted then map[new_.key := new_] else map[]
      ensures S(new_.shard).mem == old(S(new_.shard).mem) - old(HolderWeight(new_.key))
          + if persisted then new_.Weight() else 0
      ensures NodesStay(new_.shard)
      ensures if persisted then Latest(new_.key) && clock > old(clock) else clock == old(clock)
      ensures unchanged(tinyLFU) && unchanged(tinyLFU.curr.table) && unchanged(tinyLFU.prev.table)
    {
      hide Latest, Outweighs, VictimFor, ShouldEvict, ShardOk, SideOk;
      Vacate(new_.key);
      persisted := Admitted(new_);
    }

    /** An entry with the same key and fingerprint is resident. */
    ghost predicate Hit(x: Entry)
      requires Wired()
      reads *
    {
      View(x.key).Some? && View(x.key).value.fingerprint == x.fingerprint
    }

    /** The payload to be found under `x`'s key once `x` was set: the resident's if the sampled
        comparison calls it the same, `x`'s own otherwise. */
    ghost function Settled(x: Entry): Option<Payload>
      requires Wired()
      reads *
    {
      if Hit(x) && SamePayload(hash, View(x.key).value.payload, x.payload) then View(x.key).value.payload else x.payload
    }

    /** `Set` behind the count: a hit refreshes the resident, anything else is a newcomer. */
    method Place(new_: Entry, now: int) returns (persisted: bool)
      requires Valid() && new_.shard == Home(new_.key) && new_.key in tinyLFU.door.seen
      modifies S(new_.shard), L(new_.shard), L(new_.shard).root, L(new_.shard).Nodes
      modifies Holder(new_.key), new_, this`clock, this`drift, tinyLFU.door`seen, tinyLFU.door.bits
      ensures Valid()
      ensures forall k: nat {:trigger View(k)} :: k != new_.key ==> View(k) == old(View(k))
      ensures View(new_.key) == if persisted then Some(Item(new_.fingerprint, old(Settled(new_)))) else None
      ensures persisted <==> old(Hit(new_)) || !old(ShouldEvict()) || old(Outweighs(new_.key, VictimFor(new_.key)))
      ensures fresh((set e | e in L(new_.shard).Nodes) - old(set e | e in L(new_.shard).Nodes))
      ensures if persisted then Latest(new_.key) && clock > old(clock) else clock == old(clock)
      ensures Counted(new_, persisted)
      ensures unchanged(tinyLFU) && unchanged(tinyLFU.curr.table) && unchanged(tinyLFU.prev.table)
    {
      hide Latest, VictimFor, ShouldEvict, ShardOk, SideOk, HolderWeight, Outweighs, SamePayload;
      var found := map_.shards[map_.MapShardKey(new_.key)].Get(new_.key);
      assert Hit(new_) <==> found.Some? && found.value.fingerprint == new_.fingerprint;
      if found.Some? && found.value.fingerprint == new_.fingerprint {
        hide Hit, Settled;
        ResidentAt(new_.key);
        Refreshed(found.value, new_, now);
        return true;
      }
      persisted := Newcomer(new_);
    }

    /** Items and counter of the shard after a `Set`, and the drift: a hit changes neither items nor
        counter, and drifts by what it changes the resident's weight; anything else does not drift. */
    twostate predicate Counted(new_: Entry, persisted: bool)
      requires Wired() && new_.shard == Home(new_.key) && |old(drift)| == N()
      reads *
    {
      var s := S(new_.shard);
      if old(Hit(new_)) then
        && s.items == old(s.items) && s.mem == old(s.mem)
        && drift
           == old(drift)[new_.shard := old(drift)[new_.shard] + HolderWeight(new_.key) - old(HolderWeight(new_.key))]
      else
        && s.items == old(s.items) - {new_.key} + (if persisted then map[new_.key := new_] else map[])
        && s.mem == old(s.mem) - old(HolderWeight(new_.key)) + (if persisted then new_.Weight() else 0)
        && drift == old(drift)
    }

    /** `Set` in the terms it is carried out in. */
    method Arrive(new_: Entry, now: int) returns (persisted: bool)
      requires Valid() && new_.shard == Home(new_.key)
      modifies S(new_.shard), L(new_.shard), L(new_.shard).root, L(new_.shard).Nodes
      modifies Holder(new_.key), new_, this`clock, this`drift
      modifies tinyLFU.curr`window, tinyLFU.curr.table, tinyLFU.door`seen, tinyLFU.door.bits
      ensures Valid()
      ensures forall k: nat {:trigger View(k)} :: k != new_.key ==> View(k) == old(View(k))
      ensures View(new_.key) == if persisted then Some(Item(new_.fingerprint, old(Settled(new_)))) else None
      ensures persisted <==> old(Hit(new_)) || !old(ShouldEvict()) || Outweighs(new_.key, old(VictimFor(new_.key)))
      ensures fresh((set e | e in L(new_.shard).Nodes) - old(set e | e in L(new_.shard).Nodes))
      ensures if persisted then Latest(new_.key) && clock > old(clock) else clock == old(clock)
      ensures Counted(new_, persisted)
      ensures tinyLFU.curr.window == old(tinyLFU.curr.window) + [new_.key]
    {
      hide Latest, VictimFor, ShouldEvict, ShardOk, SideOk, HolderWeight, NodesStay, Hit, Settled, View;
      CountArrival(new_);
      persisted := Place(new_, now);
    }

    /** No key but the entry's own is affected, and its use is counted. An entry found under its key and
        fingerprint is always kept, and keeps its payload if the sampled comparison calls the two equal;
        otherwise the entry comes in exactly when memory allows it or when it is as frequent as its
        victim, and if it does not come in its key is free, even when a colliding entry held it before.
        Only a hit causes drift, by as much as it changes the resident's weight. */
    method Set(new_: Entry, now: int) returns (persisted: bool)
      requires Valid() && new_.shard == Home(new_.key)
      modifies S(new_.shard), L(new_.shard), L(new_.shard).root, L(new_.shard).Nodes
      modifies Holder(new_.key), new_, this`clock, this`drift
      modifies tinyLFU.curr`window, tinyLFU.curr.table, tinyLFU.door`seen, tinyLFU.door.bits
      ensures Valid()
      ensures forall k: nat {:trigger View(k)} :: k != new_.key ==> View(k) == old(View(k))
      ensures persisted ==> View(new_.key).Some? && View(new_.key).value.fingerprint == new_.fingerprint
      ensures persisted ==> var was, payload := old(View(new_.key)), old(new_.payload);
        View(new_.key).value.payload ==
          if was.Some? && was.value.fingerprint == new_.fingerprint && SamePayload(hash, was.value.payload, payload)
          then was.value.payload else payload
      ensures !persisted ==> View(new_.key).None?
      ensures SideOk(Filter) && (persisted <==>
        || (old(View(new_.key)).Some? && old(View(new_.key)).value.fingerprint == new_.fingerprint)
        || old(map_.mem) + 32 + 48 * N() < memoryThreshold
        || (old(VictimFor(new_.key)).Some?
            && tinyLFU.EstimateOf(new_.key) >= tinyLFU.EstimateOf(old(VictimFor(new_.key)).value.key)))
      ensures fresh((set e | e in L(new_.shard).Nodes) - old(set e | e in L(new_.shard).Nodes))
      ensures if persisted then Latest(new_.key) && clock > old(clock) else clock == old(clock)
      ensures Counted(new_, persisted)
      ensures tinyLFU.curr.window == old(tinyLFU.curr.window) + [new_.key]
    {
      ShortOfMemoryIff();
      hide Latest, VictimFor, ShouldEvict, ShardOk, HolderWeight, NodesStay, View;
      persisted := Arrive(new_, now);
    }

    /** `CountUse`, and what a `Set` of `x` looks at afterwards is as it was. */
    method CountArrival(x: Entry)
      requires Valid()
      modifies tinyLFU.curr`window, tinyLFU.curr.table, tinyLFU.door`seen, tinyLFU.door.bits
      ensures Valid() && x.key in tinyLFU.door.seen && VictimFor(x.key) == old(VictimFor(x.key))
      ensures forall k: nat {:trigger View(k)} :: View(k) == old(View(k))
      ensures Hit(x) == old(Hit(x)) && Settled(x) == old(Settled(x)) && HolderWeight(x.key) == old(HolderWeight(x.key))
      ensures tinyLFU.curr.window == old(tinyLFU.curr.window) + [x.key]
    {
      hide VictimFor, ShardOk, SideOk;
      CountUse(x.key);
    }

    // ----- totals and recency

    ghost function TotalMem(): int
      reads map_.shards
    {
      Sum(Mems(map_.shards))
    }

    ghost function TotalLen(): int
      reads map_.shards
    {
      Sum(Lens(map_.shards))
    }

    /** When only shard `i` changed, the totals move as its counters do. */
    twostate lemma TotalsMove(i: nat)
      requires i < N() && forall j {:trigger map_.shards[j]} :: 0 <= j < N() && j != i ==> unchanged(map_.shards[j])
      ensures TotalMem() == old(TotalMem()) + S(i).mem - old(S(i).mem)
      ensures TotalLen() == old(TotalLen()) + S(i).len - old(S(i).len)
    {
      SumMoves(old(Mems(map_.shards)), Mems(map_.shards), i);
      SumMoves(old(Lens(map_.shards)), Lens(map_.shards), i);
    }

    method RealMem() returns (mem: int)
      requires Valid()
      modifies map_`mem
      ensures Valid() && mem == TotalMem() == map_.mem
      ensures forall k: nat {:trigger View(k)} :: View(k) == old(View(k))
    {
      mem := map_.RealMem();
      NothingMoved();
      SidesKept();
    }

    /** In a valid storage the books of every shard are those of its map. */
    lemma BookedOverItems(i: nat)
      requires Valid() && i < N()
      ensures S(i).Booked(drift[i])
    {
      var ok, nodes, weights := ShardOk(i), L(i).Nodes, S(i).Weighed();
      forall a: nat | a < |nodes|
        ensures nodes[a].value.Some? && KeyAt(nodes, a) in weights
          && weights[KeyAt(nodes, a)] == nodes[a].value.value.Weight()
        ensures S(i).items[KeyAt(nodes, a)].lruListElem == nodes[a]
      {
        assert nodes[a] in nodes;
      }
      forall k | k in weights ensures exists a: nat :: a < |nodes| && KeyAt(nodes, a) == k {
        var e := S(i).items[k].lruListElem;
        var a: nat :| a < |nodes| && nodes[a] == e;
        assert KeyAt(nodes, a) == k;
      }
      ListWeighsMap(nodes, weights);
    }

    /** Empties every map and zeroes its counters, and with that the drift. The LRU lists are not
        cleared: map and lists are no longer in step. */
    method Clear()
      requires Wired() && |drift| == N()
      modifies map_.shards, this`drift
      ensures drift == seq(N(), _ => 0)
      ensures forall i {:trigger S(i)} :: 0 <= i < N() ==> S(i).items == map[] && S(i).len == 0 && S(i).Booked(drift[i])
      ensures forall key: nat {:trigger View(key)} :: View(key).None?
    {
      for i := 0 to |map_.shards|
        invariant forall j {:trigger map_.shards[j]} :: 0 <= j < i ==>
          map_.shards[j].items == map[] && map_.shards[j].len == 0 && map_.shards[j].Booked(0)
      {
        map_.shards[i].Clear();
      }
      drift := seq(N(), _ => 0);
    }

    /** The victim of a non-empty shard is its least recently used resident. */
    lemma VictimIsLeastRecent(i: nat)
      requires Valid() && i < N() && S(i).items != map[]
      ensures var nodes := L(i).Nodes;
        && nodes != [] && Back(nodes).Some? && Resident(Back(nodes).value) && Back(nodes).value.shard == i
        && forall k {:trigger S(i).items[k]} :: k in S(i).items ==> Back(nodes).value.lastUse <= S(i).items[k].lastUse
    {
      var ok, nodes := ShardOk(i), L(i).Nodes;
      var some :| some in S(i).items;
      assert S(i).items[some].lruListElem in nodes;
      var last := nodes[|nodes| - 1];
      assert last in nodes;
      forall k {:trigger S(i).items[k]} | k in S(i).items ensures last.value.value.lastUse <= S(i).items[k].lastUse {
        var e := S(i).items[k].lruListElem;
        assert e in nodes;
        var a :| 0 <= a < |nodes| && nodes[a] == e;
        assert LastUse(nodes[a]) >= LastUse(last);
      }
    }

    /** `v` is the least recently used resident of shard `i` apart from the one under `key`. */
    ghost predicate LeastRecent(v: Option<Entry>, i: nat, key: nat)
      requires Wired() && i < N()
      reads *
    {
      && v.Some? && Resident(v.value) && v.value.shard == i && v.value.key != key
      && forall k {:trigger S(i).items[k]} :: k in S(i).items && k != key ==>
           v.value.lastUse <= S(i).items[k].lastUse
    }

    /** Some resident of shard `i` is under another key. */
    ghost predicate Occupied(i: nat, key: nat)
      requires i < N()
      reads S(i)
    {
      exists k :: k in S(i).items && k != key
    }

    /** The entry a newcomer under `key` has to beat is the least recently used of its own shard; when
        there is none, of the right neighbour; when there is none either, of the left one, unless
        that is shard 0. */
    lemma VictimRanks(key: nat)
      requires Valid()
      ensures var i, v := Home(key), VictimFor(key);
        && (Occupied(i, key) ==> LeastRecent(v, i, key))
        && (!Occupied(i, key) && i + 1 < N() && Occupied(i + 1, key) ==> LeastRecent(v, i + 1, key))
        && (!Occupied(i, key) && (i + 1 >= N() || !Occupied(i + 1, key)) ==>
              if i >= 2 && Occupied(i - 1, key) then LeastRecent(v, i - 1, key) else v.None?)
    {
      var i := Home(key);
      hide ShardOk, SideOk, Occupied, LeastRecent;
      OwnVictim(key);
      if i + 1 < N() { BackOf(i + 1, key); }
      if i >= 1 { BackOf(i - 1, key); }
    }

    /** In a shard that is not `key`'s home the back of the list is least recent. */
    lemma BackOf(i: nat, key: nat)
      requires Valid() && i < N() && i != Home(key)
      ensures L(i).Nodes != [] <==> Occupied(i, key)
      ensures L(i).Nodes != [] ==> LeastRecent(Back(L(i).Nodes), i, key)
    {
      var ok := ShardOk(i);
      assert key !in S(i).items;
      if L(i).Nodes != [] {
        assert L(i).Nodes[0] in L(i).Nodes;
        VictimIsLeastRecent(i);
      }
    }

    /** What is left of the list without `key`'s node. */
    lemma OwnVictim(key: nat)
      requires Valid()
      ensures Rest(key) != [] <==> Occupied(Home(key), key)
      ensures Rest(key) != [] ==> LeastRecent(Back(Rest(key)), Home(key), key)
    {
      var i := Home(key);
      RestOccupied(key);
      if Rest(key) != [] {
        var last := Rest(key)[|Rest(key)| - 1];
        RestResident(key, last);
        hide ShardOk, SideOk, Rest;
        forall k {:trigger S(i).items[k]} | k in S(i).items && k != key
          ensures last.value.value.lastUse <= S(i).items[k].lastUse
        {
          EarlierUsed(key, k);
        }
      }
    }

    lemma RestOccupied(key: nat)
      requires Valid()
      ensures Rest(key) != [] <==> Occupied(Home(key), key)
    {
      RecentOf(Home(key));
      RestElements(key);
      hide ShardOk, SideOk, Recent, Rest;
      var items, rest := S(Home(key)).items, Rest(key);
      if k :| k in items && k != key {
        assert items[k].lruListElem in rest;
      }
      if rest != [] {
        assert rest[0] in rest;
        RestResident(key, rest[0]);
      }
    }

    lemma RestResident(key: nat, e: Node)
      requires Valid() && e in Rest(key)
      ensures e.value.Some? && Resident(e.value.value) && e.value.value.shard == Home(key) && e.value.value.key != key
    {
      RecentOf(Home(key));
      RestElements(key);
      hide ShardOk, SideOk, Recent, Rest;
    }

    lemma EarlierUsed(key: nat, k: nat)
      requires Valid() && k in S(Home(key)).items && k != key
      ensures Rest(key) != [] && LastUse(Rest(key)[|Rest(key)| - 1]) <= S(Home(key)).items[k].lastUse
    {
      RecentOf(Home(key));
      RestElements(key);
      hide ShardOk, Recent, Rest, Without;
      var rest, e := Rest(key), S(Home(key)).items[k].lruListElem;
      assert e in rest;
      var a :| 0 <= a < |rest| && rest[a] == e;
      RestRecent(key, a);
    }

    lemma RestElements(key: nat)
      requires Valid()
      ensures forall e {:trigger e in Rest(key)} ::
        e in Rest(key) <==> e in L(Home(key)).Nodes && e.value.Some? && e.value.value.key != key
    {
      var i := Home(key);
      var ok, nodes, items := ShardOk(i), L(i).Nodes, S(i).items;
      if key in items {
        WithoutElements<Node>(nodes, items[key].lruListElem);
      }
    }

    lemma RecentOf(i: nat)
      requires Valid() && i < N()
      ensures Recent(i) && Paired(i)
    {
      var ok := ShardOk(i);
    }

    lemma RecentAt(i: nat, a: nat, b: nat)
      requires i < N() && Wired() && Recent(i) && a < b < |L(i).Nodes|
      ensures LastUse(L(i).Nodes[a]) > LastUse(L(i).Nodes[b])
    {
    }

    /** What is left of a list without one node is still in order of last use. */
    lemma WithoutRecent(i: nat, e: Node, a: nat)
      requires i < N() && Wired() && Recent(i) && e in L(i).Nodes && a < |Without<Node>(L(i).Nodes, e)|
      ensures var rest := Without<Node>(L(i).Nodes, e); LastUse(rest[|rest| - 1]) <= LastUse(rest[a])
    {
      hide Without, LastUse, Recent;
      var rest := Without<Node>(L(i).Nodes, e);
      if a < |rest| - 1 {
        WithoutLength<Node>(L(i).Nodes, e);
        var c, d := WithoutAt<Node>(L(i).Nodes, e, a, |rest| - 1);
        RecentAt(i, c, d);
      }
    }

    /** The rest of the list is still in order of last use. */
    lemma RestRecent(key: nat, a: nat)
      requires Valid() && a < |Rest(key)|
      ensures LastUse(Rest(key)[|Rest(key)| - 1]) <= LastUse(Rest(key)[a])
    {
      var i, last := Home(key), |Rest(key)| - 1;
      RecentOf(i);
      hide ShardOk, SideOk, Paired, Without, LastUse, Recent;
      if key in S(i).items && S(i).items[key].lruListElem in L(i).Nodes {
        WithoutRecent(i, S(i).items[key].lruListElem, a);
      } else if a < last {
        RecentAt(i, a, last);
      }
    }

    /** The refresher stores a new payload in a resident in place: neither the counter nor the list
        notices, so the weight change is drift. */
    method Repay(x: Entry, payload: Payload, now: int)
      requires Valid() && Resident(x)
      modifies x`payload, x`refreshedAt, this`drift
      ensures Valid() && x.payload == Some(payload)
      ensures forall k: nat {:trigger View(k)} :: k != x.key ==> View(k) == old(View(k))
      ensures drift == old(drift)[x.shard := old(drift)[x.shard] + x.Weight() - old(x.Weight())]
    {
      NodeOf(x);
      KeyOf(x);
      ghost var before := x.Weight();
      x.payload := Some(payload);
      x.refreshedAt := now;
      drift := drift[x.shard := drift[x.shard] + x.Weight() - before];
      RepaidOk(x);
      ViewsKept(x);
      SidesKept();
    }

    /** The list of `x`'s shard has the same nodes, and each is as it was. */
    twostate predicate SameList(i: nat)
      requires i < N() && |balancer.shards| == N()
      reads *
    {
      && unchanged(S(i)) && unchanged(L(i)) && unchanged(L(i).root)
      && forall e {:trigger e in L(i).Nodes} :: e in L(i).Nodes ==> unchanged(e)
    }

    twostate lemma RepaidRecent(x: Entry)
      requires Wired() && x.shard < N() && old(Recent(x.shard)) && SameList(x.shard) && OthersUntouched(x)
      requires x.lastUse == old(x.lastUse) && clock == old(clock)
      ensures Recent(x.shard)
    {
      var nodes := L(x.shard).Nodes;
      forall a {:trigger nodes[a]} | 0 <= a < |nodes| ensures LastUse(nodes[a]) == old(LastUse(nodes[a])) {
        assert nodes[a] in nodes;
      }
    }

    twostate lemma RepaidPaired(x: Entry)
      requires Wired() && x.shard < N() && old(Paired(x.shard)) && SameList(x.shard) && OthersUntouched(x)
      requires x.lruListElem == old(x.lruListElem)
      ensures Paired(x.shard)
    {
    }

    twostate lemma RepaidList(i: nat)
      requires i < N() && |balancer.shards| == N() && old(L(i).Valid()) && SameList(i)
      ensures L(i).Valid()
    {
      var nodes := L(i).Nodes;
      assert forall a {:trigger nodes[a]} :: 0 <= a < |nodes| ==> nodes[a] in nodes;
    }

    twostate lemma RepaidAccounted(x: Entry)
      requires Wired() && x.shard < N() && |old(drift)| == |drift| == N()
      requires old(Accounted(x.shard)) && SameList(x.shard) && OthersUntouched(x) && Distinct(L(x.shard).Nodes)
      requires old(x.lruListElem != null && x.lruListElem in L(x.shard).Nodes && x.lruListElem.value == Some(x))
      requires forall e {:trigger e in L(x.shard).Nodes} :: e in L(x.shard).Nodes && e.value == Some(x) ==>
        e == x.lruListElem
      requires x.lruListElem == old(x.lruListElem)
      requires old(Weights(L(x.shard).Nodes))
         == old(Weights(Without<Node>(L(x.shard).Nodes, x.lruListElem)) + x.Weight())
      requires drift[x.shard] == old(drift[x.shard]) + x.Weight() - old(x.Weight())
      ensures Accounted(x.shard)
    {
      var nodes := L(x.shard).Nodes;
      WeightsWithout(nodes, x.lruListElem);
      WithoutElements<Node>(nodes, x.lruListElem);
      assert Weights(Without<Node>(nodes, x.lruListElem))
        == old(Weights(Without<Node>(L(x.shard).Nodes, x.lruListElem)));
    }

    twostate lemma RepaidOk(x: Entry)
      requires old(Indexed()) && old(Resident(x)) && |drift| == N() && clock == old(clock)
      requires forall y: Entry {:trigger old(Resident(y))} :: old(allocated(y)) && old(Resident(y)) && y != x ==>
        Untouched(y)
      requires x.lruListElem == old(x.lruListElem) && x.lastUse == old(x.lastUse)
      requires old(x.lruListElem != null && x.lruListElem in L(x.shard).Nodes && x.lruListElem.value == Some(x))
      requires old(Weights(L(x.shard).Nodes))
         == old(Weights(Without<Node>(L(x.shard).Nodes, x.lruListElem)) + x.Weight())
      requires forall o: object {:trigger PartType(o)} ::
        old(allocated(o)) && PartType(o) && !(o is Entry && (o as Entry).shard == x.shard) ==> unchanged(o)
      requires forall j :: 0 <= j < N() && j != x.shard ==> drift[j] == old(drift[j])
      requires drift[x.shard] == old(drift[x.shard]) + x.Weight() - old(x.Weight())
      ensures Indexed()
    {
      var i, ok := x.shard, old(ShardOk(x.shard));
      ResidentsUntouched(x);
      PartsSame(x);
      OwnNode(x);
      hide Recent, Accounted, Weights, OthersUntouched, SameList;
      RepaidList(i);
      RepaidRecent(x);
      RepaidPaired(x);
      RepaidAccounted(x);
      hide Paired;
      assert ShardOk(i);
      StillIndexed(i);
    }

    twostate lemma PartsSame(x: Entry)
      requires old(Indexed()) && x.shard < N()
      requires forall o: object {:trigger PartType(o)} ::
        old(allocated(o)) && PartType(o) && !(o is Entry && (o as Entry).shard == x.shard) ==> unchanged(o)
      ensures SameList(x.shard)
    {
      var i := x.shard;
      assert PartType(S(i)) && PartType(L(i)) && PartType(L(i).root);
      forall e: Node {:trigger e in L(i).Nodes} | e in L(i).Nodes ensures unchanged(e) {
        assert PartType(e);
      }
    }

    /** Only a resident's own node carries it. */
    twostate lemma OwnNode(x: Entry)
      requires old(Indexed()) && old(Resident(x)) && x.lruListElem == old(x.lruListElem) && SameList(x.shard)
      ensures Distinct(L(x.shard).Nodes)
      ensures forall e {:trigger e in L(x.shard).Nodes} :: e in L(x.shard).Nodes && e.value == Some(x) ==>
        e == x.lruListElem
    {
      var ok := old(ShardOk(x.shard));
    }
  }
}
