/** pkg/storage/lru/evictor.go: the loop that evicts from the most loaded shards until memory fits. */
module Evictor {
  import opened Wrappers
  import opened Positions
  import opened RingSort
  import opened RingList
  import opened CacheEntry
  import opened ShardedMap
  import opened Balancer
  import opened Storage
  import opened Drift

  /** What is left of a list after `k` removals by an offset that advances after every removal: of
      the first 2k positions the odd ones, then the rest. */
  ghost function Skimmed<X>(s: seq<X>, k: nat): (t: seq<X>)
    requires 2 * k <= |s| + 1
    ensures |t| == |s| - k && forall x :: x in t ==> x in s
  {
    seq(|s| - k, j requires 0 <= j < |s| - k => s[if j < k then 2 * j + 1 else j + k])
  }

  /** Of the first 2k positions exactly the even ones are gone. */
  lemma SkimmedIs<X>(s: seq<X>, k: nat, i: nat)
    requires 2 * k <= |s| + 1 && Distinct(s) && i < |s|
    ensures s[i] in Skimmed(s, k) <==> i >= 2 * k || i % 2 == 1
  {
    var t := Skimmed(s, k);
    if i >= 2 * k {
      assert t[i - k] == s[i];
    } else if i % 2 == 1 {
      assert t[i / 2] == s[i];
    } else {
      forall j | 0 <= j < |t| ensures t[j] != s[i] {
        assert t[j] == s[if j < k then 2 * j + 1 else j + k];
      }
    }
  }

  /** What is left keeps its order. */
  lemma SkimmedOrder<X>(s: seq<X>, k: nat, a: nat, b: nat) returns (i: nat, j: nat)
    requires 2 * k <= |s| + 1 && a < b < |s| - k
    ensures i < j < |s| && Skimmed(s, k)[a] == s[i] && Skimmed(s, k)[b] == s[j]
  {
    i, j := if a < k then 2 * a + 1 else a + k, if b < k then 2 * b + 1 else b + k;
  }

  /** Removing what stands at offset `k` of the list skimmed `k` times is the next skim. */
  lemma SkimmedStep<X>(s: seq<X>, k: nat, x: X)
    requires 2 * k < |s| && Distinct(s) && x == Skimmed(s, k)[k]
    ensures x in Skimmed(s, k) && Without(Skimmed(s, k), x) == Skimmed(s, k + 1)
  {
    var t := Skimmed(s, k);
    assert t[Position(t, x)] == t[k];
    assert Position(t, x) == k;
  }

  class Evict {
    const db: InMemoryStorage
    /** How many shards from the front of the ranking are visited between two rebalances. */
    const fatShards: nat
    const memoryThreshold: int

    constructor (db: InMemoryStorage, fatShards: nat, memoryThreshold: int)
      ensures this.db == db && this.fatShards == fatShards && this.memoryThreshold == memoryThreshold
    {
      this.db, this.fatShards, this.memoryThreshold := db, fatShards, memoryThreshold;
    }

    method ShouldEvictRightNow(ghost views: imap<nat, Option<Item>>) returns (over: bool)
      requires db.Valid() && db.Thinned(views)
      modifies db.map_`mem
      ensures db.Valid() && over == (db.TotalMem() >= memoryThreshold) && db.Thinned(views)
      ensures forall k: nat {:trigger db.View(k)} :: db.View(k) == old(db.View(k))
      ensures old(Needed(views)) ==> Needed(views)
    {
      var mem := db.RealMem();
      db.StillThinned(views);
      if old(Needed(views)) { StillNeeded(views); }
      over := mem >= memoryThreshold;
    }

    /** With one of the entries gone since `views` back in its place, memory would not fit. */
    ghost predicate Needed(views: imap<nat, Option<Item>>)
      requires db.Wired()
      reads *
    {
      exists k: nat {:trigger db.View(k)} ::
        && k in views && views[k].Some? && db.View(k).None?
        && db.TotalMem() + views[k].value.Weight() >= memoryThreshold
    }

    twostate lemma StillNeeded(views: imap<nat, Option<Item>>)
      requires db.Wired() && old(Needed(views)) && db.TotalMem() == old(db.TotalMem())
      requires forall k: nat {:trigger db.View(k)} :: db.View(k) == old(db.View(k))
      ensures Needed(views)
    {
      var k: nat :| k in views && views[k].Some? && old(db.View(k)).None?
        && old(db.TotalMem()) + views[k].value.Weight() >= memoryThreshold;
      assert db.View(k).None?;
    }

    /** Lookups that do not go to shard `i` find what they found. */
    twostate predicate ElsewhereKept(i: nat)
      requires db.Wired()
      reads *
    {
      forall k: nat {:trigger db.View(k)} :: db.Home(k) != i ==> db.View(k) == old(db.View(k))
    }

    lemma EntryAt(i: nat, el: Node)
      requires db.Valid() && i < db.N() && el in db.L(i).Nodes
      ensures el.value.Some? && db.Resident(el.Value()) && el.Value().shard == i && el.Value().lruListElem == el
    {
      var ok := db.ShardOk(i);
    }

    /** `Remove` with its effect on the totals. */
    method RemoveFrom(entry: Entry, ghost views: imap<nat, Option<Item>>) returns (freed: int, hit: bool)
      requires db.Valid() && db.Resident(entry) && db.Thinned(views)
      modifies db.S(entry.shard), db.L(entry.shard), db.L(entry.shard).root, db.L(entry.shard).Nodes
      ensures db.Valid() && hit && freed == entry.Weight()
      ensures ElsewhereKept(entry.shard)
      ensures old(db.TotalMem()) >= memoryThreshold ==> Needed(views)
      ensures db.TotalMem() == old(db.TotalMem()) - freed && db.TotalLen() == old(db.TotalLen()) - 1
      ensures entry.lruListElem in old(db.L(entry.shard).Nodes)
      ensures db.L(entry.shard).Nodes == Without<Node>(old(db.L(entry.shard).Nodes), entry.lruListElem)
      ensures db.Thinned(views)
    {
      hide InMemoryStorage.Thinned, InMemoryStorage.ShardOk, InMemoryStorage.SideOk;
      hide InMemoryStorage.TotalMem, InMemoryStorage.TotalLen;
      db.KeyOf(entry);
      WasThere(entry, views);
      freed, hit := db.Remove(entry);
      db.StillThinned(views);
      db.TotalsMove(entry.shard);
    }

    lemma WasThere(entry: Entry, views: imap<nat, Option<Item>>)
      requires db.Valid() && db.Resident(entry) && db.Thinned(views)
      ensures entry.key in views
      ensures views[entry.key] == db.View(entry.key) == Some(Item(entry.fingerprint, entry.payload))
    {
      db.KeyOf(entry);
      assert db.View(entry.key).Some?;
    }

    lemma NodesDistinct(i: nat)
      requires db.Valid() && i < db.N()
      ensures Distinct(db.L(i).Nodes)
    {
      db.ListOf(i);
    }

    /** Takes out the entry at `el` and reads the memory again. */
    method Take(ghost i: nat, el: Node, ghost views: imap<nat, Option<Item>>) returns (freed: int, ok: bool, over: bool)
      requires db.Valid() && i < db.N() && el in db.L(i).Nodes && db.Thinned(views)
      modifies db.S(i), db.L(i), db.L(i).root, db.L(i).Nodes, db.map_`mem
      ensures db.Valid() && ok && over == (db.TotalMem() >= memoryThreshold) && db.Thinned(views)
      ensures el in old(db.L(i).Nodes) && db.L(i).Nodes == Without<Node>(old(db.L(i).Nodes), el)
      ensures db.TotalMem() == old(db.TotalMem()) - freed && db.TotalLen() == old(db.TotalLen()) - 1
      ensures el.value.Some? && el.value.value.Weight() == freed && ElsewhereKept(i)
      ensures old(db.TotalMem()) >= memoryThreshold ==> Needed(views)
    {
      EntryAt(i, el);
      hide Needed, Without, Entry.Weight;
      hide InMemoryStorage.Thinned, InMemoryStorage.ShardOk, InMemoryStorage.SideOk;
      hide InMemoryStorage.TotalMem, InMemoryStorage.TotalLen;
      freed, ok := RemoveFrom(el.Value(), views);
      over := ShouldEvictRightNow(views);
    }

    /** The last of `items` entries skimmed off `was` was needed: with its weight memory would not fit. */
    ghost predicate LastNeeded(was: seq<Node>, items: nat, views: imap<nat, Option<Item>>)
      requires db.Wired()
      reads *
    {
      && 0 < 2 * items <= |was| + 1 && was[2 * items - 2].value.Some?
      && db.TotalMem() + was[2 * items - 2].value.value.Weight() >= memoryThreshold
      && Needed(views)
    }

    /** Takes out the next entry to skim. */
    method Skim(offset: nat, el: Node, ghost i: nat, ghost was: seq<Node>, ghost views: imap<nat, Option<Item>>)
      returns (freed: int, ok: bool, over: bool)
      requires db.Valid() && i < db.N() && db.TotalMem() >= memoryThreshold && db.Thinned(views)
      requires 2 * offset < |was| && Distinct(was) && db.L(i).Nodes == Skimmed(was, offset)
      requires el == Skimmed(was, offset)[offset]
      modifies db.S(i), db.L(i), db.L(i).root, was, db.map_`mem
      ensures db.Valid() && ok && over == (db.TotalMem() >= memoryThreshold) && db.Thinned(views)
      ensures db.L(i).Nodes == Skimmed(was, offset + 1)
      ensures db.TotalMem() == old(db.TotalMem()) - freed && db.TotalLen() == old(db.TotalLen()) - 1
      ensures ElsewhereKept(i) && LastNeeded(was, offset + 1, views)
    {
      SkimmedStep<Node>(was, offset, el);
      assert el == was[2 * offset];
      hide Needed, Skimmed, Distinct, Without, InMemoryStorage.Thinned, InMemoryStorage.ShardOk, InMemoryStorage.SideOk;
      hide InMemoryStorage.TotalMem, InMemoryStorage.TotalLen;
      freed, ok, over := Take(i, el, views);
    }

    /** One step of a pass: takes out the entry at `offset`, when the list reaches that far, and reads
        the memory again. */
    method EvictAt(shard: ShardNode, offset: nat, ghost i: nat, ghost was: seq<Node>,
                   ghost views: imap<nat, Option<Item>>)
      returns (freed: int, ok: bool, over: bool)
      requires db.Valid() && i < db.N() && shard == db.balancer.shards[i]
      requires db.TotalMem() >= memoryThreshold && db.Thinned(views)
      requires 2 * offset <= |was| + 1 && Distinct(was) && db.L(i).Nodes == Skimmed(was, offset)
      modifies db.S(i), db.L(i), db.L(i).root, was, db.map_`mem
      ensures db.Valid() && over == (db.TotalMem() >= memoryThreshold) && db.Thinned(views)
      ensures ok == (2 * offset < |was|) && (!ok ==> freed == 0)
      ensures 2 * offset + (if ok then 2 else 0) <= |was| + 1
      ensures db.L(i).Nodes == Skimmed(was, if ok then offset + 1 else offset)
      ensures db.TotalMem() == old(db.TotalMem()) - freed
      ensures db.TotalLen() == old(db.TotalLen()) - if ok then 1 else 0
      ensures ElsewhereKept(i)
      ensures if ok then LastNeeded(was, offset + 1, views)
              else offset > 0 && old(LastNeeded(was, offset, views)) ==> LastNeeded(was, offset, views)
    {
      db.ListOf(i);
      var el, found := shard.lruList.Next(offset);
      if !found {
        if offset > 0 && old(LastNeeded(was, offset, views)) { StillNeeded(views); }
        return 0, false, true;
      }
      assert Skimmed<Node>(was, offset)[offset] == el;
      hide Skimmed, Distinct, LastNeeded, Needed;
      freed, ok, over := Skim(offset, el, i, was, views);
    }

    /** The variables of a pass over shard `i`, whose list was `was` and whose totals were `len0` and
        `mem0`. */
    ghost predicate Progress(i: nat, was: seq<Node>, views: imap<nat, Option<Item>>, len0: int, mem0: int,
                             offset: int, items: int, mem: int, over: bool)
      reads *
    {
      && db.Valid() && i < db.N() && Distinct(was) && db.Thinned(views)
      && over == (db.TotalMem() >= memoryThreshold)
      && 0 <= offset == items && 2 * items <= |was| + 1 && db.L(i).Nodes == Skimmed(was, items)
      && items == len0 - db.TotalLen() && mem == mem0 - db.TotalMem()
      && (mem0 < memoryThreshold ==> items == 0) && (items == 0 ==> mem == 0)
      && (items > 0 ==> LastNeeded(was, items, views))
    }

    method Advance(shard: ShardNode, ghost i: nat, ghost was: seq<Node>, ghost views: imap<nat, Option<Item>>,
                   ghost len0: int, ghost mem0: int, offset: int, items: int, mem: int)
      returns (offset': int, items': int, mem': int, over: bool, ok: bool)
      requires Progress(i, was, views, len0, mem0, offset, items, mem, true) && shard == db.balancer.shards[i]
      modifies db.S(i), db.L(i), db.L(i).root, was, db.map_`mem
      ensures i >= db.N() || Progress(i, was, views, len0, mem0, offset', items', mem', over)
      ensures ok == (2 * items < |was|) && items' == if ok then items + 1 else items
      ensures !ok ==> over
      ensures ElsewhereKept(i)
    {
      hide LastNeeded, Skimmed, Needed;
      var freedMem;
      freedMem, ok, over := EvictAt(shard, offset, i, was, views);
      offset', items', mem' := offset, items, mem;
      if ok {
        offset', items', mem' := offset + 1, items + 1, mem + freedMem;
      }
    }

    /** What a pass over shard `i`, whose list was `was`, does: every other entry of it is gone, up to the
        first after which memory fits; the last one taken was needed; lookups that do not go to that
        shard find what they found, which was `views`. */
    ghost predicate Visited(i: nat, was: seq<Node>, views: imap<nat, Option<Item>>, items: nat)
      requires db.Wired() && i < db.N()
      reads *
    {
      && 2 * items <= |was| + 1 && db.L(i).Nodes == Skimmed(was, items)
      && (db.TotalMem() >= memoryThreshold ==> 2 * items >= |was|)
      && (items > 0 ==>
            was[2 * items - 2].value.Some?
            && db.TotalMem() + was[2 * items - 2].value.value.Weight() >= memoryThreshold)
      && forall k: nat {:trigger db.View(k)} :: db.Home(k) != i ==> k in views && db.View(k) == views[k]
    }

    /** One pass over a shard. It removes every other entry from the front until the list ends or
        memory fits. */
    method EvictPass(shard: ShardNode, ghost i: nat, ghost views: imap<nat, Option<Item>>)
      returns (items: int, mem: int, over: bool)
      requires db.Valid() && db.Thinned(views) && i < db.N() && shard == db.balancer.shards[i]
      modifies db.S(i), db.L(i), db.L(i).root, db.L(i).Nodes, db.map_`mem
      ensures i >= db.N() || Progress(i, old(db.L(i).Nodes), views, old(db.TotalLen()), old(db.TotalMem()),
        items, items, mem, over)
      ensures !over || 2 * items >= old(|db.L(i).Nodes|)
      ensures Visited(i, old(db.L(i).Nodes), old(db.Views()), items)
      ensures forall e :: e in db.L(i).Nodes ==> e in old(db.L(i).Nodes)
      ensures items > 0 ==> Needed(views)
    {
      var offset, ok := 0, true;
      items, mem := 0, 0;
      ghost var was, len0, mem0 := db.L(i).Nodes, db.TotalLen(), db.TotalMem();
      NodesDistinct(i);
      hide InMemoryStorage.Thinned;
      over := ShouldEvictRightNow(views);
      while over && ok
        invariant i >= db.N() || Progress(i, was, views, len0, mem0, offset, items, mem, over)
        invariant ok || 2 * items >= |was|
        invariant forall k: nat {:trigger db.View(k)} :: db.Home(k) != i ==> db.View(k) == old(db.View(k))
        decreases |was| - items, if ok then 1 else 0
        modifies db.S(i), db.L(i), db.L(i).root, was, db.map_`mem
      {
        offset, items, mem, over, ok := Advance(shard, i, was, views, len0, mem0, offset, items, mem);
      }
    }

    /** No shard's counter exceeds the weight of its residents. */
    ghost predicate NoPhantoms()
      requires |db.drift| == db.N()
      reads db
    {
      forall i {:trigger db.drift[i]} :: 0 <= i < db.N() ==> db.drift[i] >= 0
    }

    /** Phantom memory alone cannot hold the threshold: not even when it stands in the fat shards and every
        other shard shows as much as the least of them. */
    ghost predicate Evictable()
      requires |db.drift| == db.N() > 0 && fatShards > 0
      reads db
    {
      Bound(db.drift, fatShards) < memoryThreshold
    }

    /** Exact counters are the simplest case. */
    lemma NoPhantomsEvictable()
      requires |db.drift| == db.N() > 0 && NoPhantoms() && fatShards > 0 && memoryThreshold > 0
      ensures Evictable()
    {
      BoundOfNoExcess(db.drift, fatShards);
    }

    /** With every shard a fat one the condition fails exactly in the case of `StuckAboveLimit`. */
    lemma EvictableIff()
      requires 0 < |db.drift| == db.N() <= fatShards
      ensures Evictable() <==> memoryThreshold + Sum(db.drift) > 0
    {
      BoundOfAllFat(db.drift, fatShards);
    }

    /** `scope` holds shard `i`, its list and its nodes. */
    ghost predicate Inside(i: nat, scope: set<object>)
      requires i < db.N() && db.N() == |db.balancer.shards|
      reads db.L(i)
    {
      db.S(i) in scope && db.L(i) in scope && db.L(i).root in scope
      && forall a {:trigger db.L(i).Nodes[a]} :: 0 <= a < |db.L(i).Nodes| ==> db.L(i).Nodes[a] in scope
    }

    /** `scope` holds every object an eviction may change. */
    ghost predicate Scoped(scope: set<object>)
      requires db.N() == |db.balancer.shards|
      reads db.balancer.memList, set i | 0 <= i < db.N() :: db.L(i)
    {
      && db.map_ in scope && db.balancer.memList in scope && db.balancer.memList.root in scope
      && (forall e :: e in db.balancer.memList.Nodes ==> e in scope)
      && forall i: nat {:trigger Inside(i, scope)} :: i >= db.N() || Inside(i, scope)
    }

    /** All of it. */
    ghost function Everything(): set<object>
      requires db.N() == |db.balancer.shards|
      reads db.balancer.memList, set i | 0 <= i < db.N() :: db.L(i)
    {
      {db.map_, db.balancer.memList, db.balancer.memList.root}
      + (set e | e in db.balancer.memList.Nodes) + (set i, o | 0 <= i < db.N() && o in db.Parts(i) :: o)
    }

    lemma EverythingScoped()
      requires db.N() == |db.balancer.shards|
      ensures Scoped(Everything())
    {
      forall i: nat | i < db.N() ensures Inside(i, Everything()) {
        assert forall o {:trigger o in db.Parts(i)} :: o in db.Parts(i) ==> o in Everything();
        assert db.S(i) in db.Parts(i) && db.L(i) in db.Parts(i) && db.L(i).root in db.Parts(i);
        assert forall a {:trigger db.L(i).Nodes[a]} :: 0 <= a < |db.L(i).Nodes| ==> db.L(i).Nodes[a] in db.Parts(i);
      }
    }

    /** The ranking becomes its own sort; nothing any shard is made of moves. */
    method Rank()
      requires db.Valid()
      modifies db.balancer.memList, db.balancer.memList.root, db.balancer.memList.Nodes
      ensures db.Valid()
      ensures db.balancer.memList.Nodes
           == Sorted<Element<ShardNode>>(old(db.balancer.memList.Nodes), db.balancer.ByMem(Mems(db.map_.shards)), DESC)
      ensures forall k: nat {:trigger db.View(k)} :: db.View(k) == old(db.View(k))
      ensures db.TotalMem() == old(db.TotalMem()) && db.TotalLen() == old(db.TotalLen())
    {
      assert db.SideOk(Ranking);
      hide Sorted;
      db.balancer.Rebalance(db.map_);
      db.NothingMoved();
      db.RankingOnly();
    }

    /** The ranking is in order; one that was in order already stays as it is. */
    method RankInOrder()
      requires db.Valid()
      modifies db.balancer.memList, db.balancer.memList.root, db.balancer.memList.Nodes
      ensures db.Valid() && Swept(0)
      ensures db.balancer.memList.Nodes
           == Sorted<Element<ShardNode>>(old(db.balancer.memList.Nodes), db.balancer.ByMem(Mems(db.map_.shards)), DESC)
      ensures old(Swept(0)) ==> db.balancer.memList.Nodes == old(db.balancer.memList.Nodes)
      ensures forall e: Element<ShardNode> :: e in db.balancer.memList.Nodes ==> e in old(db.balancer.memList.Nodes)
      ensures forall k: nat {:trigger db.View(k)} :: db.View(k) == old(db.View(k))
      ensures db.TotalMem() == old(db.TotalMem()) && db.TotalLen() == old(db.TotalLen())
    {
      hide Swept, Sorted, InMemoryStorage.ShardOk, InMemoryStorage.SideOk, InMemoryStorage.TotalMem,
        InMemoryStorage.TotalLen;
      ghost var was := db.balancer.memList.Nodes;
      if Swept(0) { SortedAlready(); }
      Rank();
      SortedInOrder(was);
    }

    lemma SortedInOrder(was: seq<Element<ShardNode>>)
      requires db.Valid()
      requires db.balancer.memList.Nodes
          == Sorted<Element<ShardNode>>(was, db.balancer.ByMem(Mems(db.map_.shards)), DESC)
      ensures Swept(0)
      ensures forall e: Element<ShardNode> :: e in db.balancer.memList.Nodes ==> e in was
    {
      var weight := db.balancer.ByMem(Mems(db.map_.shards));
      SortedMembers(was, weight, DESC);
      SortedIsOrdered<Element<ShardNode>>(was, weight, DESC);
      hide Swept, Sorted;
      RankedAnew();
    }

    method Rebalance(ghost scope: set<object>)
      requires db.Valid() && Scoped(scope)
      modifies db.balancer.memList, db.balancer.memList.root, db.balancer.memList.Nodes
      ensures db.Valid() && Swept(0)
      ensures db.balancer.memList.Nodes
           == Sorted<Element<ShardNode>>(old(db.balancer.memList.Nodes), db.balancer.ByMem(Mems(db.map_.shards)), DESC)
      ensures db.TotalMem() == old(db.TotalMem()) && db.TotalLen() == old(db.TotalLen())
      ensures Scoped(scope)
      ensures forall k: nat {:trigger db.View(k)} :: db.View(k) == old(db.View(k))
      ensures old(Swept(fatShards)) ==> Swept(fatShards)
    {
      hide Swept, Sorted;
      hide InMemoryStorage.ShardOk, InMemoryStorage.SideOk, InMemoryStorage.TotalMem, InMemoryStorage.TotalLen;
      RankInOrder();
      StillInside(scope);
      if old(Swept(fatShards)) {
        SweptInOrder(fatShards);
        RanksKept();
      }
    }

    /** The ranking has the same nodes, and no list changed. */
    twostate lemma StillInside(scope: set<object>)
      requires db.N() == |db.balancer.shards| && old(Scoped(scope))
      requires forall e: Element<ShardNode> :: e in db.balancer.memList.Nodes ==> e in old(db.balancer.memList.Nodes)
      requires forall j: nat {:trigger db.L(j)} :: j < db.N() ==> unchanged(db.L(j))
      ensures Scoped(scope)
    {
      forall j: nat | j < db.N() ensures Inside(j, scope) {
        assert old(Inside(j, scope)) && unchanged(db.L(j));
      }
    }

    twostate lemma SweptInOrder(k: nat)
      requires old(db.Valid()) && old(Swept(k))
      ensures old(Swept(0))
    {
    }

    /** The ranking is the same, and no shard's counter or list changed. */
    twostate lemma RanksKept()
      requires old(db.Valid()) && db.Valid() && db.balancer.memList.Nodes == old(db.balancer.memList.Nodes)
      requires unchanged(db.map_.shards)
      requires forall j: nat {:trigger db.L(j)} :: j < db.N() ==> unchanged(db.L(j))
      ensures forall k: nat {:trigger Swept(k)} {:trigger old(Swept(k))} :: old(Swept(k)) ==> Swept(k)
    {
      forall a: nat | a < db.N() ensures RankedShard(a).mem == old(RankedShard(a).mem)
        && RankedNodes(a) == old(RankedNodes(a)) {
        var i := RankedIndex(a);
        assert unchanged(db.L(i));
      }
    }

    ghost function RankedShard(offset: nat): Shard
      requires db.Valid() && offset < db.N()
      reads *
    {
      assert db.SideOk(Ranking);
      db.balancer.memList.Nodes[offset].Value().shard
    }

    /** The list of the shard at `offset` of the ranking. */
    ghost function RankedNodes(offset: nat): seq<Node>
      requires db.Valid() && offset < db.N()
      reads *
    {
      assert db.SideOk(Ranking);
      db.balancer.memList.Nodes[offset].Value().lruList.Nodes
    }

    method MostLoaded(offset: nat) returns (shard: ShardNode?, found: bool, ghost i: nat)
      requires db.Valid()
      ensures found == (offset < db.N()) && found == (shard != null)
      ensures found ==> i == RankedIndex(offset) && i < db.N() && shard == db.balancer.shards[i]
      ensures found ==> shard.lruList.len == |db.L(i).Nodes|
    {
      assert db.SideOk(Ranking);
      shard, found := db.balancer.MostLoaded(offset);
      i := 0;
      if found {
        i := RankedIndex(offset);
        db.ListOf(i);
      }
    }

    /** The shard at `offset` of the ranking, as an index. */
    ghost function RankedIndex(offset: nat): (i: nat)
      requires db.Valid() && offset < db.N()
      reads *
      ensures i < db.N() && RankedShard(offset) == db.map_.shards[i] && RankedNodes(offset) == db.L(i).Nodes
      ensures |db.balancer.memList.Nodes| == db.N() == |db.balancer.shards|
      ensures db.balancer.memList.Nodes[offset].value == Some(db.balancer.shards[i])
    {
      assert db.SideOk(Ranking);
      var node := db.balancer.memList.Nodes[offset].Value();
      var i :| 0 <= i < |db.balancer.shards| && db.balancer.shards[i] == node;
      i
    }

    /** The ranking is in descending order of memory and its first `k` shards have no entries. */
    ghost predicate Swept(k: nat)
      requires db.Valid()
      reads *
    {
      && (forall a, b {:trigger RankedShard(a), RankedShard(b)} :: 0 <= a < b < db.N() ==>
            RankedShard(a).mem >= RankedShard(b).mem)
      && (forall a {:trigger RankedNodes(a)} :: 0 <= a < k && a < db.N() ==> RankedNodes(a) == [])
    }

    /** A ranking in order is sorted to itself. */
    lemma SortedAlready()
      requires db.Valid() && Swept(0)
      ensures var nodes, weight := db.balancer.memList.Nodes, db.balancer.ByMem(Mems(db.map_.shards));
        Sorted<Element<ShardNode>>(nodes, weight, DESC) == nodes
    {
      var nodes, weight := db.balancer.memList.Nodes, db.balancer.ByMem(Mems(db.map_.shards));
      assert db.SideOk(Ranking);
      forall a: nat, b: nat | a < b < |nodes| ensures Below(DESC, weight(nodes[a]), weight(nodes[b])) {
        RankedWeight(a);
        RankedWeight(b);
        assert RankedShard(a).mem >= RankedShard(b).mem;
      }
      assert Ordered<Element<ShardNode>>(nodes, weight, DESC);
      SortedCharacterised<Element<ShardNode>>(nodes, nodes, weight, DESC);
    }

    lemma RankedAnew()
      requires db.Valid()
      requires Ordered(db.balancer.memList.Nodes, db.balancer.ByMem(Mems(db.map_.shards)), DESC)
      ensures Swept(0)
    {
      var nodes, weight := db.balancer.memList.Nodes, db.balancer.ByMem(Mems(db.map_.shards));
      forall a: nat, b: nat | a < b < db.N() ensures RankedShard(a).mem >= RankedShard(b).mem {
        RankedWeight(a);
        RankedWeight(b);
        assert Below(DESC, weight(nodes[a]), weight(nodes[b]));
      }
    }

    lemma RankedWeight(a: nat)
      requires db.Valid() && a < db.N()
      ensures a < |db.balancer.memList.Nodes|
      ensures db.balancer.ByMem(Mems(db.map_.shards))(db.balancer.memList.Nodes[a]) == RankedShard(a).mem
    {
      assert db.SideOk(Ranking);
      var i := RankedIndex(a);
      assert db.map_.shards[i].id == i;
    }

    /** Every shard has a rank, and two ranks are two shards. */
    lemma RankOf(i: nat) returns (a: nat)
      requires db.Valid() && i < db.N()
      ensures a < db.N() && RankedIndex(a) == i
    {
      assert db.SideOk(Ranking);
      var e := db.balancer.shards[i].memListElem;
      a :| 0 <= a < |db.balancer.memList.Nodes| && db.balancer.memList.Nodes[a] == e;
      SameIndex(RankedIndex(a), i);
    }

    lemma SameIndex(i: nat, j: nat)
      requires db.Valid() && i < db.N() && j < db.N() && db.balancer.shards[i] == db.balancer.shards[j]
      ensures i == j
    {
      assert db.map_.shards[i].id == i && db.map_.shards[j].id == j;
    }

    lemma RanksDiffer(a: nat, b: nat)
      requires db.Valid() && a < b < db.N()
      ensures RankedIndex(a) != RankedIndex(b)
    {
      assert db.SideOk(Ranking);
      var nodes := db.balancer.memList.Nodes;
      assert nodes[a] in nodes && nodes[b] in nodes;
      assert nodes[a].Value().memListElem == nodes[a] && nodes[b].Value().memListElem == nodes[b];
      assert db.balancer.memList.Valid();
    }

    /** An empty shard counts exactly its negative drift. */
    lemma EmptyCounts(a: nat)
      requires db.Valid() && a < db.N() && RankedNodes(a) == []
      ensures RankedShard(a).mem == -db.drift[RankedIndex(a)]
    {
      var ok := db.ShardOk(RankedIndex(a));
    }

    /** An empty shard counts its excess, any other at least an entry more. */
    lemma Counts(i: nat)
      requires db.Valid() && i < db.N()
      ensures db.map_.shards[i].mem == -db.drift[i] || db.map_.shards[i].mem >= -db.drift[i] + ENTRY_SIZE
    {
      var ok := db.ShardOk(i);
      WeightsApart(db.L(i).Nodes);
    }

    /** When the fat ranks are all empty, no shard counts more than the fullest storage does. */
    lemma SweptCounts(i: nat)
      requires db.Valid() && i < db.N() && Swept(fatShards) && fatShards > 0
      ensures db.map_.shards[i].mem <= Raised(-db.drift[i], Level(db.drift, fatShards))
    {
      var a := RankOf(i);
      if a < fatShards {
        EmptyCounts(a);
      } else {
        var b := LowRank(Level(db.drift, fatShards));
        EmptyCounts(b);
        Counts(i);
        assert RankedShard(b).mem >= RankedShard(a).mem;
      }
    }

    /** Among the fat ranks one is not above the level. */
    lemma LowRank(c: int) returns (b: nat)
      requires db.Valid() && 0 < fatShards < db.N() && c == Level(db.drift, fatShards)
      ensures b < fatShards && -db.drift[RankedIndex(b)] <= c
    {
      LevelIff(db.drift, fatShards, c);
      OverCount(db.drift, c);
      if forall a: nat {:trigger RankedIndex(a)} :: a < fatShards ==> -db.drift[RankedIndex(a)] > c {
        ManyOver(fatShards, c);
        assert false;
      }
      b :| b < fatShards && -db.drift[RankedIndex(b)] <= c;
    }

    lemma {:induction false} ManyOver(n: nat, c: int)
      requires db.Valid() && n <= db.N()
      requires forall a: nat {:trigger RankedIndex(a)} :: a < n ==> -db.drift[RankedIndex(a)] > c
      ensures n <= |FirstIndices(n)| && FirstIndices(n) <= Over(db.drift, c)
      ensures n <= |Over(db.drift, c)|
    {
      if n > 0 {
        ManyOver(n - 1, c);
        forall a: nat | a < n - 1 ensures RankedIndex(a) != RankedIndex(n - 1) {
          RanksDiffer(a, n - 1);
        }
        assert FirstIndices(n) == FirstIndices(n - 1) + {RankedIndex(n - 1)};
      } else {
        assert FirstIndices(0) == {};
      }
      SubsetSize(FirstIndices(n), Over(db.drift, c));
    }

    ghost function FirstIndices(n: nat): set<nat>
      requires db.Valid() && n <= db.N()
      reads *
    {
      set c: nat | c < n :: RankedIndex(c)
    }

    /** With the fat ranks all empty, memory is at most the bound. */
    lemma SweptBelowBound()
      requires db.Valid() && fatShards > 0 && Swept(fatShards)
      ensures db.TotalMem() <= Bound(db.drift, fatShards)
    {
      var mems := Mems(db.map_.shards);
      forall i | 0 <= i < db.N() ensures mems[i] <= Fullest(db.drift, fatShards)[i] {
        SweptCounts(i);
      }
      SumAtMost(mems, Fullest(db.drift, fatShards));
    }

    /** Once the ranking is in order no shard counts more than its front. */
    lemma FrontHeaviest(i: nat)
      requires db.Valid() && i < db.N() && Swept(0)
      ensures RankedShard(0).mem >= db.map_.shards[i].mem
    {
      var a := RankOf(i);
      if a > 0 { assert RankedShard(0).mem >= RankedShard(a).mem; }
    }

    lemma Heaviest()
      requires db.Valid() && Swept(0)
      ensures var front := RankedIndex(0);
        forall j: nat {:trigger db.S(j)} :: j < db.N() ==> db.S(front).mem >= db.S(j).mem
    {
      forall j: nat | j < db.N() ensures db.S(RankedIndex(0)).mem >= db.S(j).mem {
        FrontHeaviest(j);
      }
    }

    /** After a rebalance without phantoms already the front shard has entries. */
    lemma FrontHasEntries()
      requires db.Valid() && NoPhantoms() && db.TotalMem() > 0 && Swept(0)
      ensures RankedNodes(0) != []
    {
      var j := PositiveSummand(Mems(db.map_.shards));
      FrontHeaviest(j);
      if RankedNodes(0) == [] { EmptyCounts(0); }
    }

    /** When payload updates shrank residents by the threshold or more, memory is above the threshold
        in every state of the storage with that drift. Removing and rebalancing leave the drift
        alone, so the loop cannot end. */
    lemma StuckAboveLimit()
      requires db.Valid() && memoryThreshold + Sum(db.drift) <= 0
      ensures db.TotalMem() >= memoryThreshold
    {
      forall i | 0 <= i < db.N() ensures Mems(db.map_.shards)[i] + db.drift[i] >= 0 {
        var ok := db.ShardOk(i);
        WeightsNatural(db.L(i).Nodes);
      }
      SumOfPairs(Mems(db.map_.shards), db.drift);
    }

    /** The state between two rounds. Rounds carry it as a single fact. When `swept`, the ranks up to
        `shardOffset` were visited since the last rebalance and are empty. */
    ghost predicate Ready(scope: set<object>, views: imap<nat, Option<Item>>, shardOffset: nat, swept: bool)
      reads *
    {
      db.Valid() && Scoped(scope) && db.Thinned(views) && (swept ==> Swept(shardOffset + 1))
    }

    /** Over the limit with all fat ranks empty. */
    ghost predicate Stuck()
      reads *
    {
      db.Valid() && Swept(fatShards) && db.TotalMem() >= memoryThreshold
    }

    twostate lemma StillScoped(scope: set<object>)
      requires db.N() == |db.balancer.shards| && old(Scoped(scope)) && unchanged(db.balancer.memList)
      requires forall j: nat {:trigger db.L(j)} :: j < db.N() ==> unchanged(db.L(j))
      ensures Scoped(scope)
    {
      forall j: nat | j < db.N() ensures Inside(j, scope) {
        assert old(Inside(j, scope)) && unchanged(db.L(j));
      }
    }

    /** A pass over a shard that has entries takes out at least one. */
    method PassOver(shard: ShardNode, ghost i: nat, ghost scope: set<object>, ghost views: imap<nat, Option<Item>>)
      returns (items: nat, mem: int, over: bool)
      requires db.Valid() && Scoped(scope) && db.Thinned(views) && db.TotalMem() >= memoryThreshold
      requires i < db.N() && shard == db.balancer.shards[i] && db.L(i).Nodes != []
      modifies scope - {db}
      ensures db.Valid() && Scoped(scope) && db.Thinned(views)
      ensures over == (db.TotalMem() >= memoryThreshold) && items > 0
      ensures items == old(db.TotalLen()) - db.TotalLen() && mem == old(db.TotalMem()) - db.TotalMem()
      ensures Visited(i, old(db.L(i).Nodes), old(db.Views()), items) && Needed(views) && unchanged(db.balancer.memList)
    {
      hide Skimmed, Needed, LastNeeded, Visited, InMemoryStorage.Thinned;
      assert Inside(i, scope);
      var taken;
      taken, mem, over := EvictPass(shard, i, views);
      items := taken;
      SkimmedInside((i, scope));
    }

    /** What is left of a list was inside the scope before. */
    twostate lemma SkimmedInside(pair: (nat, set<object>))
      requires var (i, scope) := pair;
        && old(db.Valid()) && db.Valid() && i < db.N() && old(Scoped(scope)) && unchanged(db.balancer.memList)
        && (forall e :: e in db.L(i).Nodes ==> e in old(db.L(i).Nodes))
        && forall j: nat {:trigger db.L(j)} :: j < db.N() && j != i ==> unchanged(db.L(j))
      ensures Scoped(pair.1)
    {
      var (i, scope) := pair;
      forall j: nat | j < db.N() ensures Inside(j, scope) {
        assert old(Inside(j, scope));
        assert forall a {:trigger db.L(j).Nodes[a]} :: 0 <= a < |db.L(j).Nodes| ==>
          db.L(j).Nodes[a] in old(db.L(j).Nodes);
      }
    }

    /** The shard at `offset` of the ranking loses every other entry, unless the ranking ends before
        or the shard is empty. */
    method EvictFrom(offset: nat, ghost scope: set<object>, ghost views: imap<nat, Option<Item>>)
      returns (items: nat, mem: int, over: bool)
      requires db.Valid() && Scoped(scope) && db.Thinned(views) && db.TotalMem() >= memoryThreshold
      modifies scope - {db}
      ensures db.Valid() && Scoped(scope) && db.Thinned(views)
      ensures over == (db.TotalMem() >= memoryThreshold) && (!over ==> items > 0)
      ensures items == old(db.TotalLen()) - db.TotalLen() && mem == old(db.TotalMem()) - db.TotalMem()
      ensures items == 0 <==> old(offset >= db.N() || RankedNodes(offset) == [])
      ensures items == 0 ==> mem == 0
      ensures items == 0 && old(Swept(offset)) ==> Swept(offset + 1)
      ensures items == 0 && old(Swept(fatShards)) ==> Swept(fatShards)
      ensures db.balancer.memList.Nodes == old(db.balancer.memList.Nodes)
      ensures offset < db.N() ==> var i := RankedIndex(offset);
        i == old(RankedIndex(offset)) && Visited(i, old(db.L(i).Nodes), old(db.Views()), items)
      ensures items == 0 ==> forall k: nat {:trigger db.View(k)} :: db.View(k) == old(db.View(k))
      ensures items > 0 ==> Needed(views)
    {
      var shard, found;
      ghost var i;
      shard, found, i := MostLoaded(offset);
      StillScoped(scope);
      if !found || shard.lruList.len == 0 {
        return 0, 0, true;
      }
      hide Swept, Needed, Skimmed, InMemoryStorage.Thinned;
      items, mem, over := PassOver(shard, i, scope, views);
      SameIndex(i, RankedIndex(offset));
    }

    /** The next rank to visit; behind the fat ranks it is the front of a new ranking. */
    method NextRank(shardOffset: nat, ghost scope: set<object>, ghost views: imap<nat, Option<Item>>, ghost swept: bool)
      returns (next: nat, ghost empty: bool)
      requires Ready(scope, views, shardOffset, swept) && db.TotalMem() >= memoryThreshold > 0
        && shardOffset < fatShards
      requires NoPhantoms() ==> !swept
      modifies db.balancer.memList, db.balancer.memList.root, db.balancer.memList.Nodes
      ensures db.Valid() && Scoped(scope) && db.Thinned(views)
      ensures next == if shardOffset + 1 >= fatShards then 0 else shardOffset + 1
      ensures db.balancer.memList.Nodes
           == if next > 0 then old(db.balancer.memList.Nodes)
              else Sorted<Element<ShardNode>>(old(db.balancer.memList.Nodes),
                                              db.balancer.ByMem(old(Mems(db.map_.shards))), DESC)
      ensures db.TotalMem() == old(db.TotalMem()) && db.TotalLen() == old(db.TotalLen())
      ensures forall k: nat {:trigger db.View(k)} :: db.View(k) == old(db.View(k))
      ensures forall i: nat {:trigger db.L(i)} :: i < db.N() ==> db.L(i).Nodes == old(db.L(i).Nodes)
      ensures empty == (swept || next == 0) && (empty ==> Swept(next))
      ensures swept && next == 0 ==> old(Stuck())
      ensures old(Stuck()) ==> Swept(fatShards) && (next >= db.N() || RankedNodes(next) == [])
      ensures next == 0 ==> var front := RankedIndex(0);
        forall j: nat {:trigger db.S(j)} :: j < db.N() ==> db.S(front).mem >= db.S(j).mem
      ensures NoPhantoms() && empty ==> next == 0 && RankedNodes(0) != []
    {
      hide Sorted;
      next, empty := shardOffset + 1, swept;
      if next >= fatShards {
        if swept { SweptIsPrefix(next); }
        Rebalance(scope);
        next, empty := 0, true;
        Heaviest();
        if NoPhantoms() { FrontHasEntries(); }
      }
      if Swept(fatShards) { SweptAt(next); }
    }

    /** One round: the shard next in the ranking, which after `fatShards` rounds is the front of a new
        ranking. Once all fat shards of a ranking in order are empty, a round changes nothing any more. */
    method Round(shardOffset: nat, ghost scope: set<object>, ghost views: imap<nat, Option<Item>>, ghost swept: bool)
      returns (next: nat, items: nat, mem: int, over: bool, ghost swept': bool)
      requires Ready(scope, views, shardOffset, swept) && db.TotalMem() >= memoryThreshold > 0
        && shardOffset < fatShards
      requires NoPhantoms() ==> !swept
      modifies scope - {db}
      ensures fatShards == 0 || Ready(scope, views, next, swept')
      ensures over == (db.TotalMem() >= memoryThreshold)
      ensures next == if shardOffset + 1 >= fatShards then 0 else shardOffset + 1
      ensures !over ==> items > 0
      ensures items > 0 ==> !swept'
      ensures items == 0 ==> mem == 0
      ensures items == 0 ==> swept' == (swept || next == 0)
      ensures swept && next == 0 ==> old(Stuck())
      ensures old(Stuck()) ==> items == 0 && Stuck()
      ensures NoPhantoms() ==> !swept'
      ensures items == old(db.TotalLen()) - db.TotalLen() && mem == old(db.TotalMem()) - db.TotalMem()
      ensures db.balancer.memList.Nodes
           == if next > 0 then old(db.balancer.memList.Nodes)
              else Sorted<Element<ShardNode>>(old(db.balancer.memList.Nodes),
                                              db.balancer.ByMem(old(Mems(db.map_.shards))), DESC)
      ensures next < db.N() ==> var i := RankedIndex(next);
        Visited(i, old(db.L(i).Nodes), old(db.Views()), items)
      ensures next == 0 ==> var front := RankedIndex(0);
        forall j: nat {:trigger db.S(j)} :: j < db.N() ==> old(db.S(front).mem) >= old(db.S(j).mem)
      ensures items == 0 ==> forall k: nat {:trigger db.View(k)} :: db.View(k) == old(db.View(k))
      ensures items > 0 ==> Needed(views)
    {
      RankingInside(scope);
      hide Sorted, Needed, Swept, NoPhantoms, Skimmed, Scoped, InMemoryStorage.Thinned;
      ghost var empty;
      next, empty := NextRank(shardOffset, scope, views, swept);
      assert db.Views() == old(db.Views());
      items, mem, over := EvictFrom(next, scope, views);
      swept' := items == 0 && empty;
    }

    lemma RankingInside(scope: set<object>)
      requires db.Wired() && Scoped(scope)
      ensures db.balancer.memList in scope && db.balancer.memList.root in scope
      ensures forall e :: e in db.balancer.memList.Nodes ==> e in scope
    {
    }

    lemma SweptIsPrefix(k: nat)
      requires db.Valid() && Swept(k) && k >= fatShards
      ensures Swept(fatShards)
    {
    }

    lemma SweptAt(offset: nat)
      requires db.Valid() && Swept(fatShards) && offset < fatShards
      ensures offset >= db.N() || RankedNodes(offset) == []
    {
    }

    lemma LenIsNatural()
      requires db.Valid()
      ensures db.TotalLen() >= 0
    {
      forall i | 0 <= i < db.N() ensures Lens(db.map_.shards)[i] >= 0 {
        var ok := db.ShardOk(i);
      }
      SumIsNatural(Lens(db.map_.shards));
    }

    /** How many rounds one eviction can take. */
    ghost function Pace(): nat
      requires |db.drift| == db.N()
      reads db
    {
      if NoPhantoms() then fatShards else fatShards + fatShards
    }

    /** The variables of the loop: `len0` and `mem0` are the totals it started from, `views` what lookups
        found then. */
    ghost predicate Tally(views: imap<nat, Option<Item>>, len0: int, mem0: int, shardOffset: int, items: int, mem: int,
                          over: bool, swept: bool)
      reads *
    {
      && db.Wired() && |db.drift| == db.N()
      && (items > 0 ==> Needed(views))
      && over == (db.TotalMem() >= memoryThreshold)
      && items == len0 - db.TotalLen() && mem == mem0 - db.TotalMem()
      && 0 <= items <= len0 && 0 <= shardOffset < fatShards && (NoPhantoms() ==> !swept)
    }

    /** The rounds so far, as long as the loop is not stuck. */
    ghost predicate Paced(shardOffset: int, items: int, rounds: int, over: bool, swept: bool)
      reads db
    {
      |db.drift| == db.N() && 0 <= items
      && 0 <= rounds <= Budget(Pace(), items) + Waited(fatShards, shardOffset, over, swept)
    }

    /** One round, with the loop's variables moved on. */
    method Turn(ghost scope: set<object>, ghost views: imap<nat, Option<Item>>, ghost len0: int, ghost mem0: int,
                shardOffset: int, items: int, mem: int, ghost rounds: int, ghost swept: bool)
      returns (shardOffset': int, items': int, mem': int, over: bool, ghost swept': bool)
      requires memoryThreshold > 0 && Tally(views, len0, mem0, shardOffset, items, mem, true, swept)
      requires Ready(scope, views, shardOffset, swept)
      modifies scope - {db}
      ensures shardOffset' >= 0 && (fatShards == 0 || Ready(scope, views, shardOffset', swept'))
      ensures fatShards == 0 || Tally(views, len0, mem0, shardOffset', items', mem', over, swept')
      ensures old(Stuck()) ==> items' == items && mem' == mem && over && Stuck()
      ensures old(!Stuck() && Paced(shardOffset, items, rounds, true, swept)) ==>
        Paced(shardOffset', items', rounds + 1, over, swept')
      ensures items' > items || old(Stuck())
        || (items' == items && ((swept' && !swept) || (swept' == swept && shardOffset' > shardOffset)))
      ensures items' <= len0 && shardOffset' < fatShards
    {
      hide Scoped, Swept, Stuck, NoPhantoms, Needed, Visited, Sorted;
      hide InMemoryStorage.Thinned, InMemoryStorage.ShardOk, InMemoryStorage.SideOk;
      hide InMemoryStorage.TotalMem, InMemoryStorage.TotalLen;
      ghost var stuck := Stuck();
      var evicted, freed;
      shardOffset', evicted, freed, over, swept' := Round(shardOffset, scope, views, swept);
      items', mem' := items + evicted, mem + freed;
      if evicted == 0 && items > 0 { StillNeeded(views); }
      LenIsNatural();
      if !stuck && old(Paced(shardOffset, items, rounds, true, swept)) {
        RoundsStep(fatShards, Pace(), rounds, items, evicted, shardOffset, shardOffset', over, swept, swept');
      }
    }

    /** The first look at the memory, before any round. */
    method Begin(ghost scope: set<object>) returns (over: bool, ghost views: imap<nat, Option<Item>>)
      requires db.Valid() && fatShards > 0 && Scoped(scope)
      modifies scope - {db}
      ensures views == old(db.Views())
      ensures fatShards == 0 || Ready(scope, views, 0, false)
      ensures fatShards == 0 || Tally(views, old(db.TotalLen()), old(db.TotalMem()), 0, 0, 0, over, false)
      ensures fatShards == 0 || Paced(0, 0, 0, over, false)
      ensures old(Stuck()) ==> Stuck()
    {
      views := db.Views();
      over := ShouldEvictRightNow(views);
      StillScoped(scope);
      LenIsNatural();
      if old(Stuck()) { StillStuck(); }
    }

    /** More rounds than the loop can take. */
    ghost function MostRounds(len: int): int {
      2 * fatShards * (len + 1)
    }

    /** Evicts until memory fits, rebalancing every `fatShards` rounds. While phantom memory stays below
        its bound, the loop ends below the threshold after at most two rankings per evicted entry, after
        at most one when no counter exceeds the weight of its residents. It reports exactly what it took
        out, and takes out without changing anything else. */
    method EvictUntilWithinLimit(ghost scope: set<object>) returns (items: int, mem: int, ghost rounds: int)
      requires db.Valid() && fatShards > 0 && memoryThreshold > 0 && Evictable() && Scoped(scope)
      modifies scope - {db}
      ensures db.Valid() && db.TotalMem() < memoryThreshold
      ensures items == old(db.TotalLen()) - db.TotalLen() && mem == old(db.TotalMem()) - db.TotalMem()
      ensures forall k: nat {:trigger db.View(k)} :: db.View(k) == old(db.View(k)) || db.View(k).None?
      ensures items > 0 ==> Needed(old(db.Views()))
      ensures rounds <= 2 * fatShards * items
      ensures NoPhantoms() ==> rounds <= fatShards * items
    {
      items, mem, rounds := 0, 0, 0;
      hide Ready, Tally, Paced, Evictable, Needed, Scoped, Swept, NoPhantoms, Stuck;
      var shardOffset := 0;
      ghost var swept, views, len0, mem0 := false, db.Views(), db.TotalLen(), db.TotalMem();
      var over;
      over, views := Begin(scope);
      while over
        invariant shardOffset >= 0 && (fatShards == 0 || Ready(scope, views, shardOffset, swept))
        invariant fatShards == 0 || Tally(views, len0, mem0, shardOffset, items, mem, over, swept)
        invariant fatShards == 0 || Paced(shardOffset, items, rounds, over, swept)
        decreases len0 - items, if swept then 0 else 1, fatShards - shardOffset
        modifies scope - {db}
      {
        NeverStuck(scope, views, shardOffset, swept);
        shardOffset, items, mem, over, swept := Turn(scope, views, len0, mem0, shardOffset, items, mem, rounds, swept);
        rounds := rounds + 1;
      }
      WithinLimit(scope, views, len0, mem0, shardOffset, items, mem, rounds, swept);
    }

    lemma NeverStuck(scope: set<object>, views: imap<nat, Option<Item>>, shardOffset: nat, swept: bool)
      requires Ready(scope, views, shardOffset, swept) && fatShards > 0 && db.N() > 0 && |db.drift| == db.N()
        && Evictable()
      ensures !Stuck()
    {
      if Stuck() { SweptBelowBound(); }
    }

    lemma WithinLimit(scope: set<object>, views: imap<nat, Option<Item>>, len0: int, mem0: int, shardOffset: nat,
                      items: int, mem: int, rounds: int, swept: bool)
      requires Ready(scope, views, shardOffset, swept)
      requires Tally(views, len0, mem0, shardOffset, items, mem, false, swept)
      requires Paced(shardOffset, items, rounds, false, swept)
      ensures db.Valid() && db.Thinned(views) && db.TotalMem() < memoryThreshold && (items > 0 ==> Needed(views))
      ensures items == len0 - db.TotalLen() && mem == mem0 - db.TotalMem()
      ensures rounds <= 2 * fatShards * items && (NoPhantoms() ==> rounds <= fatShards * items)
    {
      BudgetIsProduct(Pace(), items);
    }

    /** The same loop, cut off after `n` rounds, from any state at all. It takes out entries and reports
        them; if so many rounds were not enough as there are two rankings for each entry and one pair more,
        it is stuck, and being stuck once it stays so without taking out anything, however many rounds it
        is given. So the loop ends if and only if it ends within that many rounds. */
    method EvictAtMost(n: nat, ghost scope: set<object>) returns (items: int, mem: int, over: bool)
      requires db.Valid() && fatShards > 0 && memoryThreshold > 0 && Scoped(scope)
      modifies scope - {db}
      ensures db.Valid() && over == (db.TotalMem() >= memoryThreshold)
      ensures items == old(db.TotalLen()) - db.TotalLen() && mem == old(db.TotalMem()) - db.TotalMem()
      ensures forall k: nat {:trigger db.View(k)} :: db.View(k) == old(db.View(k)) || db.View(k).None?
      ensures items > 0 ==> Needed(old(db.Views()))
      ensures over && n >= MostRounds(old(db.TotalLen())) ==> Stuck()
      ensures old(Stuck()) ==> Stuck() && items == 0
    {
      items, mem := 0, 0;
      hide Ready, Tally, Paced, Needed, Scoped, Swept, NoPhantoms, Stuck, MostRounds;
      var shardOffset, rounds := 0, 0;
      ghost var swept, views, stuck0, len0, mem0 := false, db.Views(), Stuck(), db.TotalLen(), db.TotalMem();
      over, views := Begin(scope);
      while over && rounds < n
        invariant shardOffset >= 0 && (fatShards == 0 || Ready(scope, views, shardOffset, swept))
        invariant fatShards == 0 || Tally(views, len0, mem0, shardOffset, items, mem, over, swept)
        invariant 0 <= rounds <= n
        invariant Stuck() || (Paced(shardOffset, items, rounds, over, swept) && !stuck0)
        invariant stuck0 ==> items == 0
        modifies scope - {db}
      {
        shardOffset, items, mem, over, swept := Turn(scope, views, len0, mem0, shardOffset, items, mem, rounds, swept);
        rounds := rounds + 1;
      }
      CutOff(scope, views, len0, mem0, shardOffset, items, mem, rounds, over, swept);
    }

    /** Reading the memory does not move anything. */
    twostate lemma StillStuck()
      requires old(Stuck()) && db.Valid()
      requires unchanged(db.balancer.memList) && unchanged(db.map_.shards)
      requires forall j: nat {:trigger db.L(j)} :: j < db.N() ==> unchanged(db.L(j))
      ensures Stuck()
    {
      hide Swept;
      RanksKept();
    }

    lemma CutOff(scope: set<object>, views: imap<nat, Option<Item>>, len0: int, mem0: int, shardOffset: nat,
                 items: int, mem: int, rounds: nat, over: bool, swept: bool)
      requires Ready(scope, views, shardOffset, swept) && Tally(views, len0, mem0, shardOffset, items, mem, over, swept)
      ensures db.Valid() && db.Thinned(views) && over == (db.TotalMem() >= memoryThreshold)
      ensures items > 0 ==> Needed(views)
      ensures items == len0 - db.TotalLen() && mem == mem0 - db.TotalMem()
      ensures Paced(shardOffset, items, rounds, over, swept) ==> rounds < MostRounds(len0)
    {
      if Paced(shardOffset, items, rounds, over, swept) {
        BudgetIsProduct(Pace(), items);
        ProductGrows(Pace(), 2 * fatShards, items, len0);
      }
    }
  }

  lemma {:induction false} SubsetSize(s: set<nat>, t: set<nat>)
    requires s <= t
    ensures |s| <= |t|
  {
    if s != {} {
      var x :| x in s;
      SubsetSize(s - {x}, t - {x});
    }
  }

  /** Nodes with a value weigh nothing together, or at least an entry. */
  lemma {:induction false} WeightsApart(nodes: seq<Node>)
    requires forall e :: e in nodes ==> e.value.Some?
    ensures Weights(nodes) == 0 || Weights(nodes) >= ENTRY_SIZE
  {
    if nodes != [] {
      assert nodes[0] in nodes;
      WeightsApart(nodes[1..]);
    }
  }

  lemma {:induction false} WeightsNatural(nodes: seq<Node>)
    ensures Weights(nodes) >= 0
  {
    if nodes != [] { WeightsNatural(nodes[1..]); }
  }

  lemma {:induction false} SumOfPairs(s: seq<int>, t: seq<int>)
    requires |s| == |t| && forall i :: 0 <= i < |s| ==> s[i] + t[i] >= 0
    ensures Sum(s) + Sum(t) >= 0
  {
    if s != [] { SumOfPairs(s[..|s| - 1], t[..|t| - 1]); }
  }

  /** How many rounds `items` evictions can take. */
  ghost function Budget(f: nat, items: nat): nat {
    if items == 0 then 0 else f + Budget(f, items - 1)
  }

  lemma {:induction false} BudgetIsProduct(f: nat, items: nat)
    ensures Budget(f, items) == f * items
  {
    if items > 0 {
      BudgetIsProduct(f, items - 1);
      assert f * items == f + f * (items - 1);
    }
  }

  lemma {:induction false} BudgetGrows(f: nat, items: nat, evicted: nat)
    ensures Budget(f, items + evicted) >= Budget(f, items) + if evicted > 0 then f else 0
  {
    if evicted > 1 { BudgetGrows(f, items, evicted - 1); }
  }

  /** How many rounds without an eviction may lie behind: the rest of one ranking, and once that is
      through, the part of the next that was empty. */
  ghost function Waited(f: nat, offset: int, over: bool, swept: bool): int {
    if !over then 0 else if swept then f + offset else offset
  }

  /** The bound on the rounds survives one round. */
  lemma RoundsStep(f: nat, pace: nat, rounds: nat, items: nat, evicted: nat, offset: nat, next: nat,
    over: bool, swept: bool, swept': bool)
    requires rounds <= Budget(pace, items) + Waited(f, offset, true, swept) && offset < f
    requires pace == f + f || (pace == f && !swept && !swept')
    requires next == if offset + 1 >= f then 0 else offset + 1
    requires !over ==> evicted > 0
    requires evicted > 0 ==> !swept'
    requires evicted == 0 ==> if next == 0 then !swept && swept' else swept' == swept
    ensures rounds + 1 <= Budget(pace, items + evicted) + Waited(f, next, over, swept')
  {
    BudgetGrows(pace, items, evicted);
  }

  lemma ProductGrows(pace: nat, most: nat, items: nat, len0: nat)
    requires pace <= most && items <= len0
    ensures pace * items <= most * len0 && most * (len0 + 1) == most * len0 + most
  {
    assert pace * items <= most * items <= most * len0;
  }
}
