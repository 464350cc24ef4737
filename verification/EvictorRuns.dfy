/** For every drift at or over the bound a storage on which the eviction loop is stuck, built by sets,
    removals and rebalances. */
module EvictorRuns {
  import opened Wrappers
  import opened ByteCompare
  import opened CacheEntry
  import opened RingSort
  import opened RingList
  import opened ShardedMap
  import opened Balancer
  import opened Storage
  import opened Drift
  import opened Evictor
  import opened StorageRuns
  import TinyLfu

  type Ranks = seq<Element<ShardNode>>

  /** Sets an entry with that payload as the first of shard `i`. */
  method Enter(db: InMemoryStorage, i: nat, p: Payload, now: int) returns (e: Entry)
    requires Young(db) && i < db.N() && db.S(i).items == map[]
    modifies db.S(i), db.L(i), db.L(i).root, db.L(i).Nodes, db`clock, db`drift
    modifies db.tinyLFU.curr`window, db.tinyLFU.curr.table, db.tinyLFU.door`seen, db.tinyLFU.door.bits
    ensures Young(db) && fresh(e) && e.key == e.shard == i && e.fingerprint == [] && e.payload == Some(p)
    ensures db.S(i).items == map[i := e] && db.S(i).mem == old(db.S(i).mem) + ENTRY_SIZE + p.capacity
    ensures db.drift == old(db.drift) && fresh(db.L(i).Nodes)
  {
    Apart(db, i);
    EmptyShard(db, i);
    hide InMemoryStorage.ShardOk, InMemoryStorage.SideOk;
    e := new Entry(i, i, [], Some(p), now);
    SetNew(db, e, now);
  }

  /** Sets a payload of another length under the key of shard `i`'s only entry. */
  method Change(db: InMemoryStorage, i: nat, e: Entry, ghost was: Payload, p: Payload, now: int)
    requires Young(db) && i < db.N() && db.S(i).items == map[i := e] && e.key == i && e.fingerprint == []
    requires e.payload == Some(was) && |was.bytes| != |p.bytes|
    modifies db.S(i), db.L(i), db.L(i).root, db.L(i).Nodes, e, db`clock, db`drift
    modifies db.tinyLFU.curr`window, db.tinyLFU.curr.table, db.tinyLFU.door`seen, db.tinyLFU.door.bits
    ensures Young(db) && e.payload == Some(p)
    ensures db.S(i).items == old(db.S(i).items) && db.S(i).mem == old(db.S(i).mem)
    ensures db.drift == old(db.drift)[i := old(db.drift)[i] + p.capacity - was.capacity]
    ensures fresh((set e | e in db.L(i).Nodes) - old(set e | e in db.L(i).Nodes))
  {
    Apart(db, i);
    hide InMemoryStorage.ShardOk, InMemoryStorage.SideOk, InMemoryStorage.ShouldEvict;
    var other := new Entry(i, i, [], Some(p), now);
    WillChange(db, i, e, was, other);
    hide InMemoryStorage.Hit, InMemoryStorage.Settled, InMemoryStorage.Latest, InMemoryStorage.HolderWeight;
    var persisted := db.Set(other, now);
    HasChanged(db, i, e, p);
  }

  lemma WillChange(db: InMemoryStorage, i: nat, e: Entry, was: Payload, other: Entry)
    requires Young(db) && i < db.N() && db.S(i).items == map[i := e] && e.fingerprint == other.fingerprint == []
    requires e.payload == Some(was) && other.payload.Some? && |was.bytes| != |other.payload.value.bytes|
    requires other.key == i
    ensures db.Hit(other) && db.Settled(other) == other.payload && db.HolderWeight(i) == ENTRY_SIZE + was.capacity
  {
    Apart(db, i);
  }

  lemma HasChanged(db: InMemoryStorage, i: nat, e: Entry, p: Payload)
    requires Young(db) && i < db.N() && db.S(i).items == map[i := e] && db.View(i) == Some(Item([], Some(p)))
    ensures e.payload == Some(p) && db.HolderWeight(i) == ENTRY_SIZE + p.capacity
  {
    Apart(db, i);
  }

  /** An entry comes in, an update changes its weight by `d`, and it is removed: that drift stays. */
  method Leave(db: InMemoryStorage, i: nat, d: int)
    requires Young(db) && i < db.N() && db.S(i).items == map[] && db.L(i).Nodes == []
    modifies db.S(i), db.L(i), db.L(i).root, db`clock, db`drift
    modifies db.tinyLFU.curr`window, db.tinyLFU.curr.table, db.tinyLFU.door`seen, db.tinyLFU.door.bits
    ensures Young(db) && db.S(i).items == map[] && db.drift == old(db.drift)[i := old(db.drift)[i] + d]
  {
    var before, after := Payload([], if d < 0 then 1 - d else 1), Payload([7], if d < 0 then 1 else 1 + d);
    var e := Enter(db, i, before, 0);
    Change(db, i, e, before, after, 1);
    var _, _ := db.Remove(e);
  }

  method LeaveIn(db: InMemoryStorage, i: nat, d: int, ghost scope: set<object>)
    requires Young(db) && i < db.N() && Empty(db) && Owned(db, scope)
    modifies scope
    ensures Young(db) && Empty(db) && Owned(db, scope) && db.drift == old(db.drift)[i := old(db.drift)[i] + d]
  {
    Apart(db, i);
    EmptyShard(db, i);
    assert Within(db, i, scope);
    hide InMemoryStorage.ShardOk, InMemoryStorage.SideOk;
    Leave(db, i, d);
  }

  /** An empty storage with any drift at all. */
  method Drifted(drift: seq<int>, threshold: int, hash: Hash, w: TinyLfu.Window, v: TinyLfu.Window)
    returns (db: InMemoryStorage, ghost scope: set<object>)
    requires drift != [] && threshold > OwnSize(|drift|) && w.Ok() && v.Ok()
    ensures Young(db) && db.N() == |drift| && db.drift == drift && db.memoryThreshold == threshold && Empty(db)
    ensures Owned(db, scope) && fresh(scope)
  {
    hide InMemoryStorage.ShardOk, InMemoryStorage.SideOk, Empty, Owned;
    db, scope := Made(|drift|, threshold, hash, w, v);
    for i := 0 to |drift|
      invariant Young(db) && Empty(db) && Owned(db, scope)
      invariant db.drift == drift[..i] + seq(|drift| - i, _ => 0)
    {
      LeaveIn(db, i, drift[i], scope);
    }
  }

  // ---------------------------------------------------------------------------------------------
  // Ranked by excess, then filled

  /** The shard at a rank, by its number. */
  function IdAt(order: Ranks, a: nat): nat {
    if a < |order| && order[a].value.Some? then order[a].value.value.shard.id else 0
  }

  ghost predicate Numbered(order: Ranks, n: nat) {
    && |order| == n
    && forall a: nat {:trigger order[a]} {:trigger IdAt(order, a)} :: a < n ==>
         order[a].value.Some? && IdAt(order, a) < n
  }

  /** The ranking is in order of excess, and the fat shards are those that reach the level. */
  ghost predicate Lined(order: Ranks, drift: seq<int>, fat: nat)
    requires drift != [] && fat > 0
  {
    && Numbered(order, |drift|)
    && (forall a: nat, b: nat {:trigger IdAt(order, a), IdAt(order, b)} :: a < b < |order| ==>
          drift[IdAt(order, a)] <= drift[IdAt(order, b)])
    && forall a: nat {:trigger IdAt(order, a)} :: a < |order| ==>
         if a < fat then -drift[IdAt(order, a)] >= Level(drift, fat) else -drift[IdAt(order, a)] <= Level(drift, fat)
  }

  lemma RankId(evict: Evict, a: nat)
    requires evict.db.Valid() && a < evict.db.N()
    ensures Numbered(evict.db.balancer.memList.Nodes, evict.db.N())
    ensures evict.RankedIndex(a) == IdAt(evict.db.balancer.memList.Nodes, a)
  {
    var order, i := evict.db.balancer.memList.Nodes, evict.RankedIndex(a);
    assert evict.db.map_.shards[i].id == i;
    forall b: nat {:trigger order[b]} {:trigger IdAt(order, b)} | b < evict.db.N()
      ensures order[b].value.Some? && IdAt(order, b) < evict.db.N()
    {
      var i := evict.RankedIndex(b);
      assert evict.db.map_.shards[i].id == i;
    }
  }

  /** The fat ranks reach the level, the others do not exceed it. */
  lemma RankAtLevel(evict: Evict, a: nat)
    requires evict.db.Valid() && a < evict.db.N() && evict.Swept(0) && evict.fatShards > 0
    requires Empty(evict.db)
    ensures var x, level := -evict.db.drift[evict.RankedIndex(a)], Level(evict.db.drift, evict.fatShards);
      if a < evict.fatShards then x >= level else x <= level
  {
    var drift, fat := evict.db.drift, evict.fatShards;
    var level := Level(drift, fat);
    LevelIff(drift, fat, level);
    OverCount(drift, level);
    OverCount(drift, level - 1);
    var x := -drift[evict.RankedIndex(a)];
    if a < fat && x < level {
      forall i | i in Over(drift, level - 1) ensures i in evict.FirstIndices(a) {
        var b := evict.RankOf(i);
        if b >= a { RankDescends(evict, a, b); }
      }
      SubsetSize(Over(drift, level - 1), evict.FirstIndices(a));
      FirstFew(evict, a);
    } else if a >= fat && x > level {
      forall b: nat | b < a + 1 ensures -drift[evict.RankedIndex(b)] > level {
        RankDescends(evict, b, a);
      }
      evict.ManyOver(a + 1, level);
    }
  }

  lemma RankDescends(evict: Evict, a: nat, b: nat)
    requires evict.db.Valid() && a <= b < evict.db.N() && evict.Swept(0)
    requires Empty(evict.db)
    ensures evict.db.drift[evict.RankedIndex(a)] <= evict.db.drift[evict.RankedIndex(b)]
  {
    assert evict.db.S(evict.RankedIndex(a)).items == map[] && evict.db.S(evict.RankedIndex(b)).items == map[];
    EmptyShard(evict.db, evict.RankedIndex(a));
    EmptyShard(evict.db, evict.RankedIndex(b));
    assert a == b || evict.RankedShard(a).mem >= evict.RankedShard(b).mem;
  }

  lemma {:induction false} FirstFew(evict: Evict, n: nat)
    requires evict.db.Valid() && n <= evict.db.N()
    ensures |evict.FirstIndices(n)| <= n
  {
    if n > 0 {
      FirstFew(evict, n - 1);
      assert evict.FirstIndices(n) == evict.FirstIndices(n - 1) + {evict.RankedIndex(n - 1)};
    } else {
      assert evict.FirstIndices(0) == {};
    }
  }

  lemma LinedUp(evict: Evict)
    requires evict.db.Valid() && evict.Swept(0) && evict.fatShards > 0
    requires Empty(evict.db)
    ensures Lined(evict.db.balancer.memList.Nodes, evict.db.drift, evict.fatShards)
  {
    hide Evict.Swept, InMemoryStorage.ShardOk, InMemoryStorage.SideOk;
    var order, n := evict.db.balancer.memList.Nodes, evict.db.N();
    RankId(evict, 0);
    forall a: nat, b: nat {:trigger IdAt(order, a), IdAt(order, b)} | a < b < n
      ensures evict.db.drift[IdAt(order, a)] <= evict.db.drift[IdAt(order, b)]
    {
      RankId(evict, a);
      RankId(evict, b);
      RankDescends(evict, a, b);
    }
    forall a: nat {:trigger IdAt(order, a)} | a < n
      ensures var x, level := -evict.db.drift[IdAt(order, a)], Level(evict.db.drift, evict.fatShards);
        if a < evict.fatShards then x >= level else x <= level
    {
      RankId(evict, a);
      RankAtLevel(evict, a);
    }
  }

  /** Filled like the fullest storage whose fat shards are all empty, or empty still. */
  ghost predicate Filled(db: InMemoryStorage, drift: seq<int>, fat: nat, i: nat)
    requires i < |drift| == db.N() && fat > 0
    reads db.S(i)
  {
    && db.S(i).mem == Fullest(drift, fat)[i]
    && (db.S(i).items == map[] || -drift[i] + ENTRY_SIZE <= Level(drift, fat))
  }

  ghost predicate AllFilled(db: InMemoryStorage, drift: seq<int>, fat: nat)
    requires |drift| == db.N() && drift != [] && fat > 0
    reads db.map_.shards
  {
    forall i: nat {:trigger Filled(db, drift, fat, i)} :: i < db.N() ==> Filled(db, drift, fat, i)
  }

  /** Nothing but entries changes from here on. */
  ghost predicate Filling(db: InMemoryStorage, order: Ranks, drift: seq<int>, scope: set<object>)
    reads *
  {
    Young(db) && Owned(db, scope) && db.balancer.memList.Nodes == order && db.drift == drift
  }

  /** Where there is room for an entry below the level, one comes in that reaches it. */
  method FillOne(db: InMemoryStorage, fat: nat, i: nat, drift: seq<int>, ghost order: Ranks, ghost scope: set<object>)
    requires i < |drift| == db.N() && fat > 0
    requires Filling(db, order, drift, scope) && db.S(i).items == map[]
    modifies scope
    ensures Filling(db, order, drift, scope) && Filled(db, drift, fat, i)
    ensures forall j: nat {:trigger db.S(j)} :: j < db.N() && j != i ==> unchanged(db.S(j))
  {
    Apart(db, i);
    EmptyShard(db, i);
    assert Within(db, i, scope);
    hide InMemoryStorage.ShardOk, InMemoryStorage.SideOk, Level;
    var level := Level(drift, fat);
    if -drift[i] + ENTRY_SIZE <= level {
      var e := Enter(db, i, Payload([], level + drift[i] - ENTRY_SIZE), 2);
    }
  }

  method FillAll(db: InMemoryStorage, fat: nat, drift: seq<int>, ghost order: Ranks, ghost scope: set<object>)
    requires |drift| == db.N() && drift != [] && fat > 0
    requires Filling(db, order, drift, scope) && Empty(db)
    modifies scope
    ensures Filling(db, order, drift, scope)
    ensures AllFilled(db, drift, fat)
  {
    hide Filling, Level, Fullest;
    for i := 0 to |drift|
      invariant Filling(db, order, drift, scope)
      invariant forall j: nat {:trigger Filled(db, drift, fat, j)} :: j < i ==> Filled(db, drift, fat, j)
      invariant forall j: nat {:trigger db.S(j)} :: i <= j < db.N() ==> db.S(j).items == map[]
    {
      FillOne(db, fat, i, drift, order, scope);
    }
  }

  // ---------------------------------------------------------------------------------------------
  // Ranked again

  /** A second ranking leaves the fat ranks as they are. */
  lemma FatRanksStay(db: InMemoryStorage, order: Ranks, drift: seq<int>, fat: nat)
    requires |drift| == db.N() && drift != [] && fat > 0 && db.Valid() && Lined(order, drift, fat)
    requires AllFilled(db, drift, fat)
    ensures var again := Sorted<Element<ShardNode>>(order, db.balancer.ByMem(Mems(db.map_.shards)), DESC);
      forall a: nat {:trigger again[a]} :: a < Fat(drift, fat) && a < |again| ==> again[a] == order[a]
  {
    var weight := db.balancer.ByMem(Mems(db.map_.shards));
    var k := Fat(drift, fat);
    forall a: nat | a < |order| ensures weight(order[a]) == Raised(-drift[IdAt(order, a)], Level(drift, fat)) {
      assert Filled(db, drift, fat, IdAt(order, a));
    }
    FrontStays<Element<ShardNode>>(order, k, weight);
  }

  method RankWithin(evict: Evict, ghost scope: set<object>)
    requires Young(evict.db) && Owned(evict.db, scope)
    modifies scope
    ensures Young(evict.db) && Owned(evict.db, scope) && evict.Swept(0)
    ensures evict.db.balancer.memList.Nodes
         == Sorted<Element<ShardNode>>(old(evict.db.balancer.memList.Nodes),
                                       evict.db.balancer.ByMem(Mems(evict.db.map_.shards)), DESC)
    ensures evict.db.drift == old(evict.db.drift) && unchanged(evict.db.map_.shards)
  {
    evict.EverythingScoped();
    hide Evict.Scoped, Evict.Swept, InMemoryStorage.ShardOk, InMemoryStorage.SideOk, Sorted;
    ghost var was := evict.db.balancer.memList.Nodes;
    evict.Rebalance(evict.Everything());
    SortedMembers(was, evict.db.balancer.ByMem(Mems(evict.db.map_.shards)), DESC);
  }

  method RankEmpty(evict: Evict, ghost scope: set<object>)
    requires Young(evict.db) && Owned(evict.db, scope) && Empty(evict.db) && evict.fatShards > 0
    modifies scope
    ensures Young(evict.db) && Owned(evict.db, scope) && Empty(evict.db) && evict.db.drift == old(evict.db.drift)
    ensures evict.fatShards == 0 || Lined(evict.db.balancer.memList.Nodes, evict.db.drift, evict.fatShards)
  {
    hide Evict.Swept, Lined, InMemoryStorage.ShardOk, InMemoryStorage.SideOk, Sorted, Owned;
    RankWithin(evict, scope);
    LinedUp(evict);
  }

  lemma FilledTotal(db: InMemoryStorage, drift: seq<int>, fat: nat)
    requires |drift| == db.N() && drift != [] && fat > 0 && AllFilled(db, drift, fat)
    ensures db.TotalMem() == Bound(drift, fat)
  {
    hide Level, Fullest;
    var mems := Mems(db.map_.shards);
    forall i: nat | i < db.N() ensures mems[i] == Fullest(drift, fat)[i] {
      assert Filled(db, drift, fat, i);
    }
    assert mems == Fullest(drift, fat);
  }

  lemma FatRankEmpty(evict: Evict, drift: seq<int>, order: Ranks, a: nat)
    requires evict.db.Valid() && evict.db.drift == drift && evict.fatShards > 0
    requires AllFilled(evict.db, drift, evict.fatShards) && Lined(order, drift, evict.fatShards)
    requires a < evict.fatShards && a < evict.db.N() && a < |evict.db.balancer.memList.Nodes|
    requires evict.db.balancer.memList.Nodes[a] == order[a]
    ensures evict.RankedNodes(a) == []
  {
    RankId(evict, a);
    var i := evict.RankedIndex(a);
    assert i == IdAt(order, a) && Filled(evict.db, drift, evict.fatShards, i);
    EmptyShard(evict.db, i);
  }

  method RankFilled(evict: Evict, drift: seq<int>, ghost order: Ranks, ghost scope: set<object>)
    requires |drift| == evict.db.N() && drift != [] && evict.fatShards > 0
    requires Filling(evict.db, order, drift, scope) && Lined(order, drift, evict.fatShards)
    requires AllFilled(evict.db, drift, evict.fatShards) && Bound(drift, evict.fatShards) >= evict.memoryThreshold
    modifies scope
    ensures evict.Stuck() && evict.db.drift == drift
    ensures evict.fatShards == 0 || evict.db.TotalMem() == Bound(drift, evict.fatShards)
  {
    hide Evict.Swept, InMemoryStorage.ShardOk, InMemoryStorage.SideOk, Sorted, Lined, Owned;
    RankWithin(evict, scope);
    FatRanksStay(evict.db, order, drift, evict.fatShards);
    FilledTotal(evict.db, drift, evict.fatShards);
    SweptAgain(evict, drift, order);
  }

  lemma SweptAgain(evict: Evict, drift: seq<int>, order: Ranks)
    requires evict.db.Valid() && evict.db.drift == drift && evict.fatShards > 0 && evict.Swept(0)
    requires AllFilled(evict.db, drift, evict.fatShards) && Lined(order, drift, evict.fatShards)
    requires forall a: nat {:trigger order[a]} ::
        a < Fat(drift, evict.fatShards) && a < |evict.db.balancer.memList.Nodes| ==>
          evict.db.balancer.memList.Nodes[a] == order[a]
    ensures evict.Swept(evict.fatShards)
  {
    RankId(evict, 0);
    forall a: nat | a < evict.fatShards && a < evict.db.N() ensures evict.RankedNodes(a) == [] {
      FatRankEmpty(evict, drift, order, a);
    }
  }

  /** For every drift whose bound reaches the threshold there is a storage with that drift on which the
      loop is stuck, unless the threshold leaves no room for any entry to begin with. */
  method StuckAtBound(drift: seq<int>, fat: nat, threshold: int, hash: Hash, w: TinyLfu.Window, v: TinyLfu.Window)
    returns (evict: Evict)
    requires drift != [] && fat > 0 && w.Ok() && v.Ok()
    requires OwnSize(|drift|) < threshold <= Bound(drift, fat)
    ensures evict.fatShards == fat && evict.memoryThreshold == evict.db.memoryThreshold == threshold
    ensures evict.Stuck() && evict.db.N() == |drift| && evict.db.drift == drift
    ensures evict.db.TotalMem() == Bound(drift, fat)
  {
    var db;
    ghost var scope;
    db, scope := Drifted(drift, threshold, hash, w, v);
    evict := new Evict(db, fat, threshold);
    RankEmpty(evict, scope);
    ghost var order := db.balancer.memList.Nodes;
    FillAll(db, fat, drift, order, scope);
    RankFilled(evict, drift, order, scope);
  }

  /** Such as: the fat shards each freed `x` bytes more than they count, and everything else is exact.
      With 348 fat shards of 2048, 64 bytes each and a threshold of 100,000 bytes, for one. Evicting all
      that is left would bring memory below the threshold. */
  method StuckAfterUpdate(n: nat, fat: nat, x: int, threshold: int, hash: Hash, w: TinyLfu.Window, v: TinyLfu.Window)
    returns (evict: Evict)
    requires 0 < fat < n && x >= ENTRY_SIZE && fat * x < threshold <= n * x && OwnSize(n) < threshold
    requires w.Ok() && v.Ok()
    ensures evict.fatShards == fat && evict.memoryThreshold == evict.db.memoryThreshold == threshold
    ensures evict.Stuck() && evict.db.N() == n && evict.memoryThreshold + Sum(evict.db.drift) > 0
  {
    BoundOfEqualExcess(n, fat, x);
    evict := StuckAtBound(EqualExcess(n, fat, x), fat, threshold, hash, w, v);
  }

  /** When the threshold leaves no room for any entry, an empty storage stays empty. */
  method TakesNothing(db: InMemoryStorage, e: Entry, now: int) returns (persisted: bool)
    requires db.Valid() && Empty(db) && db.map_.mem >= 0 && db.memoryThreshold <= OwnSize(db.N())
    requires e.shard == db.Home(e.key)
    modifies db.S(e.shard), db.L(e.shard), db.L(e.shard).root, db.L(e.shard).Nodes
    modifies db.Holder(e.key), e, db`clock, db`drift
    modifies db.tinyLFU.curr`window, db.tinyLFU.curr.table, db.tinyLFU.door`seen, db.tinyLFU.door.bits
    ensures db.Valid() && !persisted && Empty(db) && db.drift == old(db.drift)
  {
    Nothing(db, e);
    Apart(db, e.shard);
    hide InMemoryStorage.VictimFor, InMemoryStorage.ShardOk, InMemoryStorage.SideOk, InMemoryStorage.View;
    persisted := Refused(db, e, now);
  }

  /** Short of memory and without a victim to beat nothing comes in. */
  method Refused(db: InMemoryStorage, e: Entry, now: int) returns (persisted: bool)
    requires db.Valid() && e.shard == db.Home(e.key) && !db.Hit(e) && db.View(e.key).None?
    requires db.VictimFor(e.key).None? && db.map_.mem + 32 + 48 * db.N() >= db.memoryThreshold
    modifies db.S(e.shard), db.L(e.shard), db.L(e.shard).root, db.L(e.shard).Nodes
    modifies db.Holder(e.key), e, db`clock, db`drift
    modifies db.tinyLFU.curr`window, db.tinyLFU.curr.table, db.tinyLFU.door`seen, db.tinyLFU.door.bits
    ensures db.Valid() && !persisted && db.drift == old(db.drift)
    ensures db.S(e.shard).items == old(db.S(e.shard).items) - {e.key}
  {
    hide InMemoryStorage.VictimFor, InMemoryStorage.ShardOk, InMemoryStorage.SideOk, InMemoryStorage.View;
    hide InMemoryStorage.Hit, InMemoryStorage.Latest, InMemoryStorage.HolderWeight, SamePayload;
    persisted := db.Set(e, now);
  }

  lemma Nothing(db: InMemoryStorage, e: Entry)
    requires db.Valid() && Empty(db) && db.map_.mem >= 0 && db.memoryThreshold <= OwnSize(db.N())
    ensures !db.Hit(e) && db.View(e.key).None? && db.VictimFor(e.key).None?
    ensures db.map_.mem + 32 + 48 * db.N() >= db.memoryThreshold
  {
    assert db.SideOk(Ranking);
    forall j: nat {:trigger db.balancer.shards[j]} | j < db.N() ensures db.S(j).items == map[] && db.L(j).Nodes == [] {
      assert db.S(j).items == map[];
      EmptyShard(db, j);
    }
    assert db.S(db.Home(e.key)).items == map[];
    assert db.L(db.Home(e.key)).Nodes == [];
  }
}
