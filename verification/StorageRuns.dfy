/** What runs of the storage start from: a new one with room, and the objects that runs change. */
module StorageRuns {
  import opened ByteCompare
  import opened CacheEntry
  import opened ShardedMap
  import opened Balancer
  import opened Storage
  import opened Wrappers
  import TinyLfu

  /** Totals have not been refreshed yet, and there is room for more than the balancer itself. */
  ghost predicate Young(db: InMemoryStorage)
    reads *
  {
    db.Valid() && db.map_.mem == 0 && db.memoryThreshold > OwnSize(db.N())
  }

  lemma Apart(db: InMemoryStorage, i: nat)
    requires db.Valid() && i < db.N()
    ensures db.Home(i) == i
    ensures forall j: nat {:trigger db.S(j)} :: j < db.N() && j != i ==> db.S(j) != db.S(i)
  {
    forall j: nat | j < db.N() && j != i ensures db.S(j) != db.S(i) {
      assert db.map_.shards[j].id == j && db.map_.shards[i].id == i;
    }
  }

  /** An empty shard has an empty list and counts exactly its excess. */
  lemma EmptyShard(db: InMemoryStorage, i: nat)
    requires db.Valid() && i < db.N() && db.S(i).items == map[]
    ensures db.L(i).Nodes == [] && db.S(i).mem == -db.drift[i]
  {
    var ok := db.ShardOk(i);
  }

  ghost predicate Within(db: InMemoryStorage, i: nat, scope: set<object>)
    requires db.Wired() && i < db.N()
  {
    db.S(i) in scope && db.L(i) in scope && db.L(i).root in scope
  }

  /** Everything the runs below change is in `scope`. */
  ghost predicate Owned(db: InMemoryStorage, scope: set<object>)
    reads *
  {
    && db.Wired() && db in scope
    && (forall i: nat {:trigger Within(db, i, scope)} :: i >= db.N() || Within(db, i, scope))
    && db.balancer.memList in scope && db.balancer.memList.root in scope
    && (forall e :: e in db.balancer.memList.Nodes ==> e in scope)
    && db.tinyLFU.curr in scope && db.tinyLFU.curr.table in scope
    && db.tinyLFU.door in scope && db.tinyLFU.door.bits in scope
  }

  ghost predicate Empty(db: InMemoryStorage)
    reads *
  {
    forall i: nat {:trigger db.S(i)} :: i < db.N() ==> db.S(i).items == map[]
  }

  method Made(n: nat, threshold: int, hash: Hash, w: TinyLfu.Window, v: TinyLfu.Window)
    returns (db: InMemoryStorage, ghost scope: set<object>)
    requires n > 0 && threshold > OwnSize(n) && w.Ok() && v.Ok()
    ensures Young(db) && db.N() == n && db.memoryThreshold == threshold && Empty(db)
    ensures db.drift == seq(n, _ => 0)
    ensures Owned(db, scope) && fresh(scope)
  {
    db := new InMemoryStorage(n, threshold, hash, w, v);
    scope := Changing(db);
    ChangingFresh(db);
    hide InMemoryStorage.ShardOk, InMemoryStorage.SideOk, Owned, Changing;
    ChangingOwned(db);
    assert db.drift == seq(n, _ => 0);
  }

  twostate lemma ChangingFresh(new db: InMemoryStorage)
    requires db.Wired() && fresh(db)
    requires forall i :: 0 <= i < db.N() ==> fresh(db.S(i)) && fresh(db.L(i)) && fresh(db.L(i).root)
    requires fresh(db.balancer.memList) && fresh(db.balancer.memList.root)
    requires fresh(set e | e in db.balancer.memList.Nodes)
    requires fresh(db.tinyLFU.curr) && fresh(db.tinyLFU.curr.table)
    requires fresh(db.tinyLFU.door) && fresh(db.tinyLFU.door.bits)
    ensures fresh(Changing(db))
  {
    assert fresh(set i | 0 <= i < db.N() :: db.S(i));
    assert fresh(set i | 0 <= i < db.N() :: db.L(i));
    assert fresh(set i | 0 <= i < db.N() :: db.L(i).root);
  }

  ghost function Changing(db: InMemoryStorage): set<object>
    requires db.Wired()
    reads *
  {
    {db, db.balancer.memList, db.balancer.memList.root, db.tinyLFU.curr, db.tinyLFU.curr.table, db.tinyLFU.door,
     db.tinyLFU.door.bits}
    + (set e | e in db.balancer.memList.Nodes) + (set i | 0 <= i < db.N() :: db.S(i))
    + (set i | 0 <= i < db.N() :: db.L(i)) + (set i | 0 <= i < db.N() :: db.L(i).root)
  }

  lemma ChangingOwned(db: InMemoryStorage)
    requires db.Wired()
    ensures Owned(db, Changing(db))
  {
  }

  /** With room, an entry comes in under a key that was free. */
  method SetNew(db: InMemoryStorage, e: Entry, now: int)
    requires Young(db) && e.shard == db.Home(e.key) && db.View(e.key).None?
    modifies db.S(e.shard), db.L(e.shard), db.L(e.shard).root, db.L(e.shard).Nodes, e, db`clock, db`drift
    modifies db.tinyLFU.curr`window, db.tinyLFU.curr.table, db.tinyLFU.door`seen, db.tinyLFU.door.bits
    ensures Young(db) && e.payload == old(e.payload) && db.drift == old(db.drift)
    ensures db.View(e.key) == Some(Item(e.fingerprint, e.payload))
    ensures forall k: nat {:trigger db.View(k)} :: k != e.key ==> db.View(k) == old(db.View(k))
    ensures db.S(e.shard).items == old(db.S(e.shard).items)[e.key := e]
    ensures db.S(e.shard).mem == old(db.S(e.shard).mem) + e.Weight()
    ensures fresh((set n | n in db.L(e.shard).Nodes) - old(set n | n in db.L(e.shard).Nodes))
  {
    Free(db, e);
    ghost var was, items := e.payload, db.S(e.shard).items;
    hide InMemoryStorage.ShardOk, InMemoryStorage.SideOk, InMemoryStorage.Latest, InMemoryStorage.Hit;
    hide InMemoryStorage.VictimFor, InMemoryStorage.HolderWeight, SamePayload;
    var persisted := db.Set(e, now);
    PutBack(items, e);
  }

  lemma PutBack(items: map<nat, Entry>, e: Entry)
    ensures items - {e.key} + map[e.key := e] == items[e.key := e]
  {
  }

  lemma Free(db: InMemoryStorage, e: Entry)
    requires Young(db) && e.shard == db.Home(e.key) && db.View(e.key).None?
    ensures !db.Hit(e) && db.Holder(e.key) == {} && db.HolderWeight(e.key) == 0
    ensures db.map_.mem + 32 + 48 * db.N() < db.memoryThreshold
  {
  }
}
