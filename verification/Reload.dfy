/** pkg/storage/lru/dumper.go: the entries read from dump files go back into a storage. */
module Reload {
  import opened Wrappers
  import opened ByteCompare
  import opened CacheEntry
  import opened RingList
  import opened ShardedMap
  import opened Storage
  import opened StorageRuns
  import opened EntryCodec
  import opened DumpFile

  /** What a lookup finds of a record once it is loaded. */
  function Loads(r: Record): Item {
    Item(r.fingerprint, Some(Payload(PayloadOf(r), |PayloadOf(r)|)))
  }

  /** What a lookup by key finds among records. */
  function Lookup(rs: seq<Record>, key: nat): Option<Item> {
    if rs == [] then None
    else if rs[|rs| - 1].key == key then Some(Loads(rs[|rs| - 1]))
    else Lookup(rs[..|rs| - 1], key)
  }

  ghost predicate OncePerKey(rs: seq<Record>) {
    forall i, j :: 0 <= i < j < |rs| ==> rs[i].key != rs[j].key
  }

  lemma {:induction false} LookupIff(rs: seq<Record>, key: nat)
    ensures Lookup(rs, key).Some? <==> exists i :: 0 <= i < |rs| && rs[i].key == key
    ensures OncePerKey(rs) ==> forall i :: 0 <= i < |rs| && rs[i].key == key ==> Lookup(rs, key) == Some(Loads(rs[i]))
  {
    if rs != [] {
      var last := |rs| - 1;
      LookupIff(rs[..last], key);
      if rs[last].key != key && exists i :: 0 <= i < |rs| && rs[i].key == key {
        var i :| 0 <= i < |rs| && rs[i].key == key;
        assert rs[..last][i].key == key;
      }
    }
  }

  /** Loading gives back what a lookup would have found, whether the payload was missing or empty. */
  lemma {:induction false} LookupRestored(rs: seq<Record>, key: nat)
    ensures Lookup(Restoreds(rs), key) == Lookup(rs, key)
  {
    if rs != [] {
      var last := |rs| - 1;
      RestoredLast(rs);
      LookupRestored(rs[..last], key);
      assert Restoreds(rs)[..last] == Restoreds(rs[..last]);
    }
  }

  lemma {:induction false} RestoredLast(rs: seq<Record>)
    requires rs != []
    ensures |Restoreds(rs[..|rs| - 1])| == |rs| - 1
    ensures Restoreds(rs) == Restoreds(rs[..|rs| - 1]) + [Restored(rs[|rs| - 1])]
  {
    if |rs| > 1 {
      RestoredLast(rs[1..]);
      assert rs[1..][..|rs| - 2] == rs[..|rs| - 1][1..];
      if |rs| > 2 { RestoredLast(rs[..|rs| - 1]); }
    }
  }

  /** The list nodes are among the objects that loading may change. */
  ghost predicate NodesIn(db: InMemoryStorage, i: nat, area: set<object>)
    requires i < |db.balancer.shards|
    reads db.L(i)
  {
    forall e {:trigger e in db.L(i).Nodes} :: e in db.L(i).Nodes ==> e in area
  }

  ghost predicate Ready(db: InMemoryStorage, area: set<object>)
    reads *
  {
    && Young(db) && Owned(db, area)
    && forall i: nat {:trigger NodesIn(db, i, area)} :: i >= |db.balancer.shards| || NodesIn(db, i, area)
  }

  /** One entry read from a file is set. */
  method SetRecord(db: InMemoryStorage, r: Record)
    requires Young(db) && r.shard == db.Home(r.key) && db.View(r.key).None?
    modifies db.S(r.shard), db.L(r.shard), db.L(r.shard).root, db.L(r.shard).Nodes, db`clock, db`drift
    modifies db.tinyLFU.curr`window, db.tinyLFU.curr.table, db.tinyLFU.door`seen, db.tinyLFU.door.bits
    ensures Young(db) && db.View(r.key) == Some(Loads(r))
    ensures forall k: nat {:trigger db.View(k)} :: k != r.key ==> db.View(k) == old(db.View(k))
    ensures fresh((set e | e in db.L(r.shard).Nodes) - old(set e | e in db.L(r.shard).Nodes))
  {
    hide InMemoryStorage.ShardOk, InMemoryStorage.SideOk;
    var e := new Entry(r.key, r.shard, r.fingerprint, Some(Payload(PayloadOf(r), |PayloadOf(r)|)), r.refreshedAt);
    SetNew(db, e, r.refreshedAt);
  }

  method Put(db: InMemoryStorage, r: Record, ghost area: set<object>) returns (ghost wider: set<object>)
    requires Ready(db, area) && r.shard == db.Home(r.key) && db.View(r.key).None?
    modifies area
    ensures Ready(db, wider) && area <= wider && fresh(wider - area)
    ensures db.View(r.key) == Some(Loads(r))
    ensures forall k: nat {:trigger db.View(k)} :: k != r.key ==> db.View(k) == old(db.View(k))
  {
    assert Within(db, r.shard, area) && NodesIn(db, r.shard, area);
    hide InMemoryStorage.ShardOk, InMemoryStorage.SideOk;
    assert forall e :: e in db.L(r.shard).Nodes ==> e in area;
    SetRecord(db, r);
    wider := area + set e | e in db.L(r.shard).Nodes;
    OwnedGrows(db, area, wider);
    forall j: nat {:trigger NodesIn(db, j, wider)} | j < db.N() ensures NodesIn(db, j, wider) {
      assert old(NodesIn(db, j, area));
      assert db.L(j).label_ == j && db.L(r.shard).label_ == r.shard;
    }
  }

  /** The entries read from a file are set one after another. */
  method LoadAll(db: InMemoryStorage, rs: seq<Record>, ghost area: set<object>)
    requires Ready(db, area) && Empty(db) && OncePerKey(rs) && forall r <- rs :: r.shard == db.Home(r.key)
    modifies area
    ensures Young(db) && forall k: nat {:trigger db.View(k)} :: db.View(k) == Lookup(rs, k)
  {
    NothingFound(db);
    ghost var wider := area;
    hide Ready, Young, InMemoryStorage.View;
    for i := 0 to |rs|
      invariant db.Wired() && Ready(db, wider) && area <= wider && fresh(wider - area)
      invariant forall k: nat {:trigger db.View(k)} :: db.View(k) == Lookup(rs[..i], k)
    {
      NotYet(rs, i);
      wider := Put(db, rs[i], wider);
      assert rs[..i + 1][..i] == rs[..i];
    }
    assert rs[..|rs|] == rs;
    ReadyIsYoung(db, wider);
  }

  lemma ReadyIsYoung(db: InMemoryStorage, area: set<object>)
    requires Ready(db, area)
    ensures Young(db)
  {
  }

  lemma NotYet(rs: seq<Record>, i: nat)
    requires i < |rs| && OncePerKey(rs)
    ensures Lookup(rs[..i], rs[i].key).None?
  {
    LookupIff(rs[..i], rs[i].key);
  }

  lemma NothingFound(db: InMemoryStorage)
    requires db.Valid() && Empty(db)
    ensures forall k: nat {:trigger db.View(k)} :: db.View(k).None?
  {
    forall k: nat {:trigger db.View(k)} ensures db.View(k).None? {
      assert db.S(db.Home(k)).items == map[];
    }
  }

  /** Loading the dump of a shard, or of several, into an empty storage with room gives the lookups that
      were dumped, and no other: a key is found exactly when it was, with its fingerprint and payload,
      whether checksums were written or not. */
  method LoadDump(db: InMemoryStorage, file: Bytes, control: bool, crc: Checksum, rules: set<Bytes>,
                  ghost rs: seq<Record>, ghost written: bool, ghost area: set<object>)
    requires Ready(db, area) && Empty(db) && OncePerKey(rs) && forall r <- rs :: r.shard == db.Home(r.key)
    requires Writable(rs) && (control ==> written) && Known(rs, rules) && file == FileBytes(written, crc, rs)
    modifies area
    ensures Young(db) && forall k: nat {:trigger db.View(k)} :: db.View(k) == Lookup(rs, k)
  {
    var report := LoadFile(file, control, crc, rules);
    LoadOfDump(rs, written, control, crc, rules);
    hide Loaded, FileBytes;
    RestoredKeys(rs);
    LoadAll(db, report.entries, area);
    forall k: nat {:trigger db.View(k)} ensures db.View(k) == Lookup(rs, k) {
      LookupRestored(rs, k);
    }
  }

  /** The records are those of shard `i`: one for each entry, as a lookup finds it. */
  ghost predicate Records(db: InMemoryStorage, i: nat, rs: seq<Record>)
    requires db.Wired()
    reads *
  {
    && OncePerKey(rs)
    && (forall r <- rs :: db.Home(r.key) == i && db.View(r.key) == Some(Loads(r)))
    && forall k: nat {:trigger db.View(k)} :: db.Home(k) == i && db.View(k).Some? ==>
         exists j :: 0 <= j < |rs| && rs[j].key == k
  }

  /** What is loaded for them are the lookups of that shard. */
  lemma RecordsTell(db: InMemoryStorage, i: nat, rs: seq<Record>, k: nat)
    requires db.Wired() && Records(db, i, rs)
    ensures Lookup(rs, k) == if db.Home(k) == i then db.View(k) else None
  {
    LookupIff(rs, k);
    if exists j :: 0 <= j < |rs| && rs[j].key == k {
      var j :| 0 <= j < |rs| && rs[j].key == k;
      assert rs[j] in rs;
    }
  }

  lemma {:induction false} RestoredKeys(rs: seq<Record>)
    ensures |Restoreds(rs)| == |rs|
    ensures forall i {:trigger Restoreds(rs)[i]} :: 0 <= i < |rs| ==> Restoreds(rs)[i] == Restored(rs[i])
  {
    if rs != [] { RestoredKeys(rs[1..]); }
  }

  lemma OwnedGrows(db: InMemoryStorage, area: set<object>, wider: set<object>)
    requires Owned(db, area) && area <= wider
    ensures Owned(db, wider)
  {
    assert forall i: nat {:trigger Within(db, i, wider)} :: i < db.N() ==> Within(db, i, area);
  }
}
