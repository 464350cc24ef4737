# Advanced cache: a verified model of its core

An HTTP cache keeps responses in memory: a sharded map with one LRU list per shard, TinyLFU admission in
front of it, an evictor behind it, a binary format for what is stored, canonical keys for what is looked
up, and a cluster of rate-limited upstream backends that fills it. This project models that core in Dafny
and proves what it is supposed to keep. `dafny verify dfyconfig.toml` checks all of it.

The files follow the repository's packages.

| file | models |
|---|---|
| `RingList.dfy`, `RingSort.dfy`, `Positions.dfy`, `StableOrder.dfy` | the ring list on the heap, its in-place merge sort, and what that sort computes |
| `CacheEntry.dfy`, `ShardedMap.dfy`, `Balancer.dfy`, `Storage.dfy`, `Evictor.dfy` | the store: entries, shards and counters, LRU lists and shard ranking, Get, Set, Remove, the eviction loop |
| `Drift.dfy`, `StorageRuns.dfy`, `EvictorRuns.dfy` | how much memory the counters can show that nobody holds any more, and the runs of the store that get eviction stuck on it |
| `ShardCounters.dfy` | the shard counters again, in every interleaving of any number of threads |
| `TinyLfu.dfy`, `ByteCompare.dfy` | admission by frequency, sampled payload comparison |
| `Wire.dfy`, `PayloadCodec.dfy`, `EntryCodec.dfy`, `DumpFile.dfy` | little-endian fields, the payload format, dump records, dump files |
| `Reload.dfy` | dump files loaded back into a store |
| `KeySort.dfy`, `QueryPairs.dfy`, `CacheKeys.dfy` | sorting pairs by key, the one-pass query tokenizer, cache keys |
| `Upstream.dfy`, `Cluster.dfy` | one backend slot, and all slots under every interleaving of monitor tasks, renewals and providers |
| `Service.dfy`, `Lifecycle.dfy` | which slots have a live provider, in every such run, and the runs that go wrong; the run of a slot from healthy to buried |

How to read it:

- Code that works on objects is a class whose methods are proved against functions of the old state;
  `Valid()` is the invariant every method but `Clear` keeps, so it holds after every sequential run without it.
- Concurrent code is a state machine with one step per hold of a lock; its theorems speak of every run. The
  monitor of the cluster starts once every slot is through its first probe.
- The shard count, the number of fat shards between two rebalances and all thresholds are parameters
  (2048, 348 and the configured ones in the program).
- A Go panic is an explicit outcome (`OutOfRange`, `panicked`, `crashed`), never a precondition.

Results about what the code does not promise, each proved:

- The one-pass tokenizer panics exactly on queries that, after leading question marks, start with `=` and
  do not go on with `&` (`QueryPairs.ParseFilterAndSortQuery`).
- Payload updates leave the shard counters alone, so a counter can show memory nobody holds. Whether that can
  hold up eviction is decided by the drift of the counters alone, through `Drift.Bound`. When the bound is below
  the threshold, the loop ends from every state with that drift (`Evictor.Evict.EvictUntilWithinLimit`). When it
  is not, there is a storage with that drift on which the loop is stuck, over the limit with all fat shards
  empty (`EvictorRuns.StuckAtBound`), and stuck means for good (`Evictor.Evict.EvictAtMost`). 348 of 2048 shards
  that each freed 64 bytes are enough for a threshold of 100,000 bytes (`EvictorRuns.StuckAfterUpdate`).
- A `Clear` that overtakes an insertion leaves its weight on an empty shard for good
  (`ShardCounters.ClearCanOvertake`).
- Origin rate is restored by the last `unthrottle` if and only if ten divides it or nothing was throttled
  (`Cluster.LimitFormula`); with late renewals not even then (`Service.LateRenewalLosesRate`).
- Health and service are two things. A slot is served if and only if another limit than the one in force was
  asked for since it was last closed (`Service.ServedIff`). A healthy slot is not, when its last cure found the
  limit it asks for in force already (`Service.HealthyUnservedIff`, `Service.RelapseLosesProvider`); a sick one
  is, when an error-rate task acts on it late (`Service.LateTaskServesSick`) or a renewal does, its first one
  (`Service.InitialQuarantineServedIff`) or any other (`Service.LateRenewalServesSick`); with neither it is not
  (`Service.OnlyHealthyServed`).
- An error rate of exactly one tenth quarantines instead of throttling (`Upstream.QuarantinedByErrRateIff`).
- Two long payloads of one length are equal for every hash if and only if the same windows occur an odd number
  of times in both: changes outside the windows, windows in another order and a pair of equal windows in place
  of another pair all go unnoticed (`ByteCompare.EqualForEveryHash`, `ByteCompare.BlindSpot`).
- A dump crashes the load exactly on a record that gets past the checksum, or is loaded without one, and is too
  short for its own lengths (`DumpFile.CrashIff`, `DumpFile.UncheckedDamageCrashes`).
- The body's length field is never read back (`PayloadCodec.BodyIsTheRest`); key bytes carry no separators
  (`CacheKeys.BoundariesVanish`).

Where code and comments disagree the model follows the code: the evictor walks LRU lists from the front,
not the tail; `update` does not touch the shard's memory counter; a removed list element keeps its list; the
left neighbour that may supply a victim is never shard 0; ASC sorting reverses equal weights.

## Model

| member | source | states |
|---|---|---|
| `RingList.List.constructor` | pkg/list/doubly_linked.go:32-42 | a new list is an empty ring closed through its sentinel |
| `RingList.List.PushFront` | pkg/list/doubly_linked.go:61-77 | the ring gains one fresh node in front; all others keep their order |
| `RingList.List.PushBack` | pkg/list/doubly_linked.go:80-96 | the ring gains one fresh node at the back |
| `RingList.List.Back` | pkg/list/doubly_linked.go:99-107 | the last node, nil on an empty list |
| `RingList.List.Remove` | pkg/list/doubly_linked.go:110-122 | exactly that node leaves the ring; nil and foreign elements change nothing |
| `RingList.List.MoveToFront` | pkg/list/doubly_linked.go:125-142 | the node moves to the front, the rest keeps its order; a no-op for nil and foreign elements |
| `RingList.List.Next` | pkg/list/doubly_linked.go:145-158 | the node at the offset, and failure exactly outside the list |
| `RingList.List.Sort` | pkg/list/doubly_linked.go:160-185 | terminates with a well-formed ring of the same nodes, in the order `RingSort.SortedCharacterised` pins down |
| `RingList.MergeSort` | pkg/list/doubly_linked.go:187-198 | sorting a chain by pointer surgery gives the chain of the sorted nodes |
| `RingList.SplitHalf` | pkg/list/doubly_linked.go:200-212 | cuts a chain after its first half, rounded up, into two chains |
| `RingList.MergeByWeight` | pkg/list/doubly_linked.go:214-255 | merging two chains gives the chain of the merge, the first winning ties under ASC only |
| `RingSort.SortedCharacterised` | pkg/list/doubly_linked.go:187-255 | the sort's result is the one sequence ordered by weight whose runs of equal weight are the input's, kept by DESC and reversed by ASC |
| `RingSort.SortedIsOrdered` | pkg/list/doubly_linked.go:187-255 | the result is ordered and a permutation of the input |
| `RingSort.SortedClasses` | pkg/list/doubly_linked.go:214-232 | what the sort does to the elements of one weight, for each order |
| `RingSort.SortedBothWays` | pkg/list/doubly_linked.go:187-255 | DESC runs from heavy to light and keeps ties, ASC from light to heavy and turns them round |
| `RingSort.FrontStays` | pkg/list/doubly_linked.go:187-255 | a front in order and nowhere lighter than the rest stays in front under DESC, ties included |
| `ByteCompare.Judgement` | pkg/bytes/cmp.go:8-19 | the sampled comparison is an equivalence for every hash, exact below 32 bytes, and never tells slices with equal windows apart |
| `ByteCompare.EqualForEveryHash` | pkg/bytes/cmp.go:8-19 | two slices of one length of 32 bytes or more are equal for every hash if and only if the same windows occur an odd number of times in both |
| `ByteCompare.BlindSpot` | pkg/bytes/cmp.go:16-18 | a change outside the three windows of a long slice goes unnoticed, one of the cases of `EqualForEveryHash` |
| `ByteCompare.OneByteIff` | pkg/bytes/cmp.go:16-18 | a change of one byte of a long slice goes unnoticed by every hash exactly outside the first eight bytes, the last eight and the eight from the middle on |
| `TinyLfu.CountMinSketch.Increment` | pkg/storage/lfu/count_min_sketch.go:26-32 | every cell remains the number of its increments modulo the 32-bit word |
| `TinyLfu.CountMinSketch.LeastBounds` | pkg/storage/lfu/count_min_sketch.go:34-45 | below 2^32 increments the minimum lies between the key's true count and the window |
| `TinyLfu.CountMinSketch.LeastIsSmallest` | pkg/storage/lfu/count_min_sketch.go:34-45 | the estimate is one of the key's cells, and none of them is smaller |
| `TinyLfu.CountMinSketch.RowSumsToWindow` | pkg/storage/lfu/count_min_sketch.go:26-32 | each row sums to the number of increments |
| `TinyLfu.RowTotalCountsWindow` | pkg/storage/lfu/count_min_sketch.go:26-32 | every increment lands in exactly one cell of a row |
| `TinyLfu.Doorkeeper.Allow` | pkg/storage/lfu/door_keeper.go:23-37 | a key is known exactly when both its bits are set, and a bit is set exactly when some key seen hashes to it; so a key seen is known from then on, whatever other keys come |
| `TinyLfu.TinyLFU.Increment` | pkg/storage/lfu/tiny_lfu.go:40-43 | the key enters the current window and the doorkeeper |
| `TinyLfu.TinyLFU.Admit` | pkg/storage/lfu/tiny_lfu.go:45-57 | a key the doorkeeper has seen since the rotation is admitted exactly when it is as frequent as the victim |
| `TinyLfu.TinyLFU.Rotate` | pkg/storage/lfu/tiny_lfu.go:59-62 | the current window becomes the previous one, the new one and the doorkeeper are empty |
| `TinyLfu.TinyLFU.EstimateBounds` | pkg/storage/lfu/tiny_lfu.go:64-68 | below 2^31 increments per window the estimate lies between half the key's true count, rounded down, and half of all increments |
| `CacheEntry.Entry.SetPayload` | pkg/model/payload.go:45-139 | stores the packed message with no spare capacity, so the weight counts exactly the payload |
| `CacheEntry.Entry.GetPayload` | pkg/model/payload.go:144-219 | unpacks the stored bytes, a missing payload like an empty one |
| `CacheEntry.SamePayloadIff` | pkg/model/payload.go:20-34 | without a payload on either side nothing has changed, with one on one side only it has, with two the bytes decide |
| `CacheEntry.Entry.SwapPayloads` | pkg/model/payload.go:15-18 | the two entries exchange payloads, and the receiver is refreshed now |
| `ShardedMap.Shard.Set` | pkg/storage/map/shard.go:54-66 | the counters move by the weight difference, or by one entry and its weight; the books of the shard stay right by the same drift |
| `ShardedMap.Shard.Remove` | pkg/storage/map/shard.go:88-104 | a hit gives back the entry's weight, a miss changes nothing; the books stay right by the same drift |
| `ShardedMap.Shard.Clear` | pkg/storage/map/shard.go:28-36 | empties the shard and leaves its books exact, whatever drift there was |
| `ShardedMap.Shard.Reweighed` | pkg/model/payload.go:15-18 | a payload change alone moves the drift of the books by the change of the weight |
| `ShardedMap.Map.RealMem` | pkg/storage/map/map.go:129-136 | stores and returns the sum of the shard counters |
| `ShardedMap.Map.RealLen` | pkg/storage/map/map.go:116-123 | stores and returns the sum of the shard lengths |
| `ShardCounters.Conservation` | pkg/storage/map/shard.go:28-104 | in every interleaving counters plus what is owed by operations in flight equal the truth up to what the last Clear overlooked; at rest they are exact if and only if that was nothing |
| `ShardCounters.EveryStateInv` | pkg/storage/map/shard.go:28-104 | the invariant behind it holds in every state of every run |
| `ShardCounters.NoClearNoStale` | pkg/storage/map/shard.go:54-104 | without Clear nothing is ever overlooked |
| `ShardCounters.SetAlone` | pkg/storage/map/shard.go:54-66 | uninterrupted, the steps of an insertion do what `ShardedMap.Shard.Set` does at once |
| `ShardCounters.RemoveAlone` | pkg/storage/map/shard.go:88-104 | the same for a removal |
| `ShardCounters.ClearCanOvertake` | pkg/storage/map/shard.go:28-36 | a run in which Clear leaves a count on an empty shard with no operation in flight |
| `Balancer.Balance.constructor` | pkg/storage/lru/balancer.go:75-82 | registering every shard gives each its own list and its place in the ranking |
| `Balancer.Balance.Push` | pkg/storage/lru/balancer.go:86-88 | the entry's new node is at the front of its shard's list and the entry knows it |
| `Balancer.Balance.MostLoaded` | pkg/storage/lru/balancer.go:100-106 | the shard at that rank, and failure exactly past the ranking |
| `Balancer.Balance.FindVictim` | pkg/storage/lru/balancer.go:108-124 | the back of the own list, else of the right neighbour's, else of the left one's unless that is shard 0; each case over the last node of that list |
| `Balancer.Balance.MemIsOwnSize` | pkg/storage/lru/balancer.go:52-58 | the balancer counts 32 bytes for itself and 48 for each shard |
| `Balancer.Balance.Rebalance` | pkg/storage/lru/balancer.go:69-72 | the ranking becomes its own stable descending sort, so a heaviest shard is in front |
| `Storage.InMemoryStorage.constructor` | pkg/storage/lru/storage.go:80-108 | an empty storage satisfies the representation invariant |
| `Storage.InMemoryStorage.Get` | pkg/storage/lru/storage.go:141-149 | hits exactly on key and fingerprint, changes no lookup, and makes the entry the most recently used |
| `Storage.InMemoryStorage.Set` | pkg/storage/lru/storage.go:153-189 | refines a plain map: true exactly on a hit of key and fingerprint, when the memory counted and the balancer's own size are together below the threshold, or on a frequency no less than the victim's; after true the key holds the new payload, or the resident one if the comparison calls them equal, and is the last used; after false it is absent; no other key changes; the use is counted. A hit leaves items and counter and adds the weight change to the drift; otherwise the counter gives back what the key held and takes what came in, and the drift stays |
| `Storage.InMemoryStorage.ShortOfMemoryIff` | pkg/storage/lru/storage.go:204-219 | memory is short exactly when the map's memory and the balancer's own size reach the threshold together |
| `Storage.InMemoryStorage.VictimRanks` | pkg/storage/lru/balancer.go:108-124 | the victim of a newcomer is the least recently used other resident of its shard; without one, of the right neighbour; without one there either, of the left neighbour unless that is shard 0; else there is none |
| `Storage.InMemoryStorage.Remove` | pkg/storage/lru/storage.go:191-194 | the resident leaves map, list and counters together, and frees its weight |
| `Storage.InMemoryStorage.Touch` | pkg/storage/lru/storage.go:226-228 | the entry moves to the front and becomes the last used; no lookup changes |
| `Storage.InMemoryStorage.Update` | pkg/storage/lru/storage.go:231-234 | payloads swap, the entry moves to the front, the weight change becomes drift |
| `Storage.InMemoryStorage.Repay` | pkg/storage/lru/refresher.go:117-117 | a payload stored in a resident changes neither index nor order, its weight change becomes drift |
| `Storage.InMemoryStorage.RealMem` | pkg/storage/lru/storage.go:208-210 | the sum of the shard counters, leaving every lookup as it was |
| `Storage.InMemoryStorage.VictimIsLeastRecent` | pkg/storage/lru/balancer.go:108-112 | the back of a non-empty shard's list is its least recently used resident |
| `Storage.InMemoryStorage.DroppedOk` | pkg/storage/lru/storage.go:191-194 | map, lists, counters and recency order stay in step when an entry leaves |
| `Storage.InMemoryStorage.BumpedOk` | pkg/storage/lru/storage.go:226-234 | the same when an entry is used and its weight may have changed |
| `Storage.InMemoryStorage.JoinedOk` | pkg/storage/lru/storage.go:183-188 | the same when an entry comes in |
| `Storage.InMemoryStorage.OthersKept` | pkg/storage/lru/storage.go:141-194 | an operation on one shard leaves every other shard in order |
| `Storage.InMemoryStorage.BookedOverItems` | pkg/storage/map/shard.go:54-104 | in every valid storage each shard's counter is the weight of its items up to its drift |
| `Storage.InMemoryStorage.Clear` | pkg/storage/lru/storage.go:128-132 | afterwards no key is found, and every shard's books are exact with no drift |
| `Evictor.Evict.EvictPass` | pkg/storage/lru/evictor.go:112-128 | one pass removes exactly positions 0, 2, 4, … of the list until the list ends or memory fits, and keeps the others in order; it stops no later: with the last entry it took memory would not fit; lookups in other shards stay |
| `Evictor.SkimmedStep` | pkg/storage/lru/evictor.go:114-127 | removing at an offset that advances after each removal skips every other element |
| `Evictor.SkimmedIs` | pkg/storage/lru/evictor.go:112-128 | after k removals exactly the even ones of the first 2k positions are gone |
| `Evictor.SkimmedOrder` | pkg/storage/lru/evictor.go:112-128 | what is left keeps its order |
| `Evictor.Evict.EvictUntilWithinLimit` | pkg/storage/lru/evictor.go:94-131 | with a positive threshold above the bound of the drift, exact counters above all, it ends below the threshold, only takes entries out, and no more than needed: with one of them back memory would not fit; it reports exactly the drops in length and memory; at most fatShards rounds per evicted entry when no counter exceeds its residents' weight, at most twice as many otherwise |
| `Evictor.Evict.EvictAtMost` | pkg/storage/lru/evictor.go:94-131 | cut off after any number of rounds, from any valid state, whatever the drift: it only takes entries out, no more than needed, and reports exactly the drops; once it had more rounds than `MostRounds` allows, it is below the threshold or stuck; if stuck before, it takes out nothing and stays stuck |
| `Evictor.Evict.Round` | pkg/storage/lru/evictor.go:96-128 | a round visits the next rank, behind the fat ones the front of the stable descending sort, a heaviest shard; that shard and no other loses every other entry until memory fits, the last one taken needed; a stuck state stays stuck; the drops reported are exact |
| `Evictor.Evict.EvictFrom` | pkg/storage/lru/evictor.go:103-128 | the visit at a rank skims the shard at that rank and touches no other, keeps the ranking, and takes nothing if and only if the ranking ends there or that shard is empty |
| `Evictor.Evict.SweptBelowBound` | pkg/storage/lru/evictor.go:96-110 | when all fat shards of a ranking in order are empty, memory is at most `Drift.Bound`: the excess of every shard, or the level where that leaves room for an entry |
| `Drift.LevelIff` | pkg/storage/lru/evictor.go:96-110 | the level is the one number that fewer shards exceed than are fat, while at least as many reach it |
| `EvictorRuns.StuckAtBound` | pkg/storage/lru/evictor.go:96-131 | for every drift, number of fat shards and threshold up to the bound there is a storage, made by sets, removals and two rebalances, with exactly that drift and memory equal to the bound, on which the loop is stuck; only a threshold too small for any entry to come in is excluded |
| `EvictorRuns.TakesNothing` | pkg/storage/lru/storage.go:153-189 | with such a threshold an empty storage stays empty, and its drift zero |
| `Drift.BoundOfAllFat` | pkg/storage/lru/evictor.go:96-110 | when every shard is fat the bound is the whole excess |
| `Drift.BoundOfNoExcess` | pkg/storage/lru/evictor.go:96-110 | when no shard counts too much the bound is not positive |
| `EvictorRuns.StuckAfterUpdate` | pkg/storage/lru/evictor.go:96-131 | for any number of shards and of fat ones below it, a storage is stuck whose fat shards each freed at least an entry's size, although evicting all that is left would do |
| `Evictor.Evict.NoPhantomsEvictable` | pkg/storage/lru/evictor.go:96-131 | counters that never exceed the residents' weight are evictable |
| `Evictor.Evict.EvictableIff` | pkg/storage/lru/evictor.go:96-131 | when every shard is fat, the evictable drifts are exactly those that `StuckAboveLimit` does not catch, so the loop ends if and only if threshold plus total drift is positive |
| `Evictor.Evict.Rebalance` | pkg/storage/lru/evictor.go:98-101 | afterwards the ranking is in descending order of memory; totals stay |
| `Evictor.Evict.FrontHasEntries` | pkg/storage/lru/evictor.go:98-108 | without phantom memory the front of a fresh ranking has entries as long as memory is positive |
| `Evictor.Evict.StuckAboveLimit` | pkg/storage/lru/evictor.go:96-131 | once updates shrank residents by the threshold or more, memory is over the threshold in every valid state |
| `Wire.U32RoundTrip` | pkg/model/payload.go:76-77 | four little-endian bytes give the number back modulo 2^32 |
| `Wire.ReadU64At` | pkg/model/to_bytes.go:71-76 | eight little-endian bytes give the number back modulo 2^64 |
| `Wire.LowByteFirst` | pkg/model/to_bytes.go:20-40 | numbers are written lowest byte first |
| `Wire.ReadFieldAt` | pkg/model/payload.go:156-159 | a length-prefixed field is read whole, in bounds, and the offset is behind it |
| `PayloadCodec.Pack` | pkg/model/payload.go:50-132 | the precomputed total is exactly what is written: the buffer is full and never grew |
| `PayloadCodec.Unpack` | pkg/model/payload.go:144-219 | the nested decoding loops compute the format's reader, with every out-of-range slice an explicit outcome |
| `PayloadCodec.RoundTrip` | pkg/model/payload.go:45-219 | unpacking a packed message gives back path, query, both header lists, status and body for all 32-bit lengths, in bounds |
| `PayloadCodec.Layout` | pkg/model/payload.go:45-139 | the fields of a packed message and their order |
| `PayloadCodec.HeaderAppended` | pkg/model/payload.go:85-126 | each header follows the ones before it, length-prefixed key and value, a response header with a count of one in the middle |
| `PayloadCodec.ManyValues` | pkg/model/payload.go:186-207 | a response header with several values is read as one pair for each |
| `PayloadCodec.EmptyIff` | pkg/model/payload.go:144-159 | only an empty payload is the error |
| `PayloadCodec.BodyIsTheRest` | pkg/model/payload.go:209-211 | whatever the body's length field says, the body read is the rest of the buffer |
| `EntryCodec.ToBytes` | pkg/model/to_bytes.go:13-54 | writes the record format |
| `EntryCodec.PanicsIffShort` | pkg/model/to_bytes.go:56-93 | decoding runs out of bounds exactly on contents too short for their rule length, the 40 fixed bytes or their payload length |
| `EntryCodec.RoundTrip` | pkg/model/to_bytes.go:13-93 | every field of a record comes back, whatever follows it; without its rule, the error |
| `EntryCodec.Layout` | pkg/model/to_bytes.go:13-54 | the fields of a record and where they stand |
| `EntryCodec.Restored` | pkg/model/to_bytes.go:87-92 | an entry comes back unchanged if and only if it had a payload; a missing one comes back empty |
| `DumpFile.DumpShard` | pkg/storage/lru/dumper.go:91-112 | the write loop produces the concatenation of the frames and counts them |
| `DumpFile.LoadFile` | pkg/storage/lru/dumper.go:190-226 | the read loop reports what the file format means, failures and crashes included |
| `DumpFile.LoadOfDump` | pkg/storage/lru/dumper.go:91-226 | dump then load is the identity on records, without a failure, unless checksums are asked for that were not written |
| `DumpFile.LoadOfAnyDump` | pkg/storage/lru/dumper.go:213-218 | records whose rule is gone are one failure each, all others are restored in order |
| `DumpFile.FrameLayout` | pkg/storage/lru/dumper.go:94-112 | a frame is length, checksum and contents |
| `DumpFile.RecordFramed` | pkg/storage/lru/dumper.go:93-96 | a record is framed with its checksum, or with zero where none are written |
| `DumpFile.RecordsFirst` | pkg/storage/lru/dumper.go:190-226 | whole records are restored in order in front of any tail, and the tail is read as if alone |
| `DumpFile.Truncated` | pkg/storage/lru/dumper.go:192-207 | a file cut anywhere gives exactly the records whole before the cut, and one failure unless the cut is between two records |
| `DumpFile.DamageStaysLocal` | pkg/storage/lru/dumper.go:208-212 | a record that fails its checksum is the only one lost |
| `DumpFile.CrashIff` | pkg/storage/lru/dumper.go:208-218 | a record crashes the load if and only if it passes the checksum, or none is asked for, and its contents are too short for their own lengths |
| `DumpFile.UncheckedDamageCrashes` | pkg/storage/lru/dumper.go:213-218 | without the check, contents too short for their own lengths end the load in a panic, after the records before them |
| `Reload.LoadDump` | pkg/storage/lru/dumper.go:190-226 | loading a dump into an empty storage with room gives for every key what its record says and nothing else, checksums or not |
| `Reload.RecordsTell` | pkg/storage/lru/dumper.go:91-112 | for the records of a shard that are the lookups of that shard |
| `KeySort.LessBytes` | pkg/sort/key_value.go:4-18 | the scan computes lexicographic order |
| `KeySort.LessTrichotomy` | pkg/sort/key_value.go:4-18 | exactly one of less, equal and greater holds |
| `KeySort.LessTransitive` | pkg/sort/key_value.go:4-18 | the order is transitive |
| `KeySort.LessIff` | pkg/sort/key_value.go:4-18 | a is less than b exactly when they agree up to a place where a ends and b does not, or has the smaller byte |
| `KeySort.KVSlice` | pkg/sort/key_value.go:21-27 | the first n pairs are insertion-sorted in place, the rest of the array is untouched |
| `KeySort.SortedCharacterised` | pkg/sort/key_value.go:21-27 | the sort is stable: its result is the one sequence in key order that keeps the pairs of each key as they came |
| `KeySort.SortedAgreeIff` | pkg/sort/key_value.go:21-27 | two inputs sort alike if and only if they differ by a reordering that keeps same-key pairs in order |
| `QueryPairs.PairSlice.Put` | pkg/model/query.go:45-56 | writing pair n within length, within capacity, or by growing sets exactly that pair |
| `QueryPairs.Tokenize` | pkg/model/query.go:33-97 | the one-pass tokenizer yields the query split on ampersands, its empty first segment dropped, each segment cut at its first equals sign; it panics exactly on the queries named above |
| `QueryPairs.SplitsOff` | pkg/model/query.go:33-97 | a segment without ampersands is split off whole |
| `QueryPairs.PairsOf` | pkg/model/query.go:33-97 | each segment up to an ampersand gives its pair, a first one that is empty or a lone equals sign gives none |
| `QueryPairs.CutIs` | pkg/model/query.go:47-77 | a segment is cut at its first equals sign |
| `QueryPairs.TrimmedIs` | pkg/model/query.go:17-18 | trimming takes off the question marks in front, all of them and nothing else |
| `QueryPairs.FilteredKeeps` | pkg/model/query.go:147-172 | a pair is kept, in its place, exactly when some allowed name is a prefix of its key |
| `QueryPairs.SegmentEnds` | pkg/model/query.go:34-62 | at the end of a segment the cursor's slices are the segment's pair |
| `QueryPairs.FilterAndSortInPlace` | pkg/model/query.go:147-172 | compaction in place equals filtering by allowed prefix, and the rest is the stable sort |
| `QueryPairs.ParseFilterAndSortQuery` | pkg/model/query.go:17-123 | trimmed, tokenized, filtered and sorted, whatever the pooled slice held before |
| `CacheKeys.GetFilteredAndSortedKeyHeaders` | pkg/model/header.go:25-39 | the headers with a value, sorted; one and the same result for every order of visiting the map |
| `CacheKeys.AnyOrderSorts` | pkg/model/header.go:9-39 | any two visiting orders sort to the same pairs |
| `CacheKeys.CalculateKeys` | pkg/model/keys.go:21-69 | key and fingerprint are hashes of the concatenated pairs, the shard is the key modulo 2048 |
| `CacheKeys.KeyBytesGrow` | pkg/model/keys.go:37-44 | a query in front adds its key and value in front, a header behind adds them behind, nothing gives no bytes |
| `CacheKeys.ValueTells` | pkg/model/keys.go:37-44 | another value of one query pair or one header changes the key bytes |
| `CacheKeys.HeaderTells` | pkg/model/keys.go:21-69 | requests that differ in the value of one configured header, or in having it, have different canonical bytes |
| `CacheKeys.FingerprintReads` | pkg/model/keys.go:57-62 | the fingerprint is the low word of the 128-bit hash and then the high one, little-endian |
| `CacheKeys.NewEntryWithPayload` | pkg/model/entry.go:69-89 | an entry carries the keys of its request's canonical bytes and the packed message |
| `CacheKeys.CanonicalIs` | pkg/model/keys.go:21-69 | the canonical bytes are the same for every visiting order of the headers |
| `CacheKeys.SameCanonical` | pkg/model/keys.go:21-69 | queries whose filtered pairs differ only by a reordering that keeps same-key pairs in order have equal canonical bytes |
| `CacheKeys.BoundariesVanish` | pkg/model/keys.go:37-44 | moving bytes between a key and its value leaves the hashed bytes the same |
| `Upstream.BackendSlot.Throttle` | pkg/upstream/slot.go:303-335 | the truncated arithmetic gives the origin rate less that many tenths, up to nine |
| `Upstream.BackendSlot.Unthrottle` | pkg/upstream/slot.go:338-362 | one tenth more, at most the origin rate, and one throttle less |
| `Upstream.BackendSlot.CheckErrRate` | pkg/upstream/monitor.go:110-149 | the decision by error rate, with both readings equal |
| `Upstream.BackendSlot.RateReads` | pkg/upstream/slot.go:364-372 | comparing the quotient with a tenth is comparing the counters crosswise |
| `Upstream.RealThrottle` | pkg/upstream/slot.go:313-320 | the rate formula over exact reals equals the integer one |
| `Upstream.QuarantinedByErrRateIff` | pkg/upstream/monitor.go:124-140 | exactly which error rates quarantine, one tenth among them |
| `Upstream.QuarantineOutcome` | pkg/upstream/monitor.go:68-78 | cured from six good probes in a row on, killed on six bad ones in a row after more than 3600 seconds, else left alone |
| `Upstream.DeadOutcome` | pkg/upstream/monitor.go:90-100 | sick again from six good probes in a row on, buried on six bad ones in a row after more than 86400 seconds, else left alone |
| `Upstream.IdleOutcome` | pkg/upstream/monitor.go:49-57 | quarantined from the sixth bad probe in a row on |
| `Upstream.ErrRateOutcome` | pkg/upstream/monitor.go:110-149 | exactly which two readings quarantine, throttle and unthrottle, and to which limit |
| `Cluster.EverySlotKept` | pkg/upstream/slot.go:110-439 | timestamps, probe counts, providers and rates satisfy their invariant in every state of every interleaving |
| `Cluster.OnlyTheseTransitions` | pkg/upstream/slot.go:207-300 | only healthy to sick, sick to healthy, sick to dead and dead to sick occur; sickedAt is set iff not healthy, killedAt iff dead |
| `Cluster.TransitionsByTasks` | pkg/upstream/monitor.go:42-149 | health changes, and a slot leaves the cluster, only when the task for it acts |
| `Cluster.QuarantineTask` | pkg/upstream/monitor.go:62-81 | in every run a quarantine task that acts on a sick slot cures or kills it exactly on the numbers above |
| `Cluster.DeadTask` | pkg/upstream/monitor.go:83-103 | the same for a dead-check task, which resurrects or buries |
| `Cluster.IdleTask` | pkg/upstream/monitor.go:42-60 | the same for an idle check, which quarantines |
| `Lifecycle.FromHealthyToBuried` | pkg/upstream/monitor.go:42-103 | a run in which a slot goes from healthy through sick and dead to buried |
| `Cluster.CureAfterSixProbes` | pkg/upstream/monitor.go:62-81 | a cure follows at least six good probes in a row since the slot became sick |
| `Cluster.BurialAfter25Hours` | pkg/upstream/monitor.go:83-103 | only dead slots are buried, more than 25 hours after they last became sick and after six failed probes in a row |
| `Cluster.OneProvider` | pkg/upstream/slot.go:387-439 | at most one provider of a slot is not cancelled, the one whose cancel function is at hand |
| `Cluster.GaugeIsExact` | pkg/upstream/slot.go:400-416 | healthyBackends equals the providers started and not exited, and is never negative |
| `Cluster.GaugeAtMostSlots` | pkg/upstream/slot.go:400-416 | it is at most the number of slots once no cancelled provider is running |
| `Cluster.LimitAlwaysBounded` | pkg/upstream/slot.go:303-362 | however late renewals run, throttles stay in 0..9, the limit is at most the origin rate, and at least a tenth of it once there is a provider; the same for every renewal pending |
| `Cluster.LimitFormula` | pkg/upstream/slot.go:303-362 | with prompt renewals the limit is floor(R(10-k0)/10) + (k0-k) floor(R/10); it never exceeds the throttled share, and at k = 0 it is R if and only if ten divides R or nothing was throttled |
| `Cluster.EverySlotOnCourse` | pkg/upstream/slot.go:303-362 | the invariant behind the formula |
| `Service.ServedIff` | pkg/upstream/slot.go:387-439 | in every run, once nothing is pending, a slot has a live provider if and only if another limit than the one in force was asked for since it was last closed |
| `Service.EverySlotServedOrAsked` | pkg/upstream/slot.go:387-439 | the invariant behind it, with renewals pending |
| `Service.OnlyHealthyServed` | pkg/upstream/slot.go:231-439 | when renewals are prompt and error-rate tasks act on healthy slots, a slot that is not healthy has no live provider and none on its way |
| `Service.HealthyUnservedIff` | pkg/upstream/slot.go:391-393 | in such runs a healthy slot with nothing pending has no live provider if and only if its last cure, or the start, found the limit it asks for in force and nothing changed it since |
| `Service.InitialQuarantine` | pkg/upstream/cluster.go:117-142 | a slot that fails its first probe is sick and unserved, and its first renewal is pending if and only if it had not run before |
| `Service.InitialQuarantineServedIff` | pkg/upstream/cluster.go:117-142 | while it stays sick and no error-rate task acts on it, it gets a live provider if and only if that renewal was pending, unless its origin rate is zero |
| `Service.SickSlotMayServe` | pkg/upstream/cluster.go:117-142 | a run in which a slot quarantined at the start gets a live provider |
| `Service.LateTaskServesSick` | pkg/upstream/monitor.go:110-149 | a run in which an error-rate task acts on a slot that another one has quarantined, and the sick slot gets a live provider |
| `Service.LateRenewalServesSick` | pkg/upstream/slot.go:387-421 | a run, every error-rate task acting on a healthy slot, in which a late renewal starts a provider on a slot quarantined meanwhile |
| `Service.RelapseLosesProvider` | pkg/upstream/slot.go:391-393 | a run, renewals prompt and every task acting on what it had found, in which a slot relapses on the limit of its cure and is healthy without a provider |
| `Service.LateRenewalLosesRate` | pkg/upstream/slot.go:331-358 | a run in which overtaking renewals leave an unthrottled slot on 90 of 100 |

## Left out

- HTTP server, controllers, metrics, liveness probe, configuration loading, locale tables, timers and loggers: plumbing without a property of its own; one clock is handed to each step.
- The cached clock: it lags the real one slightly, and the model uses one clock for both.
- xxh3, CRC32 and the sketch's 64-bit mixer are parameters; nothing is claimed about collisions of keys.
- Floating point: rates and thresholds are exact rationals and reals, and a configured rate is not negative.
- 64-bit wrap-around of memory totals, weights and list lengths; the sketch's 32-bit words do wrap in the model.
- The doorkeeper's bit packing: a bit array of capacity bits stands for words, and its mask for a remainder.
- fasthttp: requests and responses are byte strings and lists of pairs, header order is as iterated, and `Header.Len()` is the number of headers iterated.
- Aliasing of payload and key slices with buffers the pools hand out again, and the pools themselves.
- Concurrent Set, Get and Remove across map and lists: agreement of the two is a sequential property, with Remove called on residents; only the shard counters are modelled under interleaving.
- `Storage.InMemoryStorage.Clear`: it empties maps and counters but not the LRU lists, so the agreement of map and lists ends there, and the theorems about lists and eviction speak of runs without it; the counters and their books hold through it.
- `RingList.List.Sort`: the weights are read once for the whole sort, where the program reads each shard's counter anew at every comparison.
- `Evictor.Evict.EvictUntilWithinLimit`: when the bound reaches the threshold some storage with that drift is stuck and another may not be; which one a given storage is, `Evictor.Evict.EvictAtMost` decides by running, within a known number of rounds.
- The random choices: the sampled refresh, `Rand`, and the order in which shards register.
- `Storage.InMemoryStorage.Repay`: the HTTP fetch of a refresh is not part of this model, only the payload it stores.
- Cancelling the whole cluster's context, and what a provider does with a slot it hands out.
- Write errors while dumping, compression, directories and versions of dump files, and cancellation of a load.
- `CacheKeys.NewEntryWithPayload`: rule matching by path is not modelled, and neither is the variant for live requests, which filters and sorts pairs that fasthttp has parsed.
