/** pkg/storage/lru/balancer.go: one LRU list per shard and the ranking of shards by memory. */
module Balancer {
  import opened Wrappers
  import opened Positions
  import opened RingSort
  import opened RingList
  import opened CacheEntry
  import opened ShardedMap

  type Node = Element<Entry>

  class ShardNode {
    const shard: Shard
    const lruList: List<Entry>
    var memListElem: Element?<ShardNode>

    constructor (shard: Shard, lruList: List<Entry>)
      ensures this.shard == shard && this.lruList == lruList
    {
      this.shard, this.lruList := shard, lruList;
      memListElem := null;
    }
  }

  /** The node of a shard: an empty list of its own, and a place at the back of the ranking. */
  method Register(list: List<ShardNode>, shard: Shard, id: nat) returns (n: ShardNode)
    requires list.Valid()
    modifies list, list.root, list.Nodes
    ensures list.Valid() && fresh(n) && fresh(n.lruList) && fresh(n.lruList.root)
    ensures n.shard == shard && n.lruList.Valid() && n.lruList.Nodes == [] && n.lruList.label_ == id
    ensures n.memListElem != null && fresh(n.memListElem) && n.memListElem.value == Some(n)
    ensures list.Nodes == old(list.Nodes) + [n.memListElem]
  {
    var lru := new List<Entry>(id);
    n := new ShardNode(shard, lru);
    var elem := list.PushBack(n);
    n.memListElem := elem;
  }

  /** What a balancer of `n` shards counts for itself: 32 bytes, and 48 per shard. */
  function OwnSize(n: nat): int {
    32 + 48 * n
  }

  /** unsafe.Sizeof of a pointer, and of the fixed parts of `Balance` and `ShardNode`. */
  const PTR_BYTES: int := 8
  const BALANCE_FIXED: int := 32
  const SHARD_NODE: int := 24

  class Balance {
    const shards: seq<ShardNode>
    const memList: List<ShardNode>

    /** Each list is labelled with its shard, so the lists are pairwise different. */
    ghost predicate ListsApart() {
      forall i {:trigger shards[i].lruList} :: 0 <= i < |shards| ==> shards[i].lruList.label_ == i
    }

    /** memList ranks every shard node exactly once. */
    ghost predicate Ranked()
      reads memList, memList.root, memList.Nodes, shards
    {
      && memList.Valid() && |memList.Nodes| == |shards|
      && (forall e: Element<ShardNode> :: e in memList.Nodes ==>
            e.Value() in shards && e.Value().memListElem == e)
      && (forall n: ShardNode :: n in shards ==>
            n.memListElem != null && n.memListElem in memList.Nodes && n.memListElem.value == Some(n))
    }

    constructor (map_: Map)
      requires forall i :: 0 <= i < |map_.shards| ==> map_.shards[i].id == i
      ensures |shards| == |map_.shards| && ListsApart() && Ranked()
      ensures fresh(memList) && fresh(memList.root) && fresh(set e | e in memList.Nodes)
      ensures forall i :: 0 <= i < |shards| ==>
        && fresh(shards[i]) && fresh(shards[i].lruList) && fresh(shards[i].lruList.root)
        && shards[i].shard == map_.shards[i] && shards[i].lruList.Valid() && shards[i].lruList.Nodes == []
    {
      var list := new List<ShardNode>(-1);
      var made: seq<ShardNode> := [];
      for id := 0 to |map_.shards|
        invariant fresh(list) && fresh(list.root) && fresh(set e | e in list.Nodes) && list.Valid()
        invariant |made| == id == |list.Nodes|
        invariant forall i {:trigger made[i]} :: 0 <= i < id ==>
          && fresh(made[i]) && fresh(made[i].lruList) && fresh(made[i].lruList.root)
          && made[i].shard == map_.shards[i] && made[i].lruList.Valid() && made[i].lruList.Nodes == []
             && made[i].lruList.label_ == i
          && made[i].memListElem == list.Nodes[i] && list.Nodes[i].value == Some(made[i])
      {
        var n := Register(list, map_.shards[id], id);
        made := made + [n];
      }
      forall e: Element<ShardNode> | e in list.Nodes ensures e.Value() in made && e.Value().memListElem == e {
        var i :| 0 <= i < |list.Nodes| && list.Nodes[i] == e;
        assert made[i].memListElem == e;
      }
      shards, memList := made, list;
    }

    function Mem(): int
      reads memList
    {
      BALANCE_FIXED + |shards| * PTR_BYTES + |shards| * PTR_BYTES + memList.len * PTR_BYTES
      + if |shards| > 0 then SHARD_NODE * |shards| else 0
    }

    lemma MemIsOwnSize()
      requires Ranked()
      ensures Mem() == OwnSize(|shards|)
    {
    }

    ghost predicate ListOk(i: nat)
      requires i < |shards|
      reads shards[i].lruList, shards[i].lruList.root, shards[i].lruList.Nodes
    {
      shards[i].lruList.Valid()
    }

    method Push(entry: Entry)
      requires entry.shard < |shards| && ListOk(entry.shard)
      modifies shards[entry.shard].lruList, shards[entry.shard].lruList.root, shards[entry.shard].lruList.Nodes
      modifies entry`lruListElem
      ensures ListOk(entry.shard)
      ensures fresh(entry.lruListElem) && entry.lruListElem.value == Some(entry)
      ensures shards[entry.shard].lruList.Nodes == [entry.lruListElem] + old(shards[entry.shard].lruList.Nodes)
    {
      var elem := shards[entry.shard].lruList.PushFront(entry);
      entry.lruListElem := elem;
    }

    method Update(existing: Entry)
      requires existing.shard < |shards| && ListOk(existing.shard)
      requires existing.lruListElem != null && existing.lruListElem in shards[existing.shard].lruList.Nodes
      modifies shards[existing.shard].lruList, shards[existing.shard].lruList.root, shards[existing.shard].lruList.Nodes
      ensures ListOk(existing.shard)
      ensures shards[existing.shard].lruList.Nodes
         == Fronted(old(shards[existing.shard].lruList.Nodes), existing.lruListElem)
    {
      shards[existing.shard].lruList.MoveToFront(existing.lruListElem);
    }

    method Remove(shardKey: nat, el: Element?<Entry>)
      requires shardKey < |shards| && ListOk(shardKey)
      requires el != null && el in shards[shardKey].lruList.Nodes
      modifies shards[shardKey].lruList, shards[shardKey].lruList.root, shards[shardKey].lruList.Nodes
      ensures ListOk(shardKey)
      ensures shards[shardKey].lruList.Nodes == Without<Node>(old(shards[shardKey].lruList.Nodes), el)
    {
      shards[shardKey].lruList.Remove(el);
    }

    method MostLoaded(offset: int) returns (node: ShardNode?, found: bool)
      requires Ranked()
      ensures found == (0 <= offset < |shards|)
      ensures if found then node == memList.Nodes[offset].Value() && node in shards else node == null
    {
      var el, ok := memList.Next(offset);
      if !ok {
        return null, false;
      }
      return el.Value(), true;
    }

    /** The LRU order of shard `i`; none outside the range of shards. */
    ghost function NodesAt(i: int): seq<Node>
      reads set j | 0 <= j < |shards| && j == i :: shards[j].lruList
    {
      if 0 <= i < |shards| then shards[i].lruList.Nodes else []
    }

    /** The victim for shard `i`: its back, else the right neighbour's, else the left neighbour's;
        shard 0 never serves as a left neighbour. */
    method FindVictim(shardKey: nat) returns (victim: Option<Entry>)
      requires shardKey < |shards|
      requires forall j {:trigger shards[j].lruList} :: 0 <= j < |shards| ==> shards[j].lruList.Valid()
      ensures victim == Victim(NodesAt(shardKey), NodesAt(shardKey + 1),
                               if shardKey - 1 > 0 then NodesAt(shardKey - 1) else [])
      ensures var own, right, left := NodesAt(shardKey), NodesAt(shardKey + 1), NodesAt(shardKey - 1);
        && (own != [] ==> victim == own[|own| - 1].value)
        && (own == [] && right != [] ==> victim == right[|right| - 1].value)
        && (own == right == [] && left != [] && shardKey >= 2 ==> victim == left[|left| - 1].value)
        && (own == right == [] && (left == [] || shardKey < 2) ==> victim.None?)
    {
      var el := shards[shardKey].lruList.Back();
      if el != null {
        return Some(el.Value());
      }
      if |shards| > shardKey + 1 {
        el := shards[shardKey + 1].lruList.Back();
        if el != null {
          return Some(el.Value());
        }
      }
      if shardKey - 1 > 0 {
        el := shards[shardKey - 1].lruList.Back();
        if el != null {
          return Some(el.Value());
        }
      }
      return None;
    }

    /** The ranking weight of a node of memList, from a reading of every shard's memory. */
    function ByMem(mems: seq<int>): Element<ShardNode> -> int {
      (e: Element<ShardNode>) => if e.value.Some? && e.value.value.shard.id < |mems|
        then mems[e.value.value.shard.id] else 0
    }

    /** memList becomes the stable descending sort of itself, so its front is a heaviest shard. */
    method Rebalance(map_: Map)
      requires Ranked()
      requires |map_.shards| == |shards|
      requires forall i :: 0 <= i < |shards| ==> map_.shards[i].id == i && shards[i].shard == map_.shards[i]
      modifies memList, memList.root, memList.Nodes
      ensures Ranked()
      ensures memList.Nodes == Sorted(old(memList.Nodes), ByMem(Mems(map_.shards)), DESC)
      ensures |shards| > 0 ==> forall i :: 0 <= i < |shards| ==>
        memList.Nodes[0].Value().shard.mem >= map_.shards[i].mem
    {
      var mems := Mems(map_.shards);
      ghost var was := memList.Nodes;
      memList.Sort(DESC, ByMem(mems));
      SortedMembers(was, ByMem(mems), DESC);
      hide Sorted;
      forall i | 0 <= i < |shards| ensures memList.Nodes[0].Value().shard.mem >= map_.shards[i].mem {
        HeaviestFirst(map_, was, i);
      }
    }

    lemma HeaviestFirst(map_: Map, was: seq<Element<ShardNode>>, i: nat)
      requires Ranked() && i < |shards| == |map_.shards|
      requires forall i :: 0 <= i < |shards| ==> map_.shards[i].id == i && shards[i].shard == map_.shards[i]
      requires memList.Nodes == Sorted(was, ByMem(Mems(map_.shards)), DESC)
      ensures memList.Nodes[0].Value().shard.mem >= map_.shards[i].mem
    {
      SortedIsOrdered<Element<ShardNode>>(was, ByMem(Mems(map_.shards)), DESC);
      hide Sorted;
      var first, elem := memList.Nodes[0], shards[i].memListElem;
      assert elem in memList.Nodes;
      var j :| 0 <= j < |memList.Nodes| && memList.Nodes[j] == elem;
      assert Below(DESC, ByMem(Mems(map_.shards))(first), ByMem(Mems(map_.shards))(elem));
      assert first.Value() in shards;
    }
  }

  /** The value at the back of a list, if it has one. */
  ghost function Back(nodes: seq<Node>): Option<Entry> {
    if nodes == [] then None else nodes[|nodes| - 1].value
  }

  ghost function Victim(own: seq<Node>, right: seq<Node>, left: seq<Node>): Option<Entry> {
    if own != [] then Back(own) else if right != [] then Back(right) else Back(left)
  }

  ghost function Fronted(nodes: seq<Node>, e: Node): seq<Node>
    requires e in nodes
  {
    [e] + Without<Node>(nodes, e)
  }
}
