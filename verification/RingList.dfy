/** pkg/list/doubly_linked.go: a circular doubly linked list closed through a sentinel. */
module RingList {
  import opened Wrappers
  import opened Positions
  import opened RingSort

  class Element<T> {
    var next: Element?<T>
    var prev: Element?<T>
    /** The list the node was pushed on; `Remove` leaves it set. */
    const list: List?<T>
    const value: Option<T>
    /** For a sentinel, the list it closes. */
    ghost var closes: List?<T>

    constructor Sentinel()
      ensures next == this && prev == this && list == null && value == None
    {
      list, value, closes := null, None, null;
      next, prev := this, this;
    }

    constructor Node(v: T, l: List<T>)
      ensures list == l && value == Some(v)
    {
      list, value, closes := l, Some(v), null;
      next, prev := null, null;
    }

    function Value(): T
      requires value.Some?
    {
      value.value
    }
  }

  class List<T> {
    const root: Element<T>
    var len: int
    ghost var Nodes: seq<Element<T>>
    /** A label that tells lists apart; the balancer uses the shard index. */
    ghost const label_: int

    /** The node at position `i` of the ring through `nodes`; both ends are the sentinel. */
    ghost function At(nodes: seq<Element<T>>, i: int): Element<T> {
      if 0 <= i < |nodes| then nodes[i] else root
    }

    /** `next` and `prev` are mutually inverse and run through every node of `nodes` once and
        through the sentinel. */
    ghost predicate Ring(nodes: seq<Element<T>>)
      reads root, nodes
    {
      && root !in nodes && Distinct(nodes)
      && root.next == At(nodes, 0) && root.prev == At(nodes, |nodes| - 1)
      && (forall i {:trigger nodes[i].next} :: 0 <= i < |nodes| ==> nodes[i].next == At(nodes, i + 1))
      && (forall i {:trigger nodes[i].prev} :: 0 <= i < |nodes| ==> nodes[i].prev == At(nodes, i - 1))
    }

    /** Every node was pushed on this list and holds a value. */
    ghost predicate Own(nodes: seq<Element<T>>) {
      forall e :: e in nodes ==> e.list == this && e.value.Some?
    }

    ghost predicate Valid()
      reads this, root, Nodes
    {
      && len == |Nodes|
      && root.closes == this && root.list == null
      && Own(Nodes) && Ring(Nodes)
    }

    constructor (ghost label_: int)
      ensures Valid() && Nodes == [] && fresh(root) && this.label_ == label_
    {
      root := new Element<T>.Sentinel();
      len, Nodes := 0, [];
      this.label_ := label_;
      new;
      root.closes := this;
    }

    method Len() returns (n: int)
      requires Valid()
      ensures n == |Nodes|
    {
      n := len;
    }

    /** The links of a ring over `nodes` that passes by the node at `i`. */
    ghost predicate PassesBy(nodes: seq<Element<T>>, i: nat)
      requires i < |nodes|
      reads root, nodes
    {
      && root.next == At(nodes, if i == 0 then 1 else 0)
      && root.prev == At(nodes, if i == |nodes| - 1 then i - 1 else |nodes| - 1)
      && (forall j {:trigger nodes[j].next} :: 0 <= j < |nodes| && j != i ==>
            nodes[j].next == At(nodes, if j + 1 == i then i + 1 else j + 1))
      && (forall j {:trigger nodes[j].prev} :: 0 <= j < |nodes| && j != i ==>
            nodes[j].prev == At(nodes, if j == i + 1 then i - 1 else j - 1))
    }

    lemma RingWithout(nodes: seq<Element<T>>, e: Element<T>)
      requires root !in nodes && Distinct(nodes) && e in nodes && PassesBy(nodes, Position(nodes, e))
      ensures Ring(Without(nodes, e))
    {
      var i, rest := Position(nodes, e), Without(nodes, e);
      assert forall j {:trigger rest[j]} :: 0 <= j < |rest| ==> rest[j] == nodes[if j < i then j else j + 1];
    }

    /** Unlinks `e`; the ring runs through the other nodes in the same order. */
    method Detach(e: Element<T>, ghost nodes: seq<Element<T>>)
      requires Ring(nodes) && e in nodes
      modifies root`next, root`prev, set n | n in nodes && n != e
      ensures Ring(Without(nodes, e))
      ensures root.closes == old(root.closes)
    {
      ghost var i: int := Position(nodes, e);
      assert e.prev == At(nodes, i - 1) && e.next == At(nodes, i + 1);
      e.prev.next := e.next;
      e.next.prev := e.prev;
      hide Position, Without;
      RingWithout(nodes, e);
    }

    /** Links `e` in between the sentinel and the first node. */
    method LinkFront(e: Element<T>, ghost nodes: seq<Element<T>>)
      requires Ring(nodes) && e !in nodes && e != root
      modifies root`next, root`prev, e, nodes
      ensures Ring([e] + nodes)
      ensures root.closes == old(root.closes)
    {
      var at := root;
      e.prev := at;
      e.next := at.next;
      at.next.prev := e;
      at.next := e;
    }

    method PushFront(v: T) returns (e: Element<T>)
      requires Valid()
      modifies this, root, Nodes
      ensures Valid() && fresh(e) && e.value == Some(v)
      ensures Nodes == [e] + old(Nodes)
    {
      e := new Element<T>.Node(v, this);
      LinkFront(e, Nodes);
      len := len + 1;
      Nodes := [e] + Nodes;
    }

    method PushBack(v: T) returns (e: Element<T>)
      requires Valid()
      modifies this, root, Nodes
      ensures Valid() && fresh(e) && e.value == Some(v)
      ensures Nodes == old(Nodes) + [e]
    {
      e := new Element<T>.Node(v, this);
      var at := root.prev;
      e.prev := at;
      e.next := root;
      at.next := e;
      root.prev := e;
      len := len + 1;
      Nodes := Nodes + [e];
    }

    method Back() returns (e: Element?<T>)
      requires Valid()
      ensures e == if Nodes == [] then null else Nodes[|Nodes| - 1]
    {
      if len == 0 { return null; }
      e := root.prev;
    }

    /** A node that was already removed still carries `list`, so callers must pass a resident one. */
    method Remove(e: Element?<T>)
      requires Valid()
      requires e != null && e.list == this ==> e in Nodes
      modifies this, root, Nodes
      ensures Valid()
      ensures Nodes == if e != null && e.list == this then Without<Element<T>>(old(Nodes), e) else old(Nodes)
    {
      if e == null || e.list != this { return; }
      WithoutElements<Element<T>>(Nodes, e);
      Detach(e, Nodes);
      len := len - 1;
      Nodes := Without<Element<T>>(Nodes, e);
    }

    method MoveToFront(e: Element?<T>)
      requires Valid()
      requires e != null && e.list == this ==> e in Nodes
      modifies this, root, Nodes
      ensures Valid()
      ensures Nodes == if e != null && e.list == this then [e] + Without<Element<T>>(old(Nodes), e) else old(Nodes)
    {
      if e == null || e.list != this || len < 2 {
        assert e != null && e.list == this ==> Nodes == [e] + Without<Element<T>>(Nodes, e);
        return;
      }
      WithoutElements<Element<T>>(Nodes, e);
      ghost var rest := Without<Element<T>>(Nodes, e);
      Detach(e, Nodes);
      LinkFront(e, rest);
      Nodes := [e] + rest;
    }

    method Next(offset: int) returns (e: Element?<T>, ok: bool)
      requires Valid()
      ensures ok == (0 <= offset < |Nodes|)
      ensures e == if ok then Nodes[offset] else null
    {
      if offset < 0 || offset >= len {
        return null, false;
      }
      e := root.next;
      for i := 0 to offset
        invariant e == At(Nodes, i)
      {
        e := e.next;
      }
      ok := true;
    }

    /** Sorts the nodes by weight in place: the ring is cut, merge-sorted and closed again. */
    method Sort(ord: Order, weight: Element<T> -> int)
      requires Valid()
      modifies this, root, Nodes
      ensures Valid()
      ensures Nodes == Sorted(old(Nodes), weight, ord)
    {
      if len < 2 {
        return;
      }
      var head := root.next;
      root.prev.next := null;
      head.prev := null;

      ghost var nodes := Sorted<Element<T>>(Nodes, weight, ord);
      SortedMembers(Nodes, weight, ord);
      var sorted := MergeSort(head, Nodes, ord, weight);
      CloseRing(sorted, nodes);
      Nodes := nodes;
    }

    /** Restores the `prev` links of a chain and closes it through the sentinel. */
    method CloseRing(sorted: Element<T>, ghost nodes: seq<Element<T>>)
      requires Chain(sorted, nodes) && root !in nodes
      modifies root`next, root`prev, (set e | e in nodes)`next, (set e | e in nodes)`prev
      ensures Ring(nodes)
    {
      root.next := sorted;
      sorted.prev := root;
      var curr := sorted;
      ghost var i := 0;
      while curr.next != null
        invariant i < |nodes| && curr == nodes[i]
        invariant Chain(sorted, nodes)
        invariant forall j {:trigger nodes[j].prev} :: 0 <= j <= i ==> nodes[j].prev == At(nodes, j - 1)
        decreases |nodes| - i
        modifies (set e | e in nodes)`prev
      {
        curr.next.prev := curr;
        curr := curr.next;
        i := i + 1;
      }
      curr.next := root;
      root.prev := curr;
    }
  }

  /** A chain from `head` through the nodes of `s`, in order, ended by null. */
  ghost predicate Chain<T>(head: Element?<T>, s: seq<Element<T>>)
    reads s
  {
    && Distinct(s)
    && head == (if s == [] then null else s[0])
    && forall i {:trigger s[i].next} :: 0 <= i < |s| ==> s[i].next == if i + 1 < |s| then s[i + 1] else null
  }

  lemma SortedMembers<T>(s: seq<Element<T>>, weight: Element<T> -> int, ord: Order)
    ensures forall e: Element<T> :: e in Sorted<Element<T>>(s, weight, ord) ==> e in s
    ensures forall e: Element<T> :: e in s ==> e in Sorted<Element<T>>(s, weight, ord)
  {
    SortedIsOrdered<Element<T>>(s, weight, ord);
    assert forall e: Element<T> ::
        e in Sorted<Element<T>>(s, weight, ord) <==> e in multiset(Sorted<Element<T>>(s, weight, ord));
    assert forall e: Element<T> :: e in s <==> e in multiset(s);
  }

  lemma SortedShort<T>(s: seq<Element<T>>, weight: Element<T> -> int, ord: Order)
    requires |s| <= 1
    ensures Sorted<Element<T>>(s, weight, ord) == s
  {
  }

  /** Both halves of a chain and what they are sorted to. */
  lemma Halves<T>(s: seq<Element<T>>, weight: Element<T> -> int, ord: Order)
    returns (lo: seq<Element<T>>, hi: seq<Element<T>>, sa: seq<Element<T>>, sb: seq<Element<T>>)
    requires Distinct(s) && |s| >= 2
    ensures lo == s[..(|s| + 1) / 2] && hi == s[(|s| + 1) / 2..] && 0 < |lo| < |s| && 0 < |hi| < |s|
    ensures sa == Sorted<Element<T>>(hi, weight, ord) && sb == Sorted<Element<T>>(lo, weight, ord)
      && sa != [] && sb != []
    ensures Sorted<Element<T>>(s, weight, ord) == Merged<Element<T>>(sa, sb, weight, ord)
    ensures forall e :: e in sa ==> e in hi && e !in lo && e !in sb
    ensures forall e :: e in sb ==> e in lo && e !in hi
    ensures forall e :: e in lo ==> e in s && e !in hi
    ensures forall e :: e in hi ==> e in s
  {
    var h := (|s| + 1) / 2;
    lo, hi := s[..h], s[h..];
    sa, sb := Sorted<Element<T>>(hi, weight, ord), Sorted<Element<T>>(lo, weight, ord);
    SortedMembers(hi, weight, ord);
    SortedMembers(lo, weight, ord);
    assert hi[0] in sa && lo[0] in sb;
  }

  method MergeSort<T>(head: Element?<T>, ghost s: seq<Element<T>>, ord: Order, weight: Element<T> -> int)
    returns (r: Element?<T>)
    requires Chain(head, s)
    modifies (set e | e in s)`next, (set e | e in s)`prev
    ensures Chain(r, Sorted(s, weight, ord))
    decreases |s|, 0
  {
    hide Sorted, Merged;
    if head == null || head.next == null {
      SortedShort(s, weight, ord);
      return head;
    }
    ghost var lo, hi, sa, sb := Halves(s, weight, ord);
    var mid := SplitHalf(head, s);
    var left, right := SortHalves(mid, head, hi, lo, sa, sb, ord, weight);
    r := MergeByWeight(left, right, sa, sb, ord, weight);
  }

  /** The operands of the merge: the second half comes first. */
  method SortHalves<T>(mid: Element?<T>, head: Element?<T>, ghost hi: seq<Element<T>>, ghost lo: seq<Element<T>>,
                       ghost sa: seq<Element<T>>, ghost sb: seq<Element<T>>,
                       ord: Order, weight: Element<T> -> int)
    returns (left: Element?<T>, right: Element?<T>)
    requires Chain(mid, hi) && Chain(head, lo) && forall e :: e in lo ==> e !in hi
    requires sa == Sorted<Element<T>>(hi, weight, ord) && sb == Sorted<Element<T>>(lo, weight, ord)
    requires forall e :: e in sa ==> e in hi
    modifies (set e | e in hi + lo)`next, (set e | e in hi + lo)`prev
    ensures Chain(left, sa) && Chain(right, sb)
    decreases if |lo| > |hi| then |lo| else |hi|, 1
  {
    hide Sorted;
    left := MergeSort(mid, hi, ord, weight);
    right := MergeSort(head, lo, ord, weight);
  }

  /** Cuts the chain in two; the first part gets the odd node. */
  method SplitHalf<T>(head: Element<T>, ghost s: seq<Element<T>>) returns (mid: Element?<T>)
    requires Chain(head, s)
    modifies (set e | e in s)`next, (set e | e in s)`prev
    ensures Chain(head, s[..(|s| + 1) / 2])
    ensures Chain(mid, s[(|s| + 1) / 2..])
  {
    var slow, fast: Element?<T> := head, head;
    ghost var k := 0;
    while fast != null && fast.next != null && fast.next.next != null
      invariant 2 * k < |s| && slow == s[k] && fast == s[2 * k]
      decreases |s| - k
    {
      slow := slow.next;
      fast := fast.next.next;
      k := k + 1;
    }
    assert k + 1 == (|s| + 1) / 2;
    mid := slow.next;
    slow.next := null;
    if mid != null {
      mid.prev := null;
    }
  }

  /** Links `pick` behind the merged prefix. */
  method Append<T>(head: Element?<T>, tail: Element?<T>, pick: Element<T>, ghost out: seq<Element<T>>)
    returns (first: Element<T>)
    requires Open(head, tail, out) && pick !in out
    modifies (if tail == null then {} else {tail})`next, pick`prev
    ensures Open(first, pick, out + [pick])
  {
    if tail == null {
      first := pick;
    } else {
      first := head;
      tail.next := pick;
      pick.prev := tail;
    }
  }

  method MergeByWeight<T>(first: Element?<T>, second: Element?<T>,
                          ghost sa: seq<Element<T>>, ghost sb: seq<Element<T>>,
                          ord: Order, weight: Element<T> -> int)
    returns (head: Element?<T>)
    requires Chain(first, sa) && Chain(second, sb) && sa != [] && sb != []
    requires forall e :: e in sa ==> e !in sb
    modifies (set e | e in sa + sb)`next, (set e | e in sa + sb)`prev
    ensures Chain(head, Merged(sa, sb, weight, ord))
  {
    hide Merged;
    var a, b := first, second;
    ghost var out: seq<Element<T>>, ra, rb, all := [], sa, sb, sa + sb;
    var tail: Element?<T> := null;
    head := null;
    while a != null && b != null
      invariant Merged<Element<T>>(sa, sb, weight, ord) == out + Merged<Element<T>>(ra, rb, weight, ord)
      invariant Chain(a, ra) && Chain(b, rb) && Open(head, tail, out)
      invariant Parted(out, ra, rb, all)
      invariant ra != [] || rb != []
      invariant out == [] ==> ra != [] && rb != []
      decreases |ra| + |rb|
    {
      MergedStep<Element<T>>(out, ra, rb, weight, ord);
      if PicksLeft(ord, weight(a), weight(b)) {
        var pick: Element<T> := a;
        a := a.next;
        head := PickHead(head, tail, pick, a, b, out, ra, rb, all);
        tail := pick;
        out, ra := out + [pick], ra[1..];
      } else {
        var pick: Element<T> := b;
        b := b.next;
        Swapped(out, ra, rb, all);
        head := PickHead(head, tail, pick, b, a, out, rb, ra, all);
        tail := pick;
        out, rb := out + [pick], rb[1..];
        Swapped(out, rb, ra, all);
      }
    }
    var rest := a;
    if b != null {
      rest := b;
    }
    ghost var rr := if b != null then rb else ra;
    MergedRest<Element<T>>(ra, rb, weight, ord);
    head := AppendRest(head, tail, rest, out, rr, all);
  }

  /** Moves the head of one operand to the end of the merged prefix; the rest of both operands is
      untouched. */
  method PickHead<T>(head: Element?<T>, tail: Element?<T>, pick: Element<T>, next: Element?<T>,
                     ghost waiting: Element?<T>, ghost out: seq<Element<T>>, ghost from: seq<Element<T>>,
                     ghost other: seq<Element<T>>,
                     ghost all: seq<Element<T>>)
    returns (first: Element<T>)
    requires Open(head, tail, out) && Chain(pick, from) && pick.next == next && Chain(waiting, other)
    requires Parted(out, from, other, all)
    modifies (if tail == null then {} else {tail})`next, pick`prev
    ensures Open(first, pick, out + [pick]) && Chain(next, from[1..]) && Chain(waiting, other)
    ensures Parted(out + [pick], from[1..], other, all)
  {
    TakeHead(out, from, other, all);
    assert tail != null ==> tail in out;
    first := Append(head, tail, pick, out);
  }

  /** Links the operand that is left over behind the merged prefix. */
  method AppendRest<T>(front: Element<T>, last: Element<T>, left: Element<T>,
                       ghost merged: seq<Element<T>>, ghost nodes: seq<Element<T>>, ghost all: seq<Element<T>>)
    returns (head: Element<T>)
    requires Open(front, last, merged) && Chain(left, nodes) && Parted(merged, nodes, [], all)
    modifies (set e | e in all)`next, (set e | e in all)`prev
    ensures Chain(head, merged + nodes)
  {
    head := front;
    var tail, rest: Element?<T> := last, left;
    ghost var out, rr := merged, nodes;
    while rest != null
      invariant out + rr == merged + nodes
      invariant Chain(rest, rr) && Open(head, tail, out)
      invariant Parted(out, rr, [], all)
      invariant rr == [] ==> tail.next == null
      decreases |rr|
    {
      var pick: Element<T> := rest;
      rest := pick.next;
      head := PickHead(head, tail, pick, rest, null, out, rr, [], all);
      tail := pick;
      out, rr := out + [pick], rr[1..];
    }
    assert out == merged + nodes;
  }

  /** The merged prefix: chained through `out` up to `tail`, whose `next` is still free. */
  ghost predicate Open<T>(head: Element?<T>, tail: Element?<T>, out: seq<Element<T>>)
    reads out
  {
    && Distinct(out)
    && head == (if out == [] then null else out[0])
    && tail == (if out == [] then null else out[|out| - 1])
    && forall i {:trigger out[i].next} :: 0 <= i < |out| - 1 ==> out[i].next == out[i + 1]
  }

  /** Three pairwise disjoint groups of nodes out of `all`. */
  ghost predicate Parted<T>(x: seq<Element<T>>, y: seq<Element<T>>, z: seq<Element<T>>, all: seq<Element<T>>) {
    && (forall e: Element<T> :: e in x ==> e !in y && e !in z && e in all)
    && (forall e: Element<T> :: e in y ==> e !in z && e in all)
    && (forall e: Element<T> :: e in z ==> e !in y && e in all)
  }

  lemma Swapped<T>(x: seq<Element<T>>, y: seq<Element<T>>, z: seq<Element<T>>, all: seq<Element<T>>)
    requires Parted(x, y, z, all)
    ensures Parted(x, z, y, all)
  {
  }

  lemma TakeHead<T>(out: seq<Element<T>>, y: seq<Element<T>>, z: seq<Element<T>>, all: seq<Element<T>>)
    requires y != [] && Distinct(y) && Parted(out, y, z, all)
    ensures y[0] !in out && y[0] !in y[1..] && y[0] !in z
    ensures Distinct(y[1..])
    ensures Parted(out + [y[0]], y[1..], z, all)
  {
  }
}
