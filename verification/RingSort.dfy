/** The value of `List.Sort`: what the recursive merge sort of pkg/list/doubly_linked.go computes,
    as a function on sequences, and what that value is. */
module RingSort {
  import opened StableOrder

  datatype Order = DESC | ASC

  predicate Below(ord: Order, x: int, y: int) {
    if ord.ASC? then x <= y else x >= y
  }

  /** The merge's choice of `a`: ASC takes `a` on ties, DESC takes `b`. */
  predicate PicksLeft(ord: Order, wa: int, wb: int) {
    if ord.ASC? then wa <= wb else wa > wb
  }

  function Merged<X>(a: seq<X>, b: seq<X>, weight: X -> int, ord: Order): (r: seq<X>)
    ensures |r| == |a| + |b|
  {
    if a == [] then b
    else if b == [] then a
    else if PicksLeft(ord, weight(a[0]), weight(b[0])) then [a[0]] + Merged(a[1..], b, weight, ord)
    else [b[0]] + Merged(a, b[1..], weight, ord)
  }

  /** The second half is the left operand of the merge. */
  function Sorted<X>(s: seq<X>, weight: X -> int, ord: Order): (r: seq<X>)
    ensures |r| == |s|
  {
    if |s| < 2 then s
    else
      var h := (|s| + 1) / 2;
      Merged(Sorted(s[h..], weight, ord), Sorted(s[..h], weight, ord), weight, ord)
  }

  /** How a run of equal weights comes out: DESC keeps it, ASC turns it round. */
  ghost function Kept<X>(run: seq<X>, ord: Order): seq<X> {
    if ord.DESC? then run else Reversed(run)
  }

  lemma MergedStep<X>(out: seq<X>, a: seq<X>, b: seq<X>, weight: X -> int, ord: Order)
    requires a != [] && b != []
    ensures out + Merged(a, b, weight, ord)
         == if PicksLeft(ord, weight(a[0]), weight(b[0]))
            then (out + [a[0]]) + Merged(a[1..], b, weight, ord)
            else (out + [b[0]]) + Merged(a, b[1..], weight, ord)
  {
  }

  lemma MergedRest<X>(a: seq<X>, b: seq<X>, weight: X -> int, ord: Order)
    requires a == [] || b == []
    ensures Merged(a, b, weight, ord) == if b != [] then b else a
  {
  }

  ghost predicate Ordered<X>(s: seq<X>, weight: X -> int, ord: Order) {
    forall i, j :: 0 <= i < j < |s| ==> Below(ord, weight(s[i]), weight(s[j]))
  }

  lemma OrderedTail<X>(s: seq<X>, weight: X -> int, ord: Order)
    requires s != [] && Ordered(s, weight, ord)
    ensures Ordered(s[1..], weight, ord)
  {
  }

  lemma {:induction false} MergedElements<X>(a: seq<X>, b: seq<X>, weight: X -> int, ord: Order)
    ensures multiset(Merged(a, b, weight, ord)) == multiset(a) + multiset(b)
  {
    if a != [] && b != [] {
      assert a == [a[0]] + a[1..] && b == [b[0]] + b[1..];
      if PicksLeft(ord, weight(a[0]), weight(b[0])) {
        MergedElements(a[1..], b, weight, ord);
      } else {
        MergedElements(a, b[1..], weight, ord);
      }
    }
  }

  /** Merging two ordered runs gives an ordered run. */
  lemma {:induction false} MergedOrdered<X>(a: seq<X>, b: seq<X>, weight: X -> int, ord: Order)
    requires Ordered(a, weight, ord) && Ordered(b, weight, ord)
    ensures Ordered(Merged(a, b, weight, ord), weight, ord)
  {
    if a != [] && b != [] {
      var left := PicksLeft(ord, weight(a[0]), weight(b[0]));
      var a', b' := if left then a[1..] else a, if left then b else b[1..];
      MergedOrdered(a', b', weight, ord);
      MergedElements(a', b', weight, ord);
      var head, rest := if left then a[0] else b[0], Merged(a', b', weight, ord);
      forall j | 0 <= j < |rest| ensures Below(ord, weight(head), weight(rest[j])) {
        assert rest[j] in multiset(rest);
        assert rest[j] in a' || rest[j] in b';
      }
      assert Merged(a, b, weight, ord) == [head] + rest;
    }
  }

  lemma ClassCons<X>(x: X, s: seq<X>, weight: X -> int, w: int)
    ensures Class([x] + s, weight, w) == (if weight(x) == w then [x] else []) + Class(s, weight, w)
  {
    assert ([x] + s)[1..] == s;
  }

  /** Nothing in an ordered run weighs what lies strictly before its head. */
  lemma ClassBeyond<X>(s: seq<X>, weight: X -> int, ord: Order, w: int)
    requires Ordered(s, weight, ord)
    requires s != [] ==> !Below(ord, weight(s[0]), w)
    ensures Class(s, weight, w) == []
  {
    ClassEmpty(s, weight, w);
  }

  /** The class of the operand the merge prefers on ties, then the class of the other one. */
  ghost function Blocks<X>(a: seq<X>, b: seq<X>, weight: X -> int, ord: Order, w: int): seq<X> {
    if ord.ASC? then Class(a, weight, w) + Class(b, weight, w)
    else Class(b, weight, w) + Class(a, weight, w)
  }

  lemma BlocksStep<X>(a: seq<X>, b: seq<X>, weight: X -> int, ord: Order, w: int)
    requires Ordered(a, weight, ord) && Ordered(b, weight, ord) && a != [] && b != []
    ensures Blocks(a, b, weight, ord, w)
         == if PicksLeft(ord, weight(a[0]), weight(b[0]))
            then (if weight(a[0]) == w then [a[0]] else []) + Blocks(a[1..], b, weight, ord, w)
            else (if weight(b[0]) == w then [b[0]] else []) + Blocks(a, b[1..], weight, ord, w)
  {
    if PicksLeft(ord, weight(a[0]), weight(b[0])) {
      if weight(a[0]) == w && ord.DESC? { ClassBeyond(b, weight, ord, w); }
    } else {
      if weight(b[0]) == w && ord.ASC? { ClassBeyond(a, weight, ord, w); }
    }
  }

  /** On equal weights the operand the merge prefers comes first as a block. */
  lemma {:induction false} MergedClasses<X>(a: seq<X>, b: seq<X>, weight: X -> int, ord: Order, w: int)
    requires Ordered(a, weight, ord) && Ordered(b, weight, ord)
    ensures Class(Merged(a, b, weight, ord), weight, w) == Blocks(a, b, weight, ord, w)
  {
    if a == [] || b == [] {
      var ca, cb := Class(a, weight, w), Class(b, weight, w);
      assert ca + [] == ca && cb + [] == cb && [] + ca == ca && [] + cb == cb;
    } else {
      BlocksStep(a, b, weight, ord, w);
      if PicksLeft(ord, weight(a[0]), weight(b[0])) {
        OrderedTail(a, weight, ord);
        MergedClasses(a[1..], b, weight, ord, w);
        ClassCons(a[0], Merged(a[1..], b, weight, ord), weight, w);
      } else {
        OrderedTail(b, weight, ord);
        MergedClasses(a, b[1..], weight, ord, w);
        ClassCons(b[0], Merged(a, b[1..], weight, ord), weight, w);
      }
    }
  }

  lemma ShortClass<X>(s: seq<X>, weight: X -> int, w: int)
    requires |s| < 2
    ensures |Class(s, weight, w)| < 2 && Reversed(Class(s, weight, w)) == Class(s, weight, w)
  {
  }

  lemma {:induction false} SortedIsOrdered<X>(s: seq<X>, weight: X -> int, ord: Order)
    ensures Ordered(Sorted(s, weight, ord), weight, ord)
    ensures multiset(Sorted(s, weight, ord)) == multiset(s)
  {
    if |s| >= 2 {
      var h := (|s| + 1) / 2;
      SortedIsOrdered(s[h..], weight, ord);
      SortedIsOrdered(s[..h], weight, ord);
      var l, r := Sorted(s[h..], weight, ord), Sorted(s[..h], weight, ord);
      MergedOrdered(l, r, weight, ord);
      MergedElements(l, r, weight, ord);
      hide Merged;
      assert s == s[..h] + s[h..];
    }
  }

  lemma {:induction false} SortedClasses<X>(s: seq<X>, weight: X -> int, ord: Order, w: int)
    ensures Class(Sorted(s, weight, ord), weight, w) == Kept(Class(s, weight, w), ord)
  {
    if |s| < 2 {
      ShortClass(s, weight, w);
    } else {
      var lo, hi := s[..(|s| + 1) / 2], s[(|s| + 1) / 2..];
      assert s == lo + hi;
      SortedClasses(hi, weight, ord, w);
      SortedClasses(lo, weight, ord, w);
      SortedIsOrdered(hi, weight, ord);
      SortedIsOrdered(lo, weight, ord);
      MergedClasses(Sorted(hi, weight, ord), Sorted(lo, weight, ord), weight, ord, w);
      assert Class(s, weight, w) == Class(lo, weight, w) + Class(hi, weight, w) by {
        ClassConcat(lo, hi, weight, w);
      }
      assert Sorted(s, weight, ord) == Merged(Sorted(hi, weight, ord), Sorted(lo, weight, ord), weight, ord);
      ReversedConcat(Class(lo, weight, w), Class(hi, weight, w));
    }
  }

  lemma {:induction false} UniqueOrdered<X>(s: seq<X>, t: seq<X>, weight: X -> int, ord: Order)
    requires Ordered(s, weight, ord) && Ordered(t, weight, ord) && SameClasses(s, t, weight)
    ensures s == t
  {
    var le := (x, y) => Below(ord, x, y);
    forall i, j | 0 <= i < j < |s| ensures le(weight(s[i]), weight(s[j])) {}
    forall i, j | 0 <= i < j < |t| ensures le(weight(t[i]), weight(t[j])) {}
    Unique(s, t, weight, le);
  }

  /** Every run of equal weight of `s` appears in `t`, kept by DESC and turned round by ASC. */
  ghost predicate KeepsRuns<X>(s: seq<X>, t: seq<X>, weight: X -> int, ord: Order) {
    forall w :: Class(t, weight, w) == Kept(Class(s, weight, w), ord)
  }

  /** The result of the sort is the one sequence that is ordered by weight and whose runs of equal
      weight are the input's, kept by DESC and reversed by ASC. */
  lemma SortedCharacterised<X>(s: seq<X>, t: seq<X>, weight: X -> int, ord: Order)
    ensures t == Sorted(s, weight, ord) <==> Ordered(t, weight, ord) && KeepsRuns(s, t, weight, ord)
  {
    var u := Sorted(s, weight, ord);
    SortedIsOrdered(s, weight, ord);
    forall w ensures Class(u, weight, w) == Kept(Class(s, weight, w), ord) {
      SortedClasses(s, weight, ord, w);
    }
    if Ordered(t, weight, ord) && KeepsRuns(s, t, weight, ord) {
      forall w ensures Class(t, weight, w) == Class(u, weight, w) {
        assert Class(t, weight, w) == Kept(Class(s, weight, w), ord);
      }
      UniqueOrdered(t, u, weight, ord);
    }
  }

  lemma OrderedConcat<X>(s: seq<X>, t: seq<X>, u: seq<X>, weight: X -> int)
    requires Ordered(s, weight, DESC) && Ordered(t, weight, DESC) && multiset(t) == multiset(u)
    requires forall i, j :: 0 <= i < |s| && 0 <= j < |u| ==> weight(s[i]) >= weight(u[j])
    ensures Ordered(s + t, weight, DESC)
  {
    forall i, j | 0 <= i < |s| && 0 <= j < |t| ensures weight(s[i]) >= weight(t[j]) {
      assert t[j] in multiset(u);
      assert t[j] in u;
    }
  }

  lemma FrontClasses<X>(front: seq<X>, back: seq<X>, weight: X -> int, w: int)
    ensures Class(front + Sorted(back, weight, DESC), weight, w) == Class(front + back, weight, w)
  {
    ClassConcat(front, Sorted(back, weight, DESC), weight, w);
    ClassConcat(front, back, weight, w);
    SortedClasses(back, weight, DESC, w);
  }

  /** A front that is in order and nowhere lighter than what follows stays where it is: under DESC no
      element overtakes an equal one. */
  lemma FrontStays<X>(s: seq<X>, k: nat, weight: X -> int)
    requires k <= |s| && Ordered(s[..k], weight, DESC)
    requires forall i, j :: 0 <= i < k <= j < |s| ==> weight(s[i]) >= weight(s[j])
    ensures Sorted(s, weight, DESC) == s[..k] + Sorted(s[k..], weight, DESC)
  {
    hide Sorted, Ordered, Class;
    var front, rest := s[..k], Sorted(s[k..], weight, DESC);
    SortedIsOrdered(s[k..], weight, DESC);
    OrderedConcat(front, rest, s[k..], weight);
    assert s == front + s[k..];
    forall w ensures Class(front + rest, weight, w) == Kept(Class(s, weight, w), DESC) {
      FrontClasses(front, s[k..], weight, w);
    }
    SortedCharacterised(s, front + rest, weight, DESC);
  }

  lemma {:induction false} ReversedAt<X>(s: seq<X>, k: nat)
    requires k < |s|
    ensures Reversed(s)[k] == s[|s| - 1 - k]
  {
    if |s| > 1 && k < |s| - 1 { ReversedAt(s[1..], k); }
  }

  /** DESC runs from heavy to light and keeps ties as they were, ASC runs from light to heavy and turns
      them round. */
  lemma SortedBothWays<X>(s: seq<X>, weight: X -> int, ord: Order, i: nat, j: nat, w: int, k: nat)
    ensures var t := Sorted(s, weight, ord);
      && (i < j < |t| ==> if ord.DESC? then weight(t[i]) >= weight(t[j]) else weight(t[i]) <= weight(t[j]))
      && |Class(t, weight, w)| == |Class(s, weight, w)|
      && (k < |Class(s, weight, w)| ==>
            Class(t, weight, w)[k] == Class(s, weight, w)[if ord.DESC? then k else |Class(s, weight, w)| - 1 - k])
  {
    var t := Sorted(s, weight, ord);
    SortedIsOrdered(s, weight, ord);
    SortedClasses(s, weight, ord, w);
    if i < j < |t| { assert Below(ord, weight(t[i]), weight(t[j])); }
    hide Sorted, Class;
    if k < |Class(s, weight, w)| { ReversedAt(Class(s, weight, w), k); }
  }
}
