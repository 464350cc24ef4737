/** pkg/sort/key_value.go: key-value pairs sorted in place by key, with an insertion sort. */
module KeySort {
  import opened ByteCompare
  import opened StableOrder

  type Pair = (Bytes, Bytes)

  function KeyOf(p: Pair): Bytes { p.0 }

  /** Lexicographic order on bytes; a proper prefix comes first. */
  predicate Less(a: Bytes, b: Bytes)
    decreases |a|
  {
    if b == [] then false
    else if a == [] then true
    else if a[0] != b[0] then a[0] < b[0]
    else Less(a[1..], b[1..])
  }

  predicate AtMost(a: Bytes, b: Bytes) { !Less(b, a) }

  /** Exactly one of less, equal and greater. */
  lemma {:induction false} LessTrichotomy(a: Bytes, b: Bytes)
    ensures Less(a, b) ==> a != b && !Less(b, a)
    ensures a != b ==> Less(a, b) || Less(b, a)
    decreases |a|
  {
    if a != [] && b != [] && a[0] == b[0] {
      LessTrichotomy(a[1..], b[1..]);
      assert a == [a[0]] + a[1..] && b == [b[0]] + b[1..];
    }
  }

  lemma {:induction false} LessTransitive(a: Bytes, b: Bytes, c: Bytes)
    requires Less(a, b) && Less(b, c)
    ensures Less(a, c)
    decreases |a|
  {
    if a != [] && a[0] == b[0] && b[0] == c[0] {
      LessTransitive(a[1..], b[1..], c[1..]);
    }
  }

  lemma AtMostTransitive(a: Bytes, b: Bytes, c: Bytes)
    requires AtMost(a, b) && AtMost(b, c)
    ensures AtMost(a, c)
  {
    LessTrichotomy(a, b);
    LessTrichotomy(b, c);
    if Less(a, b) && Less(b, c) {
      LessTransitive(a, b, c);
      LessTrichotomy(a, c);
    }
  }

  lemma AtMostAntisymmetric()
    ensures Antisymmetric(AtMost)
  {
    forall x, y | AtMost(x, y) && AtMost(y, x) ensures x == y {
      LessTrichotomy(x, y);
    }
  }

  method LessBytes(a: Bytes, b: Bytes) returns (r: bool)
    ensures r == Less(a, b)
  {
    var m := |a|;
    if |b| < m { m := |b|; }
    for i := 0 to m
      invariant Less(a, b) == Less(a[i..], b[i..])
    {
      assert a[i..][1..] == a[i + 1..] && b[i..][1..] == b[i + 1..];
      if a[i] < b[i] { return true; }
      if a[i] > b[i] { return false; }
    }
    return |a| < |b|;
  }

  /** `x` moves left past every pair with a greater key. */
  function Inserted(s: seq<Pair>, x: Pair): (r: seq<Pair>)
    ensures |r| == |s| + 1
  {
    if s == [] || !Less(x.0, s[|s| - 1].0) then s + [x]
    else Inserted(s[..|s| - 1], x) + [s[|s| - 1]]
  }

  function Sorted(s: seq<Pair>): (r: seq<Pair>)
    ensures |r| == |s|
  {
    if s == [] then [] else Inserted(Sorted(s[..|s| - 1]), s[|s| - 1])
  }

  ghost predicate Ordered(s: seq<Pair>) {
    SortedBy(s, KeyOf, AtMost)
  }

  lemma {:induction false} InsertedMembers(s: seq<Pair>, x: Pair)
    ensures multiset(Inserted(s, x)) == multiset(s) + multiset{x}
  {
    if s != [] && Less(x.0, s[|s| - 1].0) {
      InsertedMembers(s[..|s| - 1], x);
      assert s == s[..|s| - 1] + [s[|s| - 1]];
    }
  }

  lemma {:induction false} InsertedOrdered(s: seq<Pair>, x: Pair)
    requires Ordered(s)
    ensures Ordered(Inserted(s, x))
  {
    if s != [] {
      var init, last := s[..|s| - 1], s[|s| - 1];
      if Less(x.0, last.0) {
        InsertedOrdered(init, x);
        LessTrichotomy(x.0, last.0);
        forall i | 0 <= i < |s| ensures AtMost(Inserted(init, x)[i].0, last.0) {
          InsertedMembers(init, x);
          var p := Inserted(init, x)[i];
          assert p in multiset(Inserted(init, x));
          if p != x { assert p in init; }
        }
      } else {
        forall i | 0 <= i < |s| ensures AtMost(s[i].0, x.0) {
          if i < |s| - 1 { AtMostTransitive(s[i].0, last.0, x.0); }
        }
      }
    }
  }

  /** Only pairs with another key are passed. */
  lemma {:induction false} InsertedClasses(s: seq<Pair>, x: Pair, k: Bytes)
    ensures Class(Inserted(s, x), KeyOf, k) == Class(s + [x], KeyOf, k)
  {
    if s != [] && Less(x.0, s[|s| - 1].0) {
      var init, last := s[..|s| - 1], s[|s| - 1];
      LessTrichotomy(x.0, last.0);
      InsertedClasses(init, x, k);
      ClassConcat(Inserted(init, x), [last], KeyOf, k);
      ClassConcat(init, [x], KeyOf, k);
      ClassConcat(init, [last], KeyOf, k);
      ClassConcat(s, [x], KeyOf, k);
      assert s == init + [last];
      assert Class([last], KeyOf, k) == [] || Class([x], KeyOf, k) == [];
      assert [last][1..] == [] && [x][1..] == [];
    }
  }

  lemma {:induction false} SortedOrdered(s: seq<Pair>)
    ensures Ordered(Sorted(s))
  {
    if s != [] {
      SortedOrdered(s[..|s| - 1]);
      InsertedOrdered(Sorted(s[..|s| - 1]), s[|s| - 1]);
    }
  }

  lemma {:induction false} SortedClasses(s: seq<Pair>, k: Bytes)
    ensures Class(Sorted(s), KeyOf, k) == Class(s, KeyOf, k)
  {
    if s != [] {
      var init, last := s[..|s| - 1], s[|s| - 1];
      SortedClasses(init, k);
      InsertedClasses(Sorted(init), last, k);
      ClassConcat(Sorted(init), [last], KeyOf, k);
      ClassConcat(init, [last], KeyOf, k);
      assert s == init + [last];
    }
  }

  /** The sort is characterised by its result: in order by key, and pairs of one key as they came. */
  lemma SortedCharacterised(s: seq<Pair>, t: seq<Pair>)
    ensures t == Sorted(s) <==> Ordered(t) && SameClasses(t, s, KeyOf)
  {
    SortedOrdered(s);
    forall k ensures Class(Sorted(s), KeyOf, k) == Class(s, KeyOf, k) {
      SortedClasses(s, k);
    }
    if Ordered(t) && SameClasses(t, s, KeyOf) {
      AtMostAntisymmetric();
      Unique(t, Sorted(s), KeyOf, AtMost);
    }
  }

  /** Two sequences sort to the same one exactly when they differ by a reordering that keeps the pairs
      of each key in order. */
  lemma SortedAgreeIff(s: seq<Pair>, t: seq<Pair>)
    ensures Sorted(s) == Sorted(t) <==> SameClasses(s, t, KeyOf)
  {
    SortedCharacterised(s, Sorted(s));
    SortedCharacterised(t, Sorted(t));
    if SameClasses(s, t, KeyOf) { SortedCharacterised(t, Sorted(s)); }
  }

  /** Insertion moves only inside the part it still has to compare with. */
  lemma InsertedFront(s: seq<Pair>, x: Pair, j: nat)
    requires 0 < j <= |s| && Less(x.0, s[j - 1].0)
    ensures Inserted(s[..j], x) + s[j..] == Inserted(s[..j - 1], x) + s[j - 1..]
  {
    assert s[..j][..j - 1] == s[..j - 1];
    assert Inserted(s[..j - 1], x) + [s[j - 1]] + s[j..] == Inserted(s[..j - 1], x) + s[j - 1..];
  }

  lemma InsertedThere(s: seq<Pair>, x: Pair, j: nat)
    requires j <= |s| && (j == 0 || !Less(x.0, s[j - 1].0))
    ensures Inserted(s[..j], x) == s[..j] + [x]
  {
  }

  /** The inner loop: the pair at `i` swaps down to its place. */
  method SinkInto(kv: array<Pair>, i: nat)
    requires i < kv.Length
    modifies kv
    ensures kv[..i + 1] == Inserted(old(kv[..i]), old(kv[i]))
    ensures kv[i + 1..] == old(kv[i + 1..])
  {
    hide Inserted, Less;
    ghost var s, x := kv[..i], kv[i];
    var j := i;
    assert s[..i] == s && Inserted(s, x) + s[i..] == Inserted(s, x);
    while j > 0
      invariant 0 <= j <= i
      invariant forall k :: 0 <= k < j ==> kv[k] == s[k]
      invariant kv[j] == x
      invariant forall k :: j < k <= i ==> kv[k] == s[k - 1]
      invariant forall k :: i < k < kv.Length ==> kv[k] == old(kv[k])
      invariant Inserted(s, x) == Inserted(s[..j], x) + s[j..]
    {
      var less := LessBytes(kv[j].0, kv[j - 1].0);
      if !less { break; }
      assert Less(x.0, s[j - 1].0);
      InsertedFront(s, x, j);
      kv[j], kv[j - 1] := kv[j - 1], kv[j];
      j := j - 1;
    }
    InsertedThere(s, x, j);
    assert kv[..i + 1] == s[..j] + [x] + s[j..];
  }

  /** Sorts the first `n` pairs in place. */
  method KVSlice(kv: array<Pair>, n: nat)
    requires n <= kv.Length
    modifies kv
    ensures kv[..n] == Sorted(old(kv[..n]))
    ensures kv[n..] == old(kv[n..])
  {
    hide Inserted;
    ghost var was := kv[..];
    if n == 0 { return; }
    OneSorted(kv[0]);
    assert kv[..1] == [kv[0]];
    for i := 1 to n
      invariant kv[..i] == Sorted(was[..i])
      invariant kv[i..] == was[i..]
    {
      assert was[..i + 1][..i] == was[..i] && was[..i + 1][i] == kv[i..][0] == kv[i];
      assert kv[i..][1..] == kv[i + 1..];
      SinkInto(kv, i);
    }
  }

  lemma OneSorted(x: Pair)
    ensures Sorted([x]) == [x]
  {
    assert Sorted([x]) == Inserted(Sorted([x][..0]), x);
  }

  /** `a` is less when the two agree up to some place where `a` ends and `b` does not, or has the smaller
      byte. */
  lemma {:induction false} LessIff(a: Bytes, b: Bytes)
    ensures Less(a, b) <==>
      exists i :: 0 <= i <= |a| && i < |b| && a[..i] == b[..i] && (i == |a| || a[i] < b[i])
    decreases |a|
  {
    if Less(a, b) {
      var i := FirstDifference(a, b);
    } else if i :| 0 <= i <= |a| && i < |b| && a[..i] == b[..i] && (i == |a| || a[i] < b[i]) {
      DifferenceDecides(a, b, i);
      assert false;
    }
  }

  lemma {:induction false} FirstDifference(a: Bytes, b: Bytes) returns (i: nat)
    requires Less(a, b)
    ensures i <= |a| && i < |b| && a[..i] == b[..i] && (i == |a| || a[i] < b[i])
    decreases |a|
  {
    if a == [] || a[0] != b[0] {
      i := 0;
    } else {
      var j := FirstDifference(a[1..], b[1..]);
      i := j + 1;
      assert a[..i] == [a[0]] + a[1..][..j] && b[..i] == [b[0]] + b[1..][..j];
    }
  }

  lemma {:induction false} DifferenceDecides(a: Bytes, b: Bytes, i: nat)
    requires i <= |a| && i < |b| && a[..i] == b[..i] && (i == |a| || a[i] < b[i])
    ensures Less(a, b)
    decreases |a|
  {
    if i > 0 {
      assert a[0] == a[..i][0] == b[..i][0] == b[0];
      assert a[1..][..i - 1] == a[..i][1..] && b[1..][..i - 1] == b[..i][1..];
      DifferenceDecides(a[1..], b[1..], i - 1);
    }
  }
}
