/** Stability, stated once for every sort of the program.

    `Class(s, key, k)` is the subsequence of `s` whose key is `k`. A sort is stable when it keeps
    every class; together with sortedness that pins the result down completely (`Unique`). */
module StableOrder {

  ghost function Class<X, K>(s: seq<X>, key: X -> K, k: K): seq<X> {
    if s == [] then []
    else (if key(s[0]) == k then [s[0]] else []) + Class(s[1..], key, k)
  }

  ghost predicate SameClasses<X, K(!new)>(s: seq<X>, t: seq<X>, key: X -> K) {
    forall k :: Class(s, key, k) == Class(t, key, k)
  }

  ghost predicate SortedBy<X, K>(s: seq<X>, key: X -> K, below: (K, K) -> bool) {
    forall i, j :: 0 <= i < j < |s| ==> below(key(s[i]), key(s[j]))
  }

  ghost predicate Antisymmetric<K(!new)>(below: (K, K) -> bool) {
    forall x, y :: below(x, y) && below(y, x) ==> x == y
  }

  function Reversed<X>(s: seq<X>): (r: seq<X>)
    ensures |r| == |s|
  {
    if s == [] then [] else Reversed(s[1..]) + [s[0]]
  }

  lemma {:induction false} ReversedConcat<X>(a: seq<X>, b: seq<X>)
    ensures Reversed(a + b) == Reversed(b) + Reversed(a)
  {
    if a == [] {
      assert a + b == b;
    } else {
      ReversedConcat(a[1..], b);
      assert (a + b)[1..] == a[1..] + b;
      assert Reversed(b) + Reversed(a[1..]) + [a[0]] == Reversed(b) + (Reversed(a[1..]) + [a[0]]);
    }
  }

  lemma {:induction false} ClassConcat<X, K>(a: seq<X>, b: seq<X>, key: X -> K, k: K)
    ensures Class(a + b, key, k) == Class(a, key, k) + Class(b, key, k)
  {
    if a == [] {
      assert a + b == b;
    } else {
      ClassConcat(a[1..], b, key, k);
      assert (a + b)[1..] == a[1..] + b;
    }
  }

  /** A class is empty exactly when no element carries its key. */
  lemma {:induction false} ClassEmpty<X, K>(s: seq<X>, key: X -> K, k: K)
    ensures Class(s, key, k) == [] <==> forall i :: 0 <= i < |s| ==> key(s[i]) != k
  {
    if s != [] {
      ClassEmpty(s[1..], key, k);
      assert forall i :: 0 < i < |s| ==> s[i] == s[1..][i - 1];
    }
  }

  /** The first element of a sequence heads its own class. */
  lemma ClassHead<X, K>(s: seq<X>, key: X -> K)
    requires s != []
    ensures Class(s, key, key(s[0])) != [] && Class(s, key, key(s[0]))[0] == s[0]
  {
  }

  lemma SortedTail<X, K>(s: seq<X>, key: X -> K, below: (K, K) -> bool)
    requires s != [] && SortedBy(s, key, below)
    ensures SortedBy(s[1..], key, below)
  {
    var t := s[1..];
    forall i, j | 0 <= i < j < |t| ensures below(key(t[i]), key(t[j])) {
      assert t[i] == s[i + 1] && t[j] == s[j + 1];
    }
  }

  /** The head of a sorted sequence is below the key of every non-empty class. */
  lemma HeadBelow<X, K>(s: seq<X>, key: X -> K, k: K, below: (K, K) -> bool)
    requires s != [] && SortedBy(s, key, below) && Class(s, key, k) != []
    ensures key(s[0]) == k || below(key(s[0]), k)
  {
    ClassEmpty(s, key, k);
  }

  lemma HeadsAgree<X, K(!new)>(s: seq<X>, t: seq<X>, key: X -> K, below: (K, K) -> bool)
    requires s != [] && t != []
    requires Antisymmetric(below)
    requires SortedBy(s, key, below) && SortedBy(t, key, below)
    requires SameClasses(s, t, key)
    ensures s[0] == t[0]
  {
    ClassHead(s, key);
    ClassHead(t, key);
    HeadBelow(t, key, key(s[0]), below);
    HeadBelow(s, key, key(t[0]), below);
  }

  lemma TailClasses<X, K(!new)>(s: seq<X>, t: seq<X>, key: X -> K)
    requires s != [] && t != [] && s[0] == t[0] && SameClasses(s, t, key)
    ensures SameClasses(s[1..], t[1..], key)
  {
    forall c ensures Class(s[1..], key, c) == Class(t[1..], key, c) {
      assert Class(s, key, c) == Class(t, key, c);
      var own := if key(s[0]) == c then [s[0]] else [];
      assert Class(s, key, c) == own + Class(s[1..], key, c);
      assert Class(t, key, c) == own + Class(t[1..], key, c);
      assert Class(s[1..], key, c) == Class(s, key, c)[|own|..];
    }
  }

  /** Two sequences sorted by the same order with the same classes are the same sequence. */
  lemma {:induction false} Unique<X, K(!new)>(s: seq<X>, t: seq<X>, key: X -> K, below: (K, K) -> bool)
    requires Antisymmetric(below)
    requires SortedBy(s, key, below) && SortedBy(t, key, below)
    requires SameClasses(s, t, key)
    ensures s == t
  {
    if s == [] || t == [] {
      if s != [] { ClassHead(s, key); }
      if t != [] { ClassHead(t, key); }
      assert s == [] ==> forall k :: Class(s, key, k) == [];
    } else {
      HeadsAgree(s, t, key, below);
      TailClasses(s, t, key);
      SortedTail(s, key, below);
      SortedTail(t, key, below);
      Unique(s[1..], t[1..], key, below);
    }
  }
}
