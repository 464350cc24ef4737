/** Removal of one element from a duplicate-free sequence. */
module Positions {

  ghost predicate Distinct<X>(s: seq<X>) {
    forall i, j :: 0 <= i < j < |s| ==> s[i] != s[j]
  }

  ghost function Position<X>(s: seq<X>, x: X): (i: nat)
    requires x in s
    ensures i < |s| && s[i] == x
  {
    var i :| 0 <= i < |s| && s[i] == x;
    i
  }

  ghost function DropAt<X>(s: seq<X>, i: nat): seq<X>
    requires i < |s|
  {
    seq(|s| - 1, j requires 0 <= j < |s| - 1 => s[if j < i then j else j + 1])
  }

  ghost function Without<X>(s: seq<X>, x: X): seq<X>
    requires x in s
  {
    DropAt(s, Position(s, x))
  }

  lemma WithoutParts<X>(s: seq<X>, x: X)
    requires x in s
    ensures var i := Position(s, x); Without(s, x) == s[..i] + s[i + 1..] && s == s[..i] + [x] + s[i + 1..]
  {
  }

  lemma WithoutElements<X>(s: seq<X>, x: X)
    requires x in s && Distinct(s)
    ensures |Without(s, x)| == |s| - 1 && Distinct(Without(s, x)) && x !in Without(s, x)
    ensures forall y :: y in Without(s, x) <==> y in s && y != x
    ensures multiset(s) == multiset(Without(s, x)) + multiset{x}
  {
    var i := Position(s, x);
    WithoutParts(s, x);
    hide Without, Position;
    var front, back := s[..i], s[i + 1..];
    assert forall y :: y in s <==> y in front || y == x || y in back;
    assert multiset(s) == multiset(front) + multiset{x} + multiset(back);
    forall y | y in front || y in back ensures y != x {
      if y in front {
        var j :| 0 <= j < i && s[j] == y;
      } else {
        var j :| 0 <= j < |back| && back[j] == y;
        assert s[i + 1 + j] == y;
      }
    }
  }

  lemma WithoutLength<X>(s: seq<X>, x: X)
    requires x in s
    ensures |Without(s, x)| == |s| - 1
  {
  }

  /** What is left keeps its order. */
  lemma WithoutAt<X>(s: seq<X>, x: X, a: nat, b: nat) returns (c: nat, d: nat)
    requires x in s && a < b < |s| - 1
    ensures c < d < |s| && |Without(s, x)| == |s| - 1 && Without(s, x)[a] == s[c] && Without(s, x)[b] == s[d]
  {
    var i := Position(s, x);
    c, d := if a < i then a else a + 1, if b < i then b else b + 1;
  }
}
