/** How much of what the shard counters show can be phantom: memory that payload updates have freed and
    the counters still hold. A shard whose residents shrank by x counts x too much. */
module Drift {
  import opened RingSort
  import opened ShardedMap
  import opened CacheEntry

  /** By how much each shard counts too much, negative when it counts too little. */
  function Excesses(drift: seq<int>): (xs: seq<int>)
    ensures |xs| == |drift| && forall i :: 0 <= i < |xs| ==> xs[i] == -drift[i]
  {
    seq(|drift|, i requires 0 <= i < |drift| => -drift[i])
  }

  function Id(x: int): int { x }

  function Ranked(drift: seq<int>): seq<int> {
    Sorted(Excesses(drift), Id, DESC)
  }

  function Fat(drift: seq<int>, fat: nat): nat {
    if fat < |drift| then fat else |drift|
  }

  /** The smallest of the `fat` largest excesses. */
  function Level(drift: seq<int>, fat: nat): int
    requires drift != [] && fat > 0
  {
    RankedLength(drift);
    Ranked(drift)[Fat(drift, fat) - 1]
  }

  /** What a shard can count behind the fat ones. Its excess; or, when that leaves room for an entry, as
      much as the least of the fat ones. */
  function Raised(x: int, level: int): int {
    if x + ENTRY_SIZE <= level then level else x
  }

  /** The counters of the fullest storage whose fat shards are all empty. */
  function Fullest(drift: seq<int>, fat: nat): (mems: seq<int>)
    requires drift != [] && fat > 0
    ensures |mems| == |drift| && forall i :: 0 <= i < |mems| ==> mems[i] == Raised(-drift[i], Level(drift, fat))
  {
    seq(|drift|, i requires 0 <= i < |drift| => Raised(-drift[i], Level(drift, fat)))
  }

  function Bound(drift: seq<int>, fat: nat): int
    requires drift != [] && fat > 0
  {
    Sum(Fullest(drift, fat))
  }

  lemma RankedLength(drift: seq<int>)
    ensures |Ranked(drift)| == |drift|
  {
    SortedIsOrdered(Excesses(drift), Id, DESC);
    assert |multiset(Ranked(drift))| == |Ranked(drift)|;
  }

  // ---------------------------------------------------------------------------------------------
  // The level without sorting

  ghost function CountAbove(xs: seq<int>, c: int): (n: nat)
    ensures n <= |xs|
  {
    if xs == [] then 0 else CountAbove(xs[..|xs| - 1], c) + if xs[|xs| - 1] > c then 1 else 0
  }

  lemma {:induction false} CountConcat(xs: seq<int>, ys: seq<int>, c: int)
    ensures CountAbove(xs + ys, c) == CountAbove(xs, c) + CountAbove(ys, c)
    decreases |ys|
  {
    if ys == [] {
      assert xs + ys == xs;
    } else {
      var last := |ys| - 1;
      CountConcat(xs, ys[..last], c);
      assert (xs + ys)[..|xs| + last] == xs + ys[..last];
    }
  }

  lemma TakeOut(ys: seq<int>, j: nat, c: int)
    requires j < |ys|
    ensures multiset(ys) == multiset(ys[..j] + ys[j + 1..]) + multiset{ys[j]}
    ensures CountAbove(ys, c) == CountAbove(ys[..j] + ys[j + 1..], c) + if ys[j] > c then 1 else 0
  {
    var x := ys[j];
    assert ys == ys[..j] + ([x] + ys[j + 1..]);
    CountConcat(ys[..j], [x] + ys[j + 1..], c);
    CountConcat([x], ys[j + 1..], c);
    CountConcat(ys[..j], ys[j + 1..], c);
    assert CountAbove([x], c) == CountAbove([x][..0], c) + if x > c then 1 else 0;
  }

  lemma Cancel(xs: seq<int>, ys: seq<int>, x: int)
    requires multiset(xs) + multiset{x} == multiset(ys) + multiset{x}
    ensures multiset(xs) == multiset(ys)
  {
    assert multiset(xs) == multiset(xs) + multiset{x} - multiset{x};
    assert multiset(ys) == multiset(ys) + multiset{x} - multiset{x};
  }

  lemma {:induction false} CountOfPermutation(xs: seq<int>, ys: seq<int>, c: int)
    requires multiset(xs) == multiset(ys)
    ensures CountAbove(xs, c) == CountAbove(ys, c)
    decreases |xs|
  {
    assert |multiset(xs)| == |xs| && |multiset(ys)| == |ys|;
    if xs != [] {
      var last := |xs| - 1;
      assert xs[last] in multiset(xs);
      var j :| 0 <= j < |ys| && ys[j] == xs[last];
      TakeOut(xs, last, c);
      TakeOut(ys, j, c);
      Cancel(xs[..last] + xs[last + 1..], ys[..j] + ys[j + 1..], xs[last]);
      CountOfPermutation(xs[..last] + xs[last + 1..], ys[..j] + ys[j + 1..], c);
    }
  }

  /** In a descending sequence the one at rank `k` is above `c` exactly when at least `k` are. */
  lemma {:induction false} CountDescending(xs: seq<int>, c: int, k: nat)
    requires forall i, j :: 0 <= i < j < |xs| ==> xs[i] >= xs[j]
    requires 0 < k <= |xs|
    ensures xs[k - 1] > c <==> CountAbove(xs, c) >= k
  {
    var last := |xs| - 1;
    if last > 0 { CountDescending(xs[..last], c, if k <= last then k else last); }
  }

  lemma RankedDescends(drift: seq<int>)
    ensures forall i, j {:trigger Ranked(drift)[i], Ranked(drift)[j]} ::
      0 <= i < j < |Ranked(drift)| ==> Ranked(drift)[i] >= Ranked(drift)[j]
  {
    var xs := Ranked(drift);
    SortedIsOrdered(Excesses(drift), Id, DESC);
    forall i, j | 0 <= i < j < |xs| ensures xs[i] >= xs[j] {
      assert Below(DESC, Id(xs[i]), Id(xs[j]));
    }
  }

  /** The level is the one number that fewer shards exceed than are fat, while at least as many reach
      it. */
  lemma LevelIff(drift: seq<int>, fat: nat, c: int)
    requires drift != [] && fat > 0
    ensures c == Level(drift, fat) <==>
      CountAbove(Excesses(drift), c) < Fat(drift, fat) <= CountAbove(Excesses(drift), c - 1)
  {
    hide Ranked, CountAbove;
    var xs, k := Ranked(drift), Fat(drift, fat);
    RankedLength(drift);
    RankedDescends(drift);
    SortedIsOrdered(Excesses(drift), Id, DESC);
    assert multiset(xs) == multiset(Excesses(drift)) by { RankedIsPermutation(drift); }
    CountOfPermutation(xs, Excesses(drift), c);
    CountOfPermutation(xs, Excesses(drift), c - 1);
    CountDescending(xs, c, k);
    CountDescending(xs, c - 1, k);
  }

  lemma RankedIsPermutation(drift: seq<int>)
    ensures multiset(Ranked(drift)) == multiset(Excesses(drift))
  {
    SortedIsOrdered(Excesses(drift), Id, DESC);
  }

  /** The shards whose excess is above `c`. */
  ghost function Over(drift: seq<int>, c: int): set<nat> {
    set i: nat | i < |drift| && -drift[i] > c
  }

  lemma {:induction false} OverCount(drift: seq<int>, c: int)
    ensures |Over(drift, c)| == CountAbove(Excesses(drift), c)
  {
    if drift == [] {
      assert Over(drift, c) == {};
    } else {
      var last := |drift| - 1;
      OverCount(drift[..last], c);
      assert Excesses(drift)[..last] == Excesses(drift[..last]);
      assert Over(drift, c) == Over(drift[..last], c) + if -drift[last] > c then {last} else {};
    }
  }

  // ---------------------------------------------------------------------------------------------
  // What it comes to

  lemma {:induction false} SumAtMost(s: seq<int>, t: seq<int>)
    requires |s| == |t| && forall i :: 0 <= i < |s| ==> s[i] <= t[i]
    ensures Sum(s) <= Sum(t)
  {
    if s != [] { SumAtMost(s[..|s| - 1], t[..|t| - 1]); }
  }

  lemma {:induction false} SumOfExcesses(drift: seq<int>)
    ensures Sum(Excesses(drift)) == -Sum(drift)
  {
    if drift != [] {
      var last := |drift| - 1;
      SumOfExcesses(drift[..last]);
      assert Excesses(drift)[..last] == Excesses(drift[..last]);
    }
  }

  lemma {:induction false} SumOfEqual(s: seq<int>, x: int)
    requires forall i :: 0 <= i < |s| ==> s[i] == x
    ensures Sum(s) == |s| * x
  {
    if s != [] {
      SumOfEqual(s[..|s| - 1], x);
      assert |s| * x == (|s| - 1) * x + x;
    }
  }

  lemma RankedMembers(drift: seq<int>, x: int)
    ensures x in Ranked(drift) <==> x in Excesses(drift)
  {
    SortedIsOrdered(Excesses(drift), Id, DESC);
    assert x in Ranked(drift) <==> x in multiset(Ranked(drift));
    assert x in Excesses(drift) <==> x in multiset(Excesses(drift));
  }

  lemma NoneBelowLevel(drift: seq<int>, fat: nat, i: nat)
    requires i < |drift| <= fat
    ensures -drift[i] >= Level(drift, fat)
  {
    RankedLength(drift);
    RankedDescends(drift);
    RankedMembers(drift, Excesses(drift)[i]);
    hide Ranked;
    var ranked := Ranked(drift);
    var j :| 0 <= j < |ranked| && ranked[j] == Excesses(drift)[i];
    assert j == |ranked| - 1 || ranked[j] >= ranked[|ranked| - 1];
  }

  /** When every shard is a fat one, the bound is the whole excess. */
  lemma BoundOfAllFat(drift: seq<int>, fat: nat)
    requires drift != [] && |drift| <= fat
    ensures Bound(drift, fat) == -Sum(drift)
  {
    hide Level, Sum, Excesses, Fullest;
    forall i | 0 <= i < |drift| ensures Fullest(drift, fat)[i] == Excesses(drift)[i] {
      NoneBelowLevel(drift, fat, i);
    }
    assert Fullest(drift, fat) == Excesses(drift);
    SumOfExcesses(drift);
  }

  /** When no shard counts too much, there is nothing to bound. */
  lemma BoundOfNoExcess(drift: seq<int>, fat: nat)
    requires drift != [] && fat > 0 && forall i :: 0 <= i < |drift| ==> drift[i] >= 0
    ensures Bound(drift, fat) <= 0
  {
    RankedLength(drift);
    var level := Level(drift, fat);
    RankedMembers(drift, level);
    var j :| 0 <= j < |drift| && Excesses(drift)[j] == level;
    var nothing := seq(|drift|, _ => 0);
    SumOfEqual(nothing, 0);
    SumAtMost(Fullest(drift, fat), nothing);
  }

  /** As many equal excesses as there are fat shards, and no other: every shard can count as much. */
  lemma BoundOfEqualExcess(n: nat, fat: nat, x: int)
    requires 0 < fat < n && x >= ENTRY_SIZE
    ensures var drift := EqualExcess(n, fat, x); Bound(drift, fat) == n * x && Sum(drift) == -(fat * x)
  {
    var drift := EqualExcess(n, fat, x);
    EqualLevel(n, fat, x);
    SumOfEqual(Fullest(drift, fat), x);
    SumOfExcesses(drift);
    SumOfEqualExcess(n, fat, x);
  }

  function EqualExcess(n: nat, fat: nat, x: int): seq<int> {
    seq(n, i => if i < fat then -x else 0)
  }

  lemma EqualLevel(n: nat, fat: nat, x: int)
    requires 0 < fat < n && x > 0
    ensures Level(EqualExcess(n, fat, x), fat) == x
  {
    CountOfEqualExcess(n, fat, x);
    LevelIff(EqualExcess(n, fat, x), fat, x);
  }

  lemma {:induction false} CountOfEqualExcess(n: nat, fat: nat, x: int)
    requires x > 0
    ensures CountAbove(Excesses(EqualExcess(n, fat, x)), x) == 0
    ensures CountAbove(Excesses(EqualExcess(n, fat, x)), x - 1) == if n < fat then n else fat
  {
    if n > 0 {
      CountOfEqualExcess(n - 1, fat, x);
      assert Excesses(EqualExcess(n, fat, x))[..n - 1] == Excesses(EqualExcess(n - 1, fat, x));
    }
  }

  lemma {:induction false} SumOfEqualExcess(n: nat, fat: nat, x: int)
    ensures Sum(EqualExcess(n, fat, x)) == -((if n < fat then n else fat) * x)
  {
    if n > 0 {
      SumOfEqualExcess(n - 1, fat, x);
      assert EqualExcess(n, fat, x)[..n - 1] == EqualExcess(n - 1, fat, x);
      assert n * x == (n - 1) * x + x;
    }
  }
}
