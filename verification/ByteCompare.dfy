/** pkg/bytes/cmp.go: payload comparison that samples long slices. */
module ByteCompare {
  type byte = x: nat | x < 256
  type Bytes = seq<byte>

  /** The 64-bit hash of a slice. */
  type Hash = Bytes -> bv64

  const SHORT: nat := 32

  /** The three 8-byte windows that stand for a long slice. */
  function Windows(a: Bytes): (Bytes, Bytes, Bytes)
    requires |a| >= SHORT
  {
    (a[..8], a[|a| / 2..|a| / 2 + 8], a[|a| - 8..])
  }

  function Xor(x: bv64, y: bv64): bv64 {
    x ^ y
  }

  function Fold(hash: Hash, w: (Bytes, Bytes, Bytes)): bv64 {
    Xor(Xor(hash(w.0), hash(w.1)), hash(w.2))
  }

  predicate SameBytes(hash: Hash, a: Bytes, b: Bytes) {
    if |a| != |b| then false
    else if |a| < SHORT then a == b
    else Fold(hash, Windows(a)) == Fold(hash, Windows(b))
  }

  /** No choice of the hash tells them apart. */
  ghost predicate AlwaysSame(a: Bytes, b: Bytes) {
    forall hash: Hash :: SameBytes(hash, a, b)
  }

  /** The comparison never rejects equal slices, is exact on short ones, and on long ones sees only
      length and windows, so it is an equivalence whatever the hash. */
  lemma Judgement(hash: Hash, a: Bytes, b: Bytes, c: Bytes)
    ensures SameBytes(hash, a, a)
    ensures SameBytes(hash, a, b) ==> SameBytes(hash, b, a) && |a| == |b|
    ensures SameBytes(hash, a, b) && SameBytes(hash, b, c) ==> SameBytes(hash, a, c)
    ensures |a| < 32 ==> (SameBytes(hash, a, b) <==> a == b)
    ensures |a| == |b| >= SHORT && Windows(a) == Windows(b) ==> SameBytes(hash, a, b)
  {
  }

  /** How often `w` occurs among three windows. */
  function Times(w: Bytes, ws: (Bytes, Bytes, Bytes)): nat {
    (if w == ws.0 then 1 else 0) + (if w == ws.1 then 1 else 0) + if w == ws.2 then 1 else 0
  }

  /** The same windows occur an odd number of times, wherever they stand. */
  ghost predicate SameParity(p: (Bytes, Bytes, Bytes), q: (Bytes, Bytes, Bytes)) {
    forall w :: Times(w, p) % 2 == Times(w, q) % 2
  }

  lemma XorCommutes(x: bv64, y: bv64)
    ensures Xor(x, y) == Xor(y, x)
  {
  }

  lemma XorAssociates(x: bv64, y: bv64, z: bv64)
    ensures Xor(Xor(x, y), z) == Xor(x, Xor(y, z))
  {
    assert (x ^ y) ^ z == x ^ (y ^ z);
  }

  lemma XorCancels(x: bv64, y: bv64)
    ensures Xor(x, x) == 0 && Xor(0, x) == x == Xor(x, 0)
  {
  }

  /** Equal windows cancel out, and their order does not matter. */
  lemma XorLaws(x: bv64, y: bv64, z: bv64)
    ensures Xor(Xor(x, y), z) == Xor(Xor(y, x), z) == Xor(Xor(x, z), y)
    ensures Xor(Xor(x, x), z) == Xor(Xor(x, z), x) == Xor(Xor(z, x), x) == z
  {
    hide Xor;
    XorCommutes(x, y);
    XorCommutes(y, z);
    XorCommutes(x, z);
    XorAssociates(x, y, z);
    XorAssociates(x, z, y);
    XorAssociates(x, x, z);
    XorAssociates(z, x, x);
    XorCancels(x, z);
    XorCancels(z, x);
  }

  /** A hash that tells one window from all others. */
  function Indicator(w: Bytes): Hash {
    (x: Bytes) => if x == w then 1 else 0
  }

  lemma IndicatorCounts(w: Bytes, ws: (Bytes, Bytes, Bytes))
    ensures Fold(Indicator(w), ws) == if Times(w, ws) % 2 == 1 then 1 else 0
  {
    hide Xor;
    XorCancels(0, 1);
    XorCancels(1, 0);
  }

  /** Three windows with a repetition fold to the hash of the one that is left. */
  lemma PairFolds(hash: Hash, ws: (Bytes, Bytes, Bytes)) returns (w: Bytes)
    requires ws.0 == ws.1 || ws.0 == ws.2 || ws.1 == ws.2
    ensures forall v :: Times(v, ws) % 2 == if v == w then 1 else 0
    ensures Fold(hash, ws) == hash(w)
  {
    hide Xor;
    w := if ws.0 == ws.1 then ws.2 else if ws.0 == ws.2 then ws.1 else ws.0;
    XorLaws(hash(if ws.0 == ws.1 then ws.0 else if ws.0 == ws.2 then ws.0 else ws.1), 0, hash(w));
  }

  ghost predicate Shuffle(p: (Bytes, Bytes, Bytes), q: (Bytes, Bytes, Bytes)) {
    || (q.0 == p.0 && ((q.1 == p.1 && q.2 == p.2) || (q.1 == p.2 && q.2 == p.1)))
    || (q.0 == p.1 && ((q.1 == p.0 && q.2 == p.2) || (q.1 == p.2 && q.2 == p.0)))
    || (q.0 == p.2 && ((q.1 == p.0 && q.2 == p.1) || (q.1 == p.1 && q.2 == p.0)))
  }

  /** Three different windows can only be shuffled. */
  lemma DistinctShuffle(p: (Bytes, Bytes, Bytes), q: (Bytes, Bytes, Bytes))
    requires SameParity(p, q) && p.0 != p.1 && p.0 != p.2 && p.1 != p.2
    ensures Shuffle(p, q)
  {
    assert Times(p.0, p) == 1 && Times(p.1, p) == 1 && Times(p.2, p) == 1;
    assert Times(p.0, q) % 2 == 1 && Times(p.1, q) % 2 == 1 && Times(p.2, q) % 2 == 1;
  }

  lemma SwapFolds(hash: Hash, x: Bytes, y: Bytes, z: Bytes)
    ensures Fold(hash, (x, y, z)) == Fold(hash, (y, x, z)) == Fold(hash, (x, z, y))
  {
    hide Xor;
    XorLaws(hash(x), hash(y), hash(z));
  }

  lemma ShuffleFolds(hash: Hash, p: (Bytes, Bytes, Bytes), q: (Bytes, Bytes, Bytes))
    requires Shuffle(p, q)
    ensures Fold(hash, p) == Fold(hash, q)
  {
    hide Fold;
    var (x, y, z) := p;
    SwapFolds(hash, x, y, z);
    SwapFolds(hash, y, x, z);
    SwapFolds(hash, z, x, y);
    SwapFolds(hash, x, z, y);
  }

  lemma ParityFolds(hash: Hash, p: (Bytes, Bytes, Bytes), q: (Bytes, Bytes, Bytes))
    requires SameParity(p, q)
    ensures Fold(hash, p) == Fold(hash, q)
  {
    hide Fold;
    if p.0 != p.1 && p.0 != p.2 && p.1 != p.2 {
      DistinctShuffle(p, q);
      ShuffleFolds(hash, p, q);
    } else if q.0 != q.1 && q.0 != q.2 && q.1 != q.2 {
      DistinctShuffle(q, p);
      ShuffleFolds(hash, q, p);
    } else {
      var v := PairFolds(hash, p);
      var w := PairFolds(hash, q);
      assert Times(v, p) % 2 == Times(v, q) % 2;
    }
  }

  /** Exactly when no choice of the hash could tell two long slices apart: the same windows occur an odd
      number of times in both. Exchanged windows and exchanged pairs of equal windows are among them. */
  lemma EqualForEveryHash(a: Bytes, b: Bytes)
    requires |a| == |b| >= SHORT
    ensures AlwaysSame(a, b) <==> SameParity(Windows(a), Windows(b))
  {
    hide Times, Windows;
    if SameParity(Windows(a), Windows(b)) {
      forall hash: Hash ensures SameBytes(hash, a, b) {
        ParityFolds(hash, Windows(a), Windows(b));
      }
    } else {
      var w :| Times(w, Windows(a)) % 2 != Times(w, Windows(b)) % 2;
      IndicatorCounts(w, Windows(a));
      IndicatorCounts(w, Windows(b));
      assert !SameBytes(Indicator(w), a, b);
    }
  }

  /** A change outside the windows goes unnoticed by every hash. */
  lemma BlindSpot(hash: Hash, a: Bytes, i: nat, x: byte)
    requires |a| >= 32 && (8 <= i < |a| / 2 || |a| / 2 + 8 <= i < |a| - 8)
    ensures SameBytes(hash, a, a[i := x])
  {
    assert Windows(a) == Windows(a[i := x]) by {
      assert a[..8] == a[i := x][..8];
      assert a[|a| / 2..|a| / 2 + 8] == a[i := x][|a| / 2..|a| / 2 + 8];
      assert a[|a| - 8..] == a[i := x][|a| - 8..];
    }
  }

  /** Position `i` of `a` is position `i - at` of its eight bytes from `at` on. */
  lemma WindowChanges(a: Bytes, i: nat, x: byte, at: nat)
    requires at + 8 <= |a| && i < |a|
    ensures a[i := x][at..at + 8] == if at <= i < at + 8 then a[at..at + 8][i - at := x] else a[at..at + 8]
    ensures at <= i < at + 8 && x != a[i] ==> a[i := x][at..at + 8] != a[at..at + 8]
  {
    if at <= i < at + 8 { assert a[i := x][at..at + 8][i - at] == x && a[at..at + 8][i - at] == a[i]; }
  }

  /** `a` and the three places its samples are taken from. */
  lemma WindowsAre(a: Bytes)
    requires |a| >= 32
    ensures Windows(a) == (a[0..8], a[|a| / 2..|a| / 2 + 8], a[|a| - 8..|a|])
  {
    assert a[..8] == a[0..8] && a[|a| - 8..] == a[|a| - 8..|a|];
  }

  /** A change of one byte of a long slice goes unnoticed by every hash exactly outside the samples. */
  lemma OneByteIff(a: Bytes, i: nat, x: byte)
    requires i < |a| && |a| >= 32 && x != a[i]
    ensures AlwaysSame(a, a[i := x]) <==> 8 <= i < |a| / 2 || |a| / 2 + 8 <= i < |a| - 8
  {
    if 8 <= i < |a| / 2 || |a| / 2 + 8 <= i < |a| - 8 {
      var b := a[i := x];
      forall hash: Hash ensures SameBytes(hash, a, b) {
        BlindSpot(hash, a, i, x);
      }
    } else {
      var hash := SampledByteTells(a, i, x);
    }
  }

  /** A change of any sampled byte is told by some hash. */
  lemma SampledByteTells(a: Bytes, i: nat, x: byte) returns (hash: Hash)
    requires i < |a| && |a| >= 32 && x != a[i]
    requires i < 8 || |a| / 2 <= i < |a| / 2 + 8 || |a| - 8 <= i
    ensures !SameBytes(hash, a, a[i := x])
  {
    hide Times, Fold, Indicator, Windows, SameBytes;
    var b := a[i := x];
    WindowsAre(a);
    WindowsAre(b);
    WindowChanges(a, i, x, 0);
    WindowChanges(a, i, x, |a| / 2);
    WindowChanges(a, i, x, |a| - 8);
    hash := OneWindowTells(a, b);
  }

  lemma OneWindowTells(a: Bytes, b: Bytes) returns (hash: Hash)
    requires |a| == |b| >= 32
    requires var (p, q) := (Windows(a), Windows(b));
      || (q.0 != p.0 && q.1 == p.1 && q.2 == p.2)
      || (q.0 == p.0 && q.1 != p.1 && q.2 == p.2)
      || (q.0 == p.0 && q.1 == p.1 && q.2 != p.2)
    ensures !SameBytes(hash, a, b)
  {
    hide Fold, Indicator, Windows;
    var p, q := Windows(a), Windows(b);
    var w := if q.0 != p.0 then q.0 else if q.1 != p.1 then q.1 else q.2;
    assert Times(w, q) == Times(w, p) + 1;
    IndicatorCounts(w, p);
    IndicatorCounts(w, q);
    hash := Indicator(w);
  }
}
