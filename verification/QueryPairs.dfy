/** pkg/model/query.go: a query string taken apart in one pass into a reused slice of pairs, which is
    then filtered and sorted in place. Go's nil value slice is the empty sequence here. */
module QueryPairs {
  import opened ByteCompare
  import opened KeySort

  const AMP: byte := 38
  const EQ: byte := 61
  const QUESTION: byte := 63

  // ---------------------------------------------------------------------------------------------
  // What the tokenizer is for, said without its state

  /** The pieces between ampersands; always at least one. */
  function Split(b: Bytes): (segments: seq<Bytes>)
    ensures segments != []
  {
    if b == [] then [[]]
    else
      var rest := Split(b[1..]);
      if b[0] == AMP then [[]] + rest else [[b[0]] + rest[0]] + rest[1..]
  }

  function FirstEq(s: Bytes): (i: nat)
    ensures i <= |s|
  {
    if s == [] || s[0] == EQ then 0 else 1 + FirstEq(s[1..])
  }

  /** A segment cut at its first '='; without one it is all key. */
  function Cut(segment: Bytes): Pair {
    var i := FirstEq(segment);
    if i < |segment| then (segment[..i], segment[i + 1..]) else (segment, [])
  }

  function Cuts(segments: seq<Bytes>): seq<Pair> {
    if segments == [] then [] else [Cut(segments[0])] + Cuts(segments[1..])
  }

  /** An empty first segment, or a lone '=', gives no pair; later ones do. */
  function Pairs(b: Bytes): seq<Pair> {
    var segments := Split(b);
    Cuts(if segments[0] == [] || segments[0] == [EQ] then segments[1..] else segments)
  }

  /** The queries the tokenizer cannot take: its first key would end before it starts. */
  predicate Chokes(b: Bytes) {
    |b| >= 2 && b[0] == EQ && b[1] != AMP
  }

  function Trimmed(b: Bytes): Bytes {
    if b != [] && b[0] == QUESTION then Trimmed(b[1..]) else b
  }

  predicate Allowed(key: Bytes, allowed: seq<Bytes>) {
    exists i :: 0 <= i < |allowed| && allowed[i] <= key
  }

  function Filtered(pairs: seq<Pair>, allowed: seq<Bytes>): seq<Pair> {
    if pairs == [] then []
    else (if Allowed(pairs[0].0, allowed) then [pairs[0]] else []) + Filtered(pairs[1..], allowed)
  }

  /** What a query contributes to the cache key. */
  function KeyPairs(query: Bytes, allowed: seq<Bytes>): seq<Pair> {
    Sorted(Filtered(Pairs(Trimmed(query)), allowed))
  }

  // ---------------------------------------------------------------------------------------------
  // The slice of pairs

  /** A Go slice from the pool: `data` is its backing array, which may hold old pairs behind `len`. */
  class PairSlice {
    var data: array<Pair>
    var len: nat

    ghost predicate Valid()
      reads this
    {
      len <= data.Length
    }

    ghost function Elems(): seq<Pair>
      reads this, data
      requires Valid()
    {
      data[..len]
    }

    constructor (capacity: nat)
      ensures Valid() && Elems() == [] && fresh(data)
    {
      data := new Pair[capacity];
      len := 0;
    }

    /** Writes pair `n`, within the length, within the capacity, or by growing. */
    method Put(n: nat, p: Pair)
      requires Valid() && n <= len
      modifies this, data
      ensures Valid() && (data == old(data) || fresh(data))
      ensures Elems() == if n < old(len) then old(Elems())[n := p] else old(Elems()) + [p]
    {
      if n < data.Length {
        if n >= len { len := n + 1; }
        data[n] := p;
      } else {
        var grown := new Pair[2 * data.Length + 1];
        forall i | 0 <= i < len {
          grown[i] := data[i];
        }
        grown[len] := p;
        data, len := grown, len + 1;
      }
    }
  }

  // ---------------------------------------------------------------------------------------------
  // The one-pass tokenizer

  datatype Cursor = Cursor(kIdx: nat, vIdx: nat, kFound: bool, vFound: bool)

  lemma {:induction false} FirstEqAt(s: Bytes, i: nat)
    requires i <= |s| && EQ !in s[..i] && (i < |s| ==> s[i] == EQ)
    ensures FirstEq(s) == i
  {
    if i > 0 {
      assert s[0] in s[..i];
      assert s[1..][..i - 1] == s[..i][1..];
      FirstEqAt(s[1..], i - 1);
    }
  }

  /** A segment without ampersands in front of an ampersand, or at the end, is split off whole. */
  lemma {:induction false} SplitsOff(b: Bytes, i: nat)
    requires i <= |b| && AMP !in b[..i] && (i < |b| ==> b[i] == AMP)
    ensures Split(b) == [b[..i]] + if i < |b| then Split(b[i + 1..]) else []
  {
    if i > 0 {
      assert b[0] in b[..i];
      assert b[1..][..i - 1] == b[..i][1..];
      SplitsOff(b[1..], i - 1);
      if i < |b| { assert b[1..][i..] == b[i + 1..]; }
      assert [b[0]] + b[1..][..i - 1] == b[..i];
    } else {
      assert b[..0] == [];
    }
  }

  /** The cursor describes the segment that starts at `start` and is read up to `idx`. */
  ghost predicate Reads(b: Bytes, start: nat, idx: nat, s: Cursor) {
    && start <= idx <= |b| && AMP !in b[start..idx]
    && (!s.vFound ==> EQ !in b[start..idx])
    && (s.vFound ==> start < s.vIdx <= idx && b[s.vIdx - 1] == EQ && EQ !in b[start..s.vIdx - 1])
    // only in the first segment a key may not have been found yet: before its first byte or after a '='
    && (s.kFound && !Chokes(b) ==> s.kIdx == start)
    && (s.kFound && Chokes(b) ==> start == 0 && s == Cursor(1, 1, true, true))
    && (!s.kFound ==> start == 0 && idx == (if s.vFound then 1 else 0))
    && (start == 0 && s.kFound && !Chokes(b) ==> idx > 0 && b[0] != EQ)
  }

  /** The pairs still to come when everything before the segment at `start` has been put. */
  ghost function Ahead(b: Bytes, start: nat): seq<Pair>
    requires start <= |b|
  {
    if start == 0 then Pairs(b) else Cuts(Split(b[start..]))
  }

  predicate Bounded(s: Cursor, idx: nat) {
    s.kIdx <= idx && (s.vFound ==> s.kIdx < s.vIdx <= idx)
  }

  /** The pair of the current segment, as the tokenizer slices it. */
  function Sliced(b: Bytes, s: Cursor, idx: nat): Pair
    requires idx <= |b| && Bounded(s, idx)
  {
    if s.vFound then (b[s.kIdx..s.vIdx - 1], b[s.vIdx..idx]) else (b[s.kIdx..idx], [])
  }

  lemma SlicedIsCut(b: Bytes, start: nat, idx: nat, s: Cursor)
    requires Reads(b, start, idx, s) && s.kFound && !Chokes(b)
    ensures Sliced(b, s, idx) == Cut(b[start..idx])
  {
    var segment := b[start..idx];
    if s.vFound {
      assert segment[..s.vIdx - 1 - start] == b[start..s.vIdx - 1];
      FirstEqAt(segment, s.vIdx - 1 - start);
      assert segment[s.vIdx - start..] == b[s.vIdx..idx];
    } else {
      assert segment[..|segment|] == segment;
      FirstEqAt(segment, |segment|);
    }
  }

  /** At an ampersand or at the end, what is ahead is the pair of the segment, if a key was found, and
      what is ahead of the next segment. */
  lemma SegmentEnds(b: Bytes, start: nat, idx: nat, s: Cursor)
    requires Reads(b, start, idx, s) && !Chokes(b) && (idx < |b| ==> b[idx] == AMP)
    ensures Ahead(b, start) == (if s.kFound then [Sliced(b, s, idx)] else [])
                             + (if idx < |b| then Ahead(b, idx + 1) else [])
  {
    var rest := b[start..];
    var i := idx - start;
    assert rest[..i] == b[start..idx];
    SplitsOff(rest, i);
    var later := if i < |rest| then Split(rest[i + 1..]) else [];
    if idx < |b| { assert rest[i + 1..] == b[idx + 1..]; }
    assert Split(rest)[0] == b[start..idx] && Split(rest)[1..] == later;
    if start == 0 { assert rest == b; }
    if s.kFound {
      SlicedIsCut(b, start, idx, s);
      if start == 0 { assert b[start..idx][0] == b[0]; }
      assert [Sliced(b, s, idx)] + [] == [Sliced(b, s, idx)];
    } else {
      if s.vFound { assert b[0..1] == [EQ]; }
    }
    if idx == |b| { assert Cuts(later) == []; }
  }

  function Next(s: Cursor, idx: nat, bt: byte): Cursor {
    if bt == AMP then Cursor(idx + 1, 0, true, false)
    else if bt == EQ && !s.vFound then s.(vIdx := idx + 1, vFound := true)
    else if !s.kFound then s.(kIdx := idx, kFound := true)
    else s
  }

  /** A byte inside a segment. */
  lemma ReadsOn(b: Bytes, start: nat, idx: nat, s: Cursor)
    requires Reads(b, start, idx, s) && idx < |b| && b[idx] != AMP
    ensures Reads(b, start, idx + 1, Next(s, idx, b[idx]))
  {
    assert b[start..idx + 1] == b[start..idx] + [b[idx]];
  }

  /** The ampersand behind a segment. */
  lemma ReadsAnew(b: Bytes, start: nat, idx: nat, s: Cursor)
    requires Reads(b, start, idx, s) && idx < |b| && b[idx] == AMP
    requires s.kFound && s.vFound ==> s.kIdx < s.vIdx
    ensures !Chokes(b) && Reads(b, idx + 1, idx + 1, Next(s, idx, AMP))
  {
  }

  /** Where a key is sliced, the slice is out of bounds just when the query is one it chokes on. */
  lemma ChokesHere(b: Bytes, start: nat, idx: nat, s: Cursor)
    requires Reads(b, start, idx, s) && s.kFound
    ensures s.vFound && s.vIdx - 1 < s.kIdx <==> Chokes(b)
    ensures !Chokes(b) ==> Bounded(s, idx)
  {
  }

  /** Where the pass stands: the pairs put so far and those ahead are all the pairs of the query. */
  ghost predicate Told(b: Bytes, start: nat, idx: nat, s: Cursor, put: seq<Pair>) {
    && start <= idx
    && Reads(b, start, idx, s)
    && (!Chokes(b) ==> Pairs(b) == put + Ahead(b, start))
  }

  lemma ToldAtFirst(b: Bytes)
    ensures Told(b, 0, 0, Cursor(0, 0, false, false), [])
  {
    assert [] + Ahead(b, 0) == Pairs(b);
  }

  lemma Associative(x: seq<Pair>, y: seq<Pair>, z: seq<Pair>)
    ensures x + (y + z) == x + y + z
  {
  }

  lemma ToldOn(b: Bytes, start: nat, idx: nat, s: Cursor, put: seq<Pair>)
    requires Told(b, start, idx, s, put) && idx < |b| && b[idx] != AMP
    ensures Told(b, start, idx + 1, Next(s, idx, b[idx]), put)
  {
    hide Reads, Chokes, Pairs, Ahead, Next;
    ReadsOn(b, start, idx, s);
  }

  /** Past an ampersand, with the pair of the segment put if there is one. */
  lemma ToldAnew(b: Bytes, start: nat, idx: nat, s: Cursor, put: seq<Pair>)
    requires Told(b, start, idx, s, put) && idx < |b| && b[idx] == AMP && (s.kFound ==> !Chokes(b))
    ensures !Chokes(b) && (s.kFound ==> Bounded(s, idx))
    ensures Told(b, idx + 1, idx + 1, Cursor(idx + 1, 0, true, false),
      put + if s.kFound then [Sliced(b, s, idx)] else [])
  {
    if s.kFound { ChokesHere(b, start, idx, s); }
    ReadsAnew(b, start, idx, s);
    hide Reads, Chokes, Pairs, Ahead, Sliced;
    SegmentEnds(b, start, idx, s);
    Associative(put, if s.kFound then [Sliced(b, s, idx)] else [], Ahead(b, idx + 1));
  }

  lemma ToldAtLast(b: Bytes, start: nat, s: Cursor, put: seq<Pair>)
    requires Told(b, start, |b|, s, put) && (s.kFound ==> !Chokes(b))
    ensures !Chokes(b) && (s.kFound ==> Bounded(s, |b|))
    ensures Pairs(b) == put + if s.kFound then [Sliced(b, s, |b|)] else []
  {
    if s.kFound { ChokesHere(b, start, |b|, s); }
    assert !Chokes(b);
    hide Reads, Chokes, Pairs, Ahead, Sliced;
    SegmentEnds(b, start, |b|, s);
  }

  /** Slices the segment read up to `idx` and writes its pair; `true` if a slice is out of bounds. */
  method PutSegment(b: Bytes, ghost start: nat, idx: nat, s: Cursor, out: PairSlice, n: nat) returns (panicked: bool)
    requires out.Valid() && n == out.len
    requires idx <= |b| && Told(b, start, idx, s, out.Elems()) && s.kFound
    modifies out, out.data
    ensures out.Valid() && (out.data == old(out.data) || fresh(out.data))
    ensures panicked == Chokes(b)
    ensures !panicked ==> out.len == n + 1 && Bounded(s, idx)
    ensures !panicked ==> out.Elems() == old(out.Elems()) + [Sliced(b, s, idx)]
  {
    ChokesHere(b, start, idx, s);
    hide Reads, Chokes;
    if s.vFound {
      if s.vIdx - 1 < s.kIdx { return true; }
      out.Put(n, (b[s.kIdx..s.vIdx - 1], b[s.vIdx..idx]));
    } else {
      out.Put(n, (b[s.kIdx..idx], []));
    }
    return false;
  }

  /** One pass over a trimmed query. It panics exactly on the queries it chokes on, and otherwise
      leaves the pairs of the query in the slice. */
  method Tokenize(b: Bytes, out: PairSlice) returns (panicked: bool)
    requires out.Valid() && out.len == 0
    modifies out, out.data
    ensures out.Valid() && (out.data == old(out.data) || fresh(out.data))
    ensures panicked <==> |b| >= 2 && b[0] == 61 && b[1] != 38
    ensures panicked == Chokes(b)
    ensures !panicked ==> out.Elems() == Pairs(b)
  {
    ChokesIff(b);
    hide Told, Chokes, Pairs, Sliced, Bounded;
    var s, n := Cursor(0, 0, false, false), 0;
    ghost var start := 0;
    ToldAtFirst(b);
    for idx := 0 to |b|
      invariant out.Valid() && (out.data == old(out.data) || fresh(out.data)) && n == out.len
      invariant Told(b, start, idx, s, out.Elems())
    {
      var bt := b[idx];
      ghost var put := out.Elems();
      if bt == AMP {
        if s.kFound {
          panicked := PutSegment(b, start, idx, s, out, n);
          if panicked { return; }
          n := n + 1;
        }
        ToldAnew(b, start, idx, s, put);
        assert put + [] == put;
        s := Cursor(idx + 1, 0, true, false);
        start := idx + 1;
      } else {
        ToldOn(b, start, idx, s, put);
        if bt == EQ && !s.vFound {
          s := s.(vIdx := idx + 1, vFound := true);
        } else if !s.kFound {
          s := s.(kIdx := idx, kFound := true);
        }
      }
    }
    ghost var put := out.Elems();
    if s.kFound {
      panicked := PutSegment(b, start, |b|, s, out, n);
      if panicked { return; }
      n := n + 1;
    }
    ToldAtLast(b, start, s, put);
    assert put + [] == put;
    return false;
  }

  // ---------------------------------------------------------------------------------------------
  // Filtering in place, and the whole

  lemma {:induction false} FilteredGrows(pairs: seq<Pair>, p: Pair, allowed: seq<Bytes>)
    ensures Filtered(pairs + [p], allowed) == Filtered(pairs, allowed) + if Allowed(p.0, allowed) then [p] else []
  {
    if pairs == [] {
      assert (pairs + [p])[1..] == [];
    } else {
      FilteredGrows(pairs[1..], p, allowed);
      assert (pairs + [p])[1..] == pairs[1..] + [p];
    }
  }

  method IsAllowed(key: Bytes, allowed: seq<Bytes>) returns (keep: bool)
    ensures keep == Allowed(key, allowed)
  {
    for i := 0 to |allowed|
      invariant forall j :: 0 <= j < i ==> !(allowed[j] <= key)
    {
      if allowed[i] <= key { return true; }
    }
    return false;
  }

  /** Keeps the allowed pairs, writing over the dropped ones, and sorts what is left. */
  method FilterAndSortInPlace(q: PairSlice, allowed: seq<Bytes>)
    requires q.Valid()
    modifies q`len, q.data
    ensures q.Valid() && q.Elems() == Sorted(Filtered(old(q.Elems()), allowed))
  {
    hide Allowed;
    ghost var was := q.Elems();
    var data, n := q.data, 0;
    for i := 0 to q.len
      invariant n <= i <= q.len == |was| <= data.Length && q.data == data
      invariant data[..n] == Filtered(was[..i], allowed)
      invariant forall k :: i <= k < q.len ==> data[k] == was[k]
    {
      var kv := data[i];
      FilteredGrows(was[..i], kv, allowed);
      assert was[..i + 1] == was[..i] + [kv];
      var keep := IsAllowed(kv.0, allowed);
      if keep {
        data[n] := kv;
        n := n + 1;
        assert data[..n] == data[..n - 1] + [kv];
      }
    }
    assert was[..q.len] == was;
    if n > 1 { KVSlice(data, n); } else { ShortSorted(data[..n]); }
    q.len := n;
  }

  lemma ShortSorted(s: seq<Pair>)
    requires |s| <= 1
    ensures Sorted(s) == s
  {
    hide Inserted;
    if |s| == 1 {
      assert s == [s[0]];
      OneSorted(s[0]);
    }
  }

  /** The pairs of a query that enter the cache key, whatever the pooled slice held before. It panics
      exactly when the trimmed query starts with '=' and its first segment goes on behind that. */
  method ParseFilterAndSortQuery(query: Bytes, allowed: seq<Bytes>, out: PairSlice) returns (panicked: bool)
    requires out.Valid()
    modifies out, out.data
    ensures out.Valid()
    ensures panicked == Chokes(Trimmed(query))
    ensures !panicked ==> out.Elems() == KeyPairs(query, allowed)
    ensures !panicked ==> out.Elems() == Sorted(Filtered(Pairs(Trimmed(query)), allowed))
  {
    out.len := 0;
    panicked := Tokenize(Trimmed(query), out);
    if !panicked { FilterAndSortInPlace(out, allowed); }
  }

  // ---------------------------------------------------------------------------------------------
  // The parts of it, one by one

  lemma ChokesIff(b: Bytes)
    ensures Chokes(b) <==> |b| >= 2 && b[0] == 61 && b[1] != 38
  {
  }

  /** Trimming takes off the question marks in front, all of them and nothing else. */
  lemma {:induction false} TrimmedIs(b: Bytes) returns (n: nat)
    ensures n <= |b| && Trimmed(b) == b[n..]
    ensures forall i :: 0 <= i < n ==> b[i] == 63
    ensures n == |b| || b[n] != 63
  {
    n := 0;
    if b != [] && b[0] == QUESTION {
      var m := TrimmedIs(b[1..]);
      n := m + 1;
      assert b[1..][m..] == b[n..];
      assert forall i :: 0 < i < n ==> b[i] == b[1..][i - 1];
    }
  }

  /** A pair is kept, in its place, exactly when some allowed name is a prefix of its key. */
  lemma FilteredKeeps(front: seq<Pair>, p: Pair, back: seq<Pair>, allowed: seq<Bytes>)
    ensures Filtered([], allowed) == []
    ensures Filtered(front + [p] + back, allowed) == Filtered(front, allowed)
      + (if exists i :: 0 <= i < |allowed| && |allowed[i]| <= |p.0| && p.0[..|allowed[i]|] == allowed[i]
         then [p] else [])
      + Filtered(back, allowed)
  {
    FilteredConcat(front + [p], back, allowed);
    FilteredConcat(front, [p], allowed);
    assert Filtered([p], allowed) == if Allowed(p.0, allowed) then [p] else [];
  }

  lemma {:induction false} FilteredConcat(a: seq<Pair>, b: seq<Pair>, allowed: seq<Bytes>)
    ensures Filtered(a + b, allowed) == Filtered(a, allowed) + Filtered(b, allowed)
  {
    hide Allowed;
    if a == [] {
      assert a + b == b;
    } else {
      FilteredConcat(a[1..], b, allowed);
      assert (a + b)[1..] == a[1..] + b;
    }
  }

  /** A segment is cut at its first equals sign, which goes. */
  lemma CutIs(key: Bytes, value: Bytes)
    requires 61 !in key
    ensures Cut(key) == (key, []) && Cut(key + [61] + value) == (key, value)
  {
    FirstEqAt(key, |key|);
    var segment := key + [61] + value;
    assert segment[..|key|] == key && segment[|key| + 1..] == value;
    FirstEqAt(segment, |key|);
  }

  /** Segments end at ampersands, each gives its pair; a first one that is empty or a lone equals sign
      gives none. */
  lemma PairsOf(first: Bytes, rest: Bytes)
    requires 38 !in first
    ensures Pairs(first + [38] + rest)
         == (if first == [] || first == [61] then [] else [Cut(first)]) + Cuts(Split(rest))
    ensures Pairs(first) == if first == [] || first == [61] then [] else [Cut(first)]
    ensures Cuts(Split(first + [38] + rest)) == [Cut(first)] + Cuts(Split(rest))
    ensures Cuts(Split(first)) == [Cut(first)]
  {
    var b := first + [38] + rest;
    assert b[..|first|] == first && b[|first| + 1..] == rest && first[..|first|] == first;
    SplitsOff(b, |first|);
    SplitsOff(first, |first|);
    assert ([first] + Split(rest))[1..] == Split(rest);
    assert Split(first) == [first];
    assert Cuts(Split(first)[1..]) == [];
  }
}
