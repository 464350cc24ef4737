/** pkg/model/header.go and pkg/model/keys.go: the headers that enter a cache key, and the key, the
    fingerprint and the shard computed from queries and headers. The hashes are parameters. */
module CacheKeys {
  import opened ByteCompare
  import opened StableOrder
  import opened Wrappers
  import opened KeySort
  import opened QueryPairs
  import opened CacheEntry
  import PayloadCodec
  import Wire

  const SHARDS: nat := 2048

  /** Go visits a map's keys in any order, each once. */
  ghost predicate Enumerates(order: seq<Bytes>, names: set<Bytes>) {
    && (forall name :: name in order <==> name in names)
    && (forall i, j :: 0 <= i < j < |order| ==> order[i] != order[j])
  }

  /** The configured headers the request has a value for. */
  function Selected(order: seq<Bytes>, peek: Bytes -> Bytes): seq<Pair> {
    if order == [] then []
    else (if peek(order[0]) != [] then [(order[0], peek(order[0]))] else []) + Selected(order[1..], peek)
  }

  lemma {:induction false} SelectedClass(order: seq<Bytes>, names: set<Bytes>, peek: Bytes -> Bytes, k: Bytes)
    requires Enumerates(order, names)
    ensures Class(Selected(order, peek), KeyOf, k) == if k in names && peek(k) != [] then [(k, peek(k))] else []
    decreases |order|
  {
    if order != [] {
      var rest := names - {order[0]};
      assert order == [order[0]] + order[1..];
      forall name ensures name in order[1..] <==> name in rest {
        if name in order[1..] {
          var i :| 0 <= i < |order| - 1 && order[1..][i] == name;
          assert order[i + 1] == name;
        }
      }
      SelectedClass(order[1..], rest, peek, k);
      var first := if peek(order[0]) != [] then [(order[0], peek(order[0]))] else [];
      ClassConcat(first, Selected(order[1..], peek), KeyOf, k);
    }
  }

  /** The order in which the map is visited makes no difference once the pairs are sorted. */
  lemma AnyOrderSorts(order: seq<Bytes>, other: seq<Bytes>, names: set<Bytes>, peek: Bytes -> Bytes)
    requires Enumerates(order, names) && Enumerates(other, names)
    ensures Sorted(Selected(order, peek)) == Sorted(Selected(other, peek))
  {
    forall k ensures Class(Selected(order, peek), KeyOf, k) == Class(Selected(other, peek), KeyOf, k) {
      SelectedClass(order, names, peek, k);
      SelectedClass(other, names, peek, k);
    }
    SortedAgreeIff(Selected(order, peek), Selected(other, peek));
  }

  lemma {:induction false} AnEnumeration(names: set<Bytes>) returns (order: seq<Bytes>)
    ensures Enumerates(order, names)
  {
    if names == {} {
      order := [];
    } else {
      var name :| name in names;
      var rest := AnEnumeration(names - {name});
      order := [name] + rest;
    }
  }

  lemma EnumerationExists(names: set<Bytes>)
    ensures exists order :: Enumerates(order, names)
  {
    var order := AnEnumeration(names);
  }

  lemma {:induction false} SelectedGrows(order: seq<Bytes>, name: Bytes, peek: Bytes -> Bytes)
    ensures Selected(order + [name], peek) == Selected(order, peek)
        + if peek(name) != [] then [(name, peek(name))] else []
  {
    if order == [] {
      assert (order + [name])[1..] == [];
    } else {
      SelectedGrows(order[1..], name, peek);
      assert (order + [name])[1..] == order[1..] + [name];
    }
  }

  lemma VisitOne(visited: seq<Bytes>, names: set<Bytes>, rest: set<Bytes>, key: Bytes)
    requires key in rest && rest <= names && Enumerates(visited, names - rest)
    ensures Enumerates(visited + [key], names - (rest - {key}))
  {
  }

  /** The headers with a value, in some order of visiting the map. */
  method CollectHeaders(names: set<Bytes>, peek: Bytes -> Bytes, out: PairSlice) returns (ghost visited: seq<Bytes>)
    requires out.Valid() && out.len == 0
    modifies out, out.data
    ensures out.Valid() && (out.data == old(out.data) || fresh(out.data))
    ensures Enumerates(visited, names) && out.Elems() == Selected(visited, peek)
  {
    var rest, n := names, 0;
    visited := [];
    assert out.Elems() == Selected(visited, peek) && Enumerates(visited, names - rest);
    hide Selected, Enumerates;
    while rest != {}
      invariant out.Valid() && out.len == n && (out.data == old(out.data) || fresh(out.data))
      invariant rest <= names && Enumerates(visited, names - rest)
      invariant out.Elems() == Selected(visited, peek)
      decreases |rest|
    {
      var key :| key in rest;
      SelectedGrows(visited, key, peek);
      VisitOne(visited, names, rest, key);
      var value := peek(key);
      if |value| > 0 {
        out.Put(n, (key, value));
        n := n + 1;
      } else {
        assert out.Elems() + [] == out.Elems();
      }
      visited, rest := visited + [key], rest - {key};
    }
    assert names - {} == names;
  }

  /** The selected headers, sorted; the same for every order in which the map could be visited. */
  method GetFilteredAndSortedKeyHeaders(names: set<Bytes>, peek: Bytes -> Bytes, out: PairSlice)
    requires out.Valid()
    modifies out, out.data
    ensures out.Valid()
    ensures forall order :: Enumerates(order, names) ==> out.Elems() == Sorted(Selected(order, peek))
  {
    hide Selected, Enumerates, Sorted;
    out.len := 0;
    ghost var visited := CollectHeaders(names, peek, out);
    if out.len > 1 { KVSlice(out.data, out.len); } else { ShortSorted(out.Elems()); }
    forall order | Enumerates(order, names) ensures out.Elems() == Sorted(Selected(order, peek)) {
      AnyOrderSorts(visited, order, names, peek);
    }
  }

  function Flat(pairs: seq<Pair>): Bytes {
    if pairs == [] then [] else pairs[0].0 + pairs[0].1 + Flat(pairs[1..])
  }

  /** What the hasher is fed: queries, then headers, nothing in between. */
  function KeyBytes(queries: seq<Pair>, headers: seq<Pair>): Bytes {
    Flat(queries) + Flat(headers)
  }

  /** The bytes that stand for a request, whatever order its headers are visited in. */
  ghost function Canonical(query: Bytes, allowed: seq<Bytes>, names: set<Bytes>, peek: Bytes -> Bytes): Bytes {
    EnumerationExists(names);
    var order :| Enumerates(order, names);
    KeyBytes(KeyPairs(query, allowed), Sorted(Selected(order, peek)))
  }

  lemma CanonicalIs(query: Bytes, allowed: seq<Bytes>, names: set<Bytes>, peek: Bytes -> Bytes, order: seq<Bytes>)
    requires Enumerates(order, names)
    ensures Canonical(query, allowed, names, peek) == KeyBytes(KeyPairs(query, allowed), Sorted(Selected(order, peek)))
  {
    EnumerationExists(names);
    var other :| Enumerates(other, names)
      && Canonical(query, allowed, names, peek) == KeyBytes(KeyPairs(query, allowed), Sorted(Selected(other, peek)));
    AnyOrderSorts(order, other, names, peek);
  }

  /** Two queries whose key-relevant pairs differ only by a reordering that keeps the pairs of each key
      in order stand for the same cache key. */
  lemma SameCanonical(query: Bytes, other: Bytes, allowed: seq<Bytes>, names: set<Bytes>, peek: Bytes -> Bytes)
    requires SameClasses(Filtered(Pairs(Trimmed(query)), allowed), Filtered(Pairs(Trimmed(other)), allowed), KeyOf)
    ensures Canonical(query, allowed, names, peek) == Canonical(other, allowed, names, peek)
  {
    SortedAgreeIff(Filtered(Pairs(Trimmed(query)), allowed), Filtered(Pairs(Trimmed(other)), allowed));
    var order := AnEnumeration(names);
    CanonicalIs(query, allowed, names, peek, order);
    CanonicalIs(other, allowed, names, peek, order);
  }

  type U64 = n: nat | n < Wire.TWO_64

  /** xxh3 with 64 and with 128 bits, the latter as its low and high word. */
  datatype Hasher = Hasher(sum64: Bytes -> U64, sum128: Bytes -> (U64, U64))

  function Fingerprint(hasher: Hasher, data: Bytes): (f: Bytes)
    ensures |f| == 16
  {
    var (lo, hi) := hasher.sum128(data);
    Wire.PutU64(lo) + Wire.PutU64(hi)
  }

  lemma {:induction false} FlatPrefix(pairs: seq<Pair>, i: nat)
    requires i < |pairs|
    ensures Flat(pairs[..i + 1]) == Flat(pairs[..i]) + pairs[i].0 + pairs[i].1
    ensures |Flat(pairs[..i + 1])| <= |Flat(pairs)|
  {
    if i > 0 {
      FlatPrefix(pairs[1..], i - 1);
      assert pairs[..i + 1][1..] == pairs[1..][..i] && pairs[..i][1..] == pairs[1..][..i - 1];
    } else {
      assert pairs[..1][1..] == [];
    }
  }

  method FlatSize(pairs: seq<Pair>) returns (l: nat)
    ensures l == |Flat(pairs)|
  {
    l := 0;
    for i := 0 to |pairs|
      invariant l == |Flat(pairs[..i])|
    {
      FlatPrefix(pairs, i);
      l := l + |pairs[i].0| + |pairs[i].1|;
    }
    assert pairs[..|pairs|] == pairs;
  }

  method WritePairs(buf: array<byte>, len: nat, pairs: seq<Pair>) returns (end: nat)
    requires len + |Flat(pairs)| <= buf.Length
    modifies buf
    ensures end == len + |Flat(pairs)| && buf[..end] == old(buf[..len]) + Flat(pairs)
  {
    end := len;
    assert Flat(pairs[..0]) == [] && buf[..len] + [] == buf[..len];
    hide Flat;
    for i := 0 to |pairs|
      invariant len <= end == len + |Flat(pairs[..i])| <= len + |Flat(pairs)|
      invariant buf[..end] == old(buf[..len]) + Flat(pairs[..i])
    {
      FlatPrefix(pairs, i);
      end := PayloadCodec.Append(buf, end, pairs[i].0);
      end := PayloadCodec.Append(buf, end, pairs[i].1);
      assert old(buf[..len]) + (Flat(pairs[..i]) + pairs[i].0 + pairs[i].1)
          == old(buf[..len]) + Flat(pairs[..i]) + pairs[i].0 + pairs[i].1;
    }
    assert pairs[..|pairs|] == pairs;
  }

  /** Writes the pairs into a buffer that is grown once, hashes it, and derives the shard. */
  method CalculateKeys(queries: seq<Pair>, headers: seq<Pair>, hasher: Hasher)
    returns (key: nat, fingerprint: Bytes, shard: nat)
    ensures key == hasher.sum64(KeyBytes(queries, headers))
    ensures fingerprint == Fingerprint(hasher, KeyBytes(queries, headers))
    ensures shard == key % SHARDS
  {
    var l := FlatSize(queries);
    var m := FlatSize(headers);
    var buf := new byte[l + m];
    var len := WritePairs(buf, 0, queries);
    len := WritePairs(buf, len, headers);
    assert buf[..0] == [];
    assert buf[..] == buf[..len] == KeyBytes(queries, headers);
    key := hasher.sum64(buf[..]);
    fingerprint := Fingerprint(hasher, buf[..]);
    shard := key % SHARDS;
  }

  /** The entry for a request and its response carries the keys of the request's canonical bytes and
      the packed message; `None` when the query is one the tokenizer chokes on. */
  method NewEntryWithPayload(m: PayloadCodec.Message, allowed: seq<Bytes>, names: set<Bytes>, peek: Bytes -> Bytes,
                             hasher: Hasher, now: int)
    returns (e: Option<Entry>)
    ensures e.None? <==> Chokes(Trimmed(m.query))
    ensures e.Some? ==> var data := Canonical(m.query, allowed, names, peek);
      && fresh(e.value)
      && e.value.key == hasher.sum64(data)
      && e.value.fingerprint == Fingerprint(hasher, data)
      && e.value.shard == e.value.key % SHARDS
      && e.value.payload == Some(Payload(PayloadCodec.Packed(m), |PayloadCodec.Packed(m)|))
  {
    var queries := new PairSlice(32);
    var panicked := ParseFilterAndSortQuery(m.query, allowed, queries);
    if panicked { return None; }
    var headers := new PairSlice(32);
    GetFilteredAndSortedKeyHeaders(names, peek, headers);
    ghost var order := AnEnumeration(names);
    CanonicalIs(m.query, allowed, names, peek, order);
    var key, fingerprint, shard := CalculateKeys(queries.data[..queries.len], headers.data[..headers.len], hasher);
    var entry := new Entry(key, shard, fingerprint, None, now);
    entry.SetPayload(m, now);
    return Some(entry);
  }

  /** Requests that differ may still share their key bytes: nothing separates a key from its value. */
  lemma BoundariesVanish(key: Bytes, x: Bytes, value: Bytes, rest: seq<Pair>, headers: seq<Pair>)
    ensures KeyBytes([(key + x, value)] + rest, headers) == KeyBytes([(key, x + value)] + rest, headers)
  {
    assert ([(key + x, value)] + rest)[1..] == rest == ([(key, x + value)] + rest)[1..];
    assert key + x + value == key + (x + value);
  }

  // ---------------------------------------------------------------------------------------------
  // What the key bytes tell

  lemma {:induction false} FlatConcat(a: seq<Pair>, b: seq<Pair>)
    ensures Flat(a + b) == Flat(a) + Flat(b)
  {
    if a == [] {
      assert a + b == b;
    } else {
      FlatConcat(a[1..], b);
      assert (a + b)[1..] == a[1..] + b;
      var first := a[0].0 + a[0].1;
      assert first + (Flat(a[1..]) + Flat(b)) == first + Flat(a[1..]) + Flat(b);
    }
  }

  lemma FlatOne(p: Pair, rest: seq<Pair>)
    ensures Flat([p] + rest) == p.0 + p.1 + Flat(rest)
  {
    assert ([p] + rest)[1..] == rest;
  }

  lemma FlatAround(pairs: seq<Pair>, i: nat)
    requires i < |pairs|
    ensures Flat(pairs) == Flat(pairs[..i]) + pairs[i].0 + pairs[i].1 + Flat(pairs[i + 1..])
  {
    hide Flat;
    var before, p, after := pairs[..i], pairs[i], pairs[i + 1..];
    SplitAt(pairs, i);
    FlatConcat(before, [p] + after);
    FlatOne(p, after);
    Regroup(Flat(before), p.0, p.1, Flat(after));
  }

  lemma SplitAt(pairs: seq<Pair>, i: nat)
    requires i < |pairs|
    ensures pairs == pairs[..i] + ([pairs[i]] + pairs[i + 1..])
  {
  }

  lemma Regroup(a: Bytes, b: Bytes, c: Bytes, d: Bytes)
    ensures a + (b + c + d) == a + b + c + d
  {
  }

  /** Nothing gives no bytes, a query in front adds its key and value in front, a header behind adds
      them behind. */
  lemma KeyBytesGrow(p: Pair, queries: seq<Pair>, headers: seq<Pair>)
    ensures KeyBytes([], []) == []
    ensures KeyBytes([p] + queries, headers) == p.0 + p.1 + KeyBytes(queries, headers)
    ensures KeyBytes(queries, headers + [p]) == KeyBytes(queries, headers) + p.0 + p.1
  {
    FlatAround([p] + queries, 0);
    FlatAround(headers + [p], |headers|);
    assert ([p] + queries)[..0] == [] && ([p] + queries)[1..] == queries;
    assert (headers + [p])[..|headers|] == headers && (headers + [p])[|headers| + 1..] == [];
    assert p.0 + p.1 + Flat(queries) + Flat(headers) == p.0 + p.1 + (Flat(queries) + Flat(headers));
  }

  lemma FlatValueTells(pairs: seq<Pair>, i: nat, v: Bytes)
    requires i < |pairs| && v != pairs[i].1
    ensures Flat(pairs) != Flat(pairs[i := (pairs[i].0, v)])
  {
    var other := pairs[i := (pairs[i].0, v)];
    FlatAround(pairs, i);
    FlatAround(other, i);
    assert other[..i] == pairs[..i] && other[i + 1..] == pairs[i + 1..];
    Cancels(Flat(pairs[..i]) + pairs[i].0, pairs[i].1, v, Flat(pairs[i + 1..]));
  }

  lemma Cancels(front: Bytes, x: Bytes, y: Bytes, back: Bytes)
    ensures front + x + back == front + y + back ==> x == y
  {
    if front + x + back == front + y + back {
      assert |x| == |y|;
      assert x == (front + x + back)[|front|..|front| + |x|] == (front + y + back)[|front|..|front| + |y|] == y;
    }
  }

  /** Another value of one query pair or of one header changes the key bytes. */
  lemma ValueTells(queries: seq<Pair>, headers: seq<Pair>, i: nat, v: Bytes)
    ensures i < |queries| && v != queries[i].1 ==>
      KeyBytes(queries, headers) != KeyBytes(queries[i := (queries[i].0, v)], headers)
    ensures i < |headers| && v != headers[i].1 ==>
      KeyBytes(queries, headers) != KeyBytes(queries, headers[i := (headers[i].0, v)])
  {
    if i < |queries| && v != queries[i].1 {
      FlatValueTells(queries, i, v);
      Cancels([], Flat(queries), Flat(queries[i := (queries[i].0, v)]), Flat(headers));
      assert forall x: Bytes :: [] + x == x;
    }
    if i < |headers| && v != headers[i].1 {
      FlatValueTells(headers, i, v);
      Cancels(Flat(queries), Flat(headers), Flat(headers[i := (headers[i].0, v)]), []);
      assert forall x: Bytes :: x + [] == x;
    }
  }

  /** How many bytes header `name` adds. */
  function HeaderSize(name: Bytes, peek: Bytes -> Bytes): nat {
    if peek(name) != [] then |name| + |peek(name)| else 0
  }

  lemma {:induction false} InsertedSize(s: seq<Pair>, x: Pair)
    ensures |Flat(Inserted(s, x))| == |Flat(s)| + |x.0| + |x.1|
  {
    if s != [] && Less(x.0, s[|s| - 1].0) {
      var init, last := s[..|s| - 1], s[|s| - 1];
      InsertedSize(init, x);
      FlatConcat(Inserted(init, x), [last]);
      FlatConcat(init, [last]);
      assert s == init + [last];
    } else {
      FlatConcat(s, [x]);
      FlatAround([x], 0);
    }
  }

  lemma {:induction false} SortedSize(s: seq<Pair>)
    ensures |Flat(Sorted(s))| == |Flat(s)|
  {
    if s != [] {
      var init, last := s[..|s| - 1], s[|s| - 1];
      SortedSize(init);
      InsertedSize(Sorted(init), last);
      FlatConcat(init, [last]);
      assert s == init + [last];
      FlatAround([last], 0);
    }
  }

  /** Two requests with one header different. */
  ghost predicate DifferIn(name: Bytes, peek: Bytes -> Bytes, other: Bytes -> Bytes) {
    peek(name) != other(name) && forall x :: x != name ==> peek(x) == other(x)
  }

  lemma {:induction false} SelectedSize(order: seq<Bytes>, name: Bytes, peek: Bytes -> Bytes, other: Bytes -> Bytes)
    requires DifferIn(name, peek, other) && forall i, j :: 0 <= i < j < |order| ==> order[i] != order[j]
    ensures if name in order
      then |Flat(Selected(order, other))| + HeaderSize(name, peek)
        == |Flat(Selected(order, peek))| + HeaderSize(name, other)
      else Selected(order, other) == Selected(order, peek)
  {
    if order != [] {
      SelectedSize(order[1..], name, peek, other);
      var one := if peek(order[0]) != [] then [(order[0], peek(order[0]))] else [];
      var two := if other(order[0]) != [] then [(order[0], other(order[0]))] else [];
      FlatConcat(one, Selected(order[1..], peek));
      FlatConcat(two, Selected(order[1..], other));
      assert one != [] ==> one[1..] == [];
      assert two != [] ==> two[1..] == [];
    }
  }

  /** Replacing the only pair of a key by another of the same key. */
  lemma {:induction false} OnlyPairReplaced(s: seq<Pair>, i: nat, p: Pair, k: Bytes)
    requires i < |s| && p.0 == s[i].0 && |Class(s, KeyOf, p.0)| == 1
    ensures Class(s[i := p], KeyOf, k) == if k == p.0 then [p] else Class(s, KeyOf, k)
  {
    var rest := s[1..];
    assert s == [s[0]] + rest;
    if i == 0 {
      assert s[0 := p][1..] == rest;
      assert k == p.0 ==> Class(rest, KeyOf, k) == [];
    } else {
      assert s[i := p][1..] == rest[i - 1 := p] && s[i := p][0] == s[0];
      ClassEmpty(rest, KeyOf, p.0);
      assert rest[i - 1] == s[i];
      assert s[0].0 != p.0;
      OnlyPairReplaced(rest, i - 1, p, k);
    }
  }

  /** With a value either way, the sorted headers differ in that value alone. */
  lemma HeaderReplaced(order: seq<Bytes>, names: set<Bytes>, name: Bytes, peek: Bytes -> Bytes, other: Bytes -> Bytes)
    returns (i: nat)
    requires Enumerates(order, names) && name in names && DifferIn(name, peek, other)
    requires peek(name) != [] && other(name) != []
    ensures var t := Sorted(Selected(order, peek));
      i < |t| && t[i] == (name, peek(name)) && Sorted(Selected(order, other)) == t[i := (name, other(name))]
  {
    var s := Selected(order, peek);
    var t := Sorted(s);
    hide Selected, Sorted, Enumerates, DifferIn;
    SortedCharacterised(s, t);
    SelectedClass(order, names, peek, name);
    assert Class(t, KeyOf, name) == Class(s, KeyOf, name) == [(name, peek(name))];
    ClassEmpty(t, KeyOf, name);
    i :| 0 <= i < |t| && KeyOf(t[i]) == name;
    InItsClass(t, i);
    var u := t[i := (name, other(name))];
    forall k ensures Class(u, KeyOf, k) == Class(Selected(order, other), KeyOf, k) {
      OnlyPairReplaced(t, i, (name, other(name)), k);
      ClassReplaced(order, names, name, peek, other, k);
      assert Class(t, KeyOf, k) == Class(s, KeyOf, k);
    }
    assert Ordered(u);
    SortedCharacterised(Selected(order, other), u);
  }

  lemma ClassReplaced(order: seq<Bytes>, names: set<Bytes>, name: Bytes, peek: Bytes -> Bytes, other: Bytes -> Bytes,
                      k: Bytes)
    requires Enumerates(order, names) && name in names && DifferIn(name, peek, other) && other(name) != []
    ensures Class(Selected(order, other), KeyOf, k)
         == if k == name then [(name, other(name))] else Class(Selected(order, peek), KeyOf, k)
  {
    SelectedClass(order, names, peek, k);
    SelectedClass(order, names, other, k);
  }

  lemma {:induction false} InItsClass(s: seq<Pair>, i: nat)
    requires i < |s|
    ensures s[i] in Class(s, KeyOf, KeyOf(s[i]))
  {
    if i > 0 { InItsClass(s[1..], i - 1); }
  }

  /** Requests that differ in the value of one configured header, one of them possibly without it, stand
      for different key bytes. */
  lemma HeaderTells(query: Bytes, allowed: seq<Bytes>, names: set<Bytes>, name: Bytes,
                    peek: Bytes -> Bytes, other: Bytes -> Bytes)
    requires name in names && DifferIn(name, peek, other)
    ensures Canonical(query, allowed, names, peek) != Canonical(query, allowed, names, other)
  {
    var order := AnEnumeration(names);
    CanonicalIs(query, allowed, names, peek, order);
    CanonicalIs(query, allowed, names, other, order);
    var queries := KeyPairs(query, allowed);
    var s, t := Selected(order, peek), Selected(order, other);
    hide KeyPairs, Selected, Sorted;
    if peek(name) != [] && other(name) != [] {
      var i := HeaderReplaced(order, names, name, peek, other);
      ValueTells(queries, Sorted(s), i, other(name));
    } else {
      SelectedSize(order, name, peek, other);
      SortedSize(s);
      SortedSize(t);
      assert |KeyBytes(queries, Sorted(s))| != |KeyBytes(queries, Sorted(t))|;
    }
  }

  /** The fingerprint is the low word of the 128-bit hash, then the high one, little-endian. */
  lemma FingerprintReads(hasher: Hasher, data: Bytes)
    ensures Wire.ReadU64(Fingerprint(hasher, data), 0) == Wire.Read(hasher.sum128(data).0, 8)
    ensures Wire.ReadU64(Fingerprint(hasher, data), 8) == Wire.Read(hasher.sum128(data).1, 16)
  {
    var f := Fingerprint(hasher, data);
    var (lo, hi) := hasher.sum128(data);
    hide Wire.PutU64;
    assert f == Wire.PutU64(lo) + Wire.PutU64(hi);
    assert f[0..8] == Wire.PutU64(lo) && f[8..16] == Wire.PutU64(hi);
    Wire.ReadU64At(f, 0, lo);
    Wire.ReadU64At(f, 8, hi);
  }
}
