/** pkg/model/payload.go: a request and its response packed into one buffer, and taken out of it. */
module PayloadCodec {
  import opened ByteCompare
  import opened Wire
  import opened Wrappers

  type Header = (Bytes, Bytes)

  datatype Message = Message(path: Bytes, query: Bytes, requestHeaders: seq<Header>,
                             status: nat, responseHeaders: seq<Header>, body: Bytes)

  // ---------------------------------------------------------------------------------------------
  // The format

  /** Response headers carry a count of values between key and value, always one. */
  function HeaderBytes(h: Header, counted: bool): Bytes {
    Field(h.0) + (if counted then PutU32(1) else []) + Field(h.1)
  }

  function HeadersBytes(hs: seq<Header>, counted: bool): Bytes {
    if hs == [] then [] else HeaderBytes(hs[0], counted) + HeadersBytes(hs[1..], counted)
  }

  /** The request, laid out in front of `end`. */
  function RequestLaid(m: Message, end: Bytes): Bytes {
    Field(m.path) + (Field(m.query) + (PutU32(|m.requestHeaders|) + (HeadersBytes(m.requestHeaders, false) + end)))
  }

  /** The response up to the body, laid out in front of `end`. */
  function ResponseLaid(m: Message, end: Bytes): Bytes {
    PutU32(m.status) + (PutU32(|m.responseHeaders|) + (HeadersBytes(m.responseHeaders, true) + end))
  }

  function RequestSize(m: Message): nat {
    |Field(m.path)| + |Field(m.query)| + 4 + |HeadersBytes(m.requestHeaders, false)|
  }

  function ResponseSize(m: Message): nat {
    8 + |HeadersBytes(m.responseHeaders, true)|
  }

  function Packed(m: Message): Bytes {
    RequestLaid(m, ResponseLaid(m, Field(m.body)))
  }

  function ReadPairs(b: Bytes, at: nat, n: nat): Read<seq<Header>>
    decreases n
  {
    if n == 0 then Read([], at)
    else
      var (key, at) :- ReadField(b, at);
      var (value, at) :- ReadField(b, at);
      var (rest, at) :- ReadPairs(b, at, n - 1);
      Read([(key, value)] + rest, at)
  }

  function ReadValues(b: Bytes, at: nat, key: Bytes, n: nat): Read<seq<Header>>
    decreases n
  {
    if n == 0 then Read([], at)
    else
      var (value, at) :- ReadField(b, at);
      var (rest, at) :- ReadValues(b, at, key, n - 1);
      Read([(key, value)] + rest, at)
  }

  function ReadMulti(b: Bytes, at: nat, n: nat): Read<seq<Header>>
    decreases n
  {
    if n == 0 then Read([], at)
    else
      var (key, at) :- ReadField(b, at);
      var (count, at) :- ReadU32(b, at);
      var (values, at) :- ReadValues(b, at, key, count);
      var (rest, at) :- ReadMulti(b, at, n - 1);
      Read(values + rest, at)
  }

  function ReadRequest(b: Bytes, at: nat): Read<(Bytes, Bytes, seq<Header>)> {
    var (path, at) :- ReadField(b, at);
    var (query, at) :- ReadField(b, at);
    var (n, at) :- ReadU32(b, at);
    var (headers, at) :- ReadPairs(b, at, n);
    Read((path, query, headers), at)
  }

  /** The length of the body is skipped unread: the body is whatever follows. */
  function ReadResponse(b: Bytes, at: nat): Read<(nat, seq<Header>, Bytes)> {
    var (status, at) :- ReadU32(b, at);
    var (n, at) :- ReadU32(b, at);
    var (headers, at) :- ReadMulti(b, at, n);
    if at + 4 > |b| then OutOfRange else Read((status, headers, b[at + 4..]), |b|)
  }

  /** `None` stands for the error on an empty payload. */
  function Unpacked(b: Bytes): Read<Option<Message>> {
    if b == [] then Read(None, 0)
    else
      var (request, at) :- ReadRequest(b, 0);
      var (response, at) :- ReadResponse(b, at);
      Read(Some(Message(request.0, request.1, request.2, response.0, response.1, response.2)), at)
  }

  // ---------------------------------------------------------------------------------------------
  // Round trip

  /** Lengths, counts and the status survive the conversion to 32 bits. */
  ghost predicate Fits(m: Message) {
    && |m.path| < TWO_32 && |m.query| < TWO_32 && m.status < TWO_32
    && HeadersFit(m.requestHeaders) && HeadersFit(m.responseHeaders)
  }

  ghost predicate HeadersFit(hs: seq<Header>) {
    |hs| < TWO_32 && forall h <- hs :: |h.0| < TWO_32 && |h.1| < TWO_32
  }

  lemma {:induction false} TakePairs(b: Bytes, at: nat, hs: seq<Header>, rest: Bytes)
    requires At(b, at, HeadersBytes(hs, false) + rest) && HeadersFit(hs)
    ensures ReadPairs(b, at, |hs|) == Read(hs, at + |HeadersBytes(hs, false)|)
    ensures At(b, at + |HeadersBytes(hs, false)|, rest)
    decreases |hs|
  {
    hide At, Field, PutU32, ReadField;
    if hs == [] {
      assert [] + rest == rest;
    } else {
      var key, value := hs[0].0, hs[0].1;
      assert hs[0] in hs;
      var tail := HeadersBytes(hs[1..], false) + rest;
      assert HeadersBytes(hs, false) + rest == Field(key) + (Field(value) + tail);
      TakeField(b, at, key, Field(value) + tail);
      TakeField(b, at + |Field(key)|, value, tail);
      TakePairs(b, at + |Field(key)| + |Field(value)|, hs[1..], rest);
      assert [(key, value)] + hs[1..] == hs;
    }
  }

  lemma TakeOneValue(b: Bytes, at: nat, key: Bytes, value: Bytes, rest: Bytes)
    requires At(b, at, Field(value) + rest) && |value| < TWO_32
    ensures ReadValues(b, at, key, 1) == Read([(key, value)], at + |Field(value)|)
    ensures At(b, at + |Field(value)|, rest)
  {
    hide At, Field, PutU32, ReadField;
    TakeField(b, at, value, rest);
    var end := at + |Field(value)|;
    assert ReadValues(b, end, key, 0) == Read([], end);
    assert [(key, value)] + [] == [(key, value)];
  }

  lemma {:induction false} TakeMulti(b: Bytes, at: nat, hs: seq<Header>, rest: Bytes)
    requires At(b, at, HeadersBytes(hs, true) + rest) && HeadersFit(hs)
    ensures ReadMulti(b, at, |hs|) == Read(hs, at + |HeadersBytes(hs, true)|)
    ensures At(b, at + |HeadersBytes(hs, true)|, rest)
    decreases |hs|
  {
    hide At, Field, PutU32, ReadField, ReadU32, ReadValues;
    if hs == [] {
      assert [] + rest == rest;
    } else {
      var key, value := hs[0].0, hs[0].1;
      assert hs[0] in hs;
      var tail := HeadersBytes(hs[1..], true) + rest;
      assert HeadersBytes(hs, true) + rest == Field(key) + (PutU32(1) + (Field(value) + tail));
      TakeField(b, at, key, PutU32(1) + (Field(value) + tail));
      TakeU32(b, at + |Field(key)|, 1, Field(value) + tail);
      TakeOneValue(b, at + |Field(key)| + 4, key, value, tail);
      TakeMulti(b, at + |Field(key)| + 4 + |Field(value)|, hs[1..], rest);
      assert [(key, value)] + hs[1..] == hs;
    }
  }

  lemma TakeRequest(b: Bytes, at: nat, m: Message, end: Bytes)
    requires At(b, at, RequestLaid(m, end)) && Fits(m)
    ensures ReadRequest(b, at) == Read((m.path, m.query, m.requestHeaders), at + RequestSize(m))
    ensures At(b, at + RequestSize(m), end)
  {
    var toQuery := at + |Field(m.path)|;
    var toHeaders := toQuery + |Field(m.query)|;
    hide At, Field, PutU32, HeadersBytes, ReadField, ReadU32, ReadPairs;
    TakeField(b, at, m.path, Field(m.query) + (PutU32(|m.requestHeaders|) +
      (HeadersBytes(m.requestHeaders, false) + end)));
    TakeField(b, toQuery, m.query, PutU32(|m.requestHeaders|) + (HeadersBytes(m.requestHeaders, false) + end));
    TakeU32(b, toHeaders, |m.requestHeaders|, HeadersBytes(m.requestHeaders, false) + end);
    TakePairs(b, toHeaders + 4, m.requestHeaders, end);
  }

  lemma TakeResponse(b: Bytes, at: nat, m: Message, length: Bytes, rest: Bytes)
    requires At(b, at, ResponseLaid(m, length + rest)) && |length| == 4 && Fits(m)
    requires |b| == at + ResponseSize(m) + 4 + |rest|
    ensures ReadResponse(b, at) == Read((m.status, m.responseHeaders, rest), |b|)
  {
    hide At, PutU32, HeadersBytes, ReadU32, ReadMulti;
    TakeU32(b, at, m.status, PutU32(|m.responseHeaders|) + (HeadersBytes(m.responseHeaders, true) + (length + rest)));
    TakeU32(b, at + 4, |m.responseHeaders|, HeadersBytes(m.responseHeaders, true) + (length + rest));
    TakeMulti(b, at + 8, m.responseHeaders, length + rest);
    AtEnd(b, at + ResponseSize(m), length, rest);
  }

  lemma AtEnd(b: Bytes, at: nat, length: Bytes, rest: Bytes)
    requires At(b, at, length + rest) && |length| == 4 && |b| == at + 4 + |rest|
    ensures b[at + 4..] == rest
  {
    AtSplit(b, at, length, rest);
  }

  /** Whatever stands in the body's length field, the body read is the rest of the buffer. */
  lemma BodyIsTheRest(m: Message, length: Bytes, rest: Bytes)
    requires Fits(m) && |length| == 4
    ensures var b := RequestLaid(m, ResponseLaid(m, length + rest));
            Unpacked(b) == Read(Some(m.(body := rest)), |b|)
  {
    hide RequestLaid, ResponseLaid, At, ReadRequest, ReadResponse, RequestSize, ResponseSize;
    var end := ResponseLaid(m, length + rest);
    var b := RequestLaid(m, end);
    LaidSize(m, length, rest);
    AtStart(b);
    TakeRequest(b, 0, m, end);
    TakeResponse(b, RequestSize(m), m, length, rest);
  }

  lemma AtStart(b: Bytes)
    ensures At(b, 0, b)
  {
    assert b[..|b|] == b;
  }

  lemma LaidSize(m: Message, length: Bytes, rest: Bytes)
    requires |length| == 4
    ensures |RequestLaid(m, ResponseLaid(m, length + rest))| == RequestSize(m) + ResponseSize(m) + 4 + |rest| > 0
  {
    hide Field, HeadersBytes;
  }

  /** Unpacking a packed message gives the message back, with every read in bounds. */
  lemma RoundTrip(m: Message)
    requires Fits(m)
    ensures Unpacked(Packed(m)) == Read(Some(m), |Packed(m)|)
  {
    BodyIsTheRest(m, PutU32(|m.body|), m.body);
  }

  // ---------------------------------------------------------------------------------------------
  // The code

  lemma {:induction false} HeadersGrow(hs: seq<Header>, h: Header, counted: bool)
    ensures HeadersBytes(hs + [h], counted) == HeadersBytes(hs, counted) + HeaderBytes(h, counted)
  {
    if hs == [] {
      assert (hs + [h])[1..] == [];
    } else {
      assert (hs + [h])[1..] == hs[1..] + [h];
      HeadersGrow(hs[1..], h, counted);
    }
  }

  /** `append` within the capacity: no reallocation. */
  method Append(buf: array<byte>, len: nat, x: Bytes) returns (end: nat)
    requires len + |x| <= buf.Length
    modifies buf
    ensures end == len + |x|
    ensures buf[..end] == old(buf[..len]) + x
  {
    forall i | 0 <= i < |x| {
      buf[len + i] := x[i];
    }
    end := len + |x|;
  }

  method HeadersSize(hs: seq<Header>, counted: bool) returns (total: nat)
    ensures total == |HeadersBytes(hs, counted)|
  {
    total := 0;
    for i := 0 to |hs|
      invariant total == |HeadersBytes(hs[..i], counted)|
    {
      total := total + 4 + |hs[i].0| + (if counted then 4 else 0) + 4 + |hs[i].1|;
      assert hs[..i + 1] == hs[..i] + [hs[i]];
      HeadersGrow(hs[..i], hs[i], counted);
    }
    assert hs[..|hs|] == hs;
  }

  method AppendHeader(buf: array<byte>, len: nat, h: Header, counted: bool) returns (end: nat)
    requires len + |HeaderBytes(h, counted)| <= buf.Length
    modifies buf
    ensures end == len + |HeaderBytes(h, counted)|
    ensures buf[..end] == old(buf[..len]) + HeaderBytes(h, counted)
  {
    end := AppendField(buf, len, h.0);
    if counted { end := Append(buf, end, PutU32(1)); }
    end := AppendField(buf, end, h.1);
    hide Field, PutU32;
    var count := if counted then PutU32(1) else [];
    assert old(buf[..len]) + (Field(h.0) + count + Field(h.1)) == old(buf[..len]) + Field(h.0) + count + Field(h.1);
  }

  lemma HeadersUpTo(hs: seq<Header>, i: nat, counted: bool, before: Bytes)
    requires i < |hs|
    ensures before + HeadersBytes(hs[..i + 1], counted)
         == before + HeadersBytes(hs[..i], counted) + HeaderBytes(hs[i], counted)
  {
    hide HeadersBytes, HeaderBytes;
    HeadersGrow(hs[..i], hs[i], counted);
    assert hs[..i + 1] == hs[..i] + [hs[i]];
  }

  method AppendHeaders(buf: array<byte>, len: nat, hs: seq<Header>, counted: bool) returns (end: nat)
    requires len + |HeadersBytes(hs, counted)| <= buf.Length
    modifies buf
    ensures end == len + |HeadersBytes(hs, counted)|
    ensures buf[..end] == old(buf[..len]) + HeadersBytes(hs, counted)
  {
    end := len;
    assert HeadersBytes(hs[..0], counted) == [] && HeadersBytes(hs[..0], counted) + [] == [];
    hide HeaderBytes, HeadersBytes;
    for i := 0 to |hs|
      invariant len <= end == len + |HeadersBytes(hs[..i], counted)| <= buf.Length
      invariant buf[..end] == old(buf[..len]) + HeadersBytes(hs[..i], counted)
    {
      HeadersPrefixFits(hs, i, counted);
      HeadersUpTo(hs, i, counted, old(buf[..len]));
      end := AppendHeader(buf, end, hs[i], counted);
    }
    assert hs[..|hs|] == hs;
  }

  lemma {:induction false} HeadersPrefixFits(hs: seq<Header>, i: nat, counted: bool)
    requires i < |hs|
    ensures |HeadersBytes(hs[..i + 1], counted)| <= |HeadersBytes(hs, counted)|
  {
    if i > 0 {
      HeadersPrefixFits(hs[1..], i - 1, counted);
      assert hs[..i + 1][1..] == hs[1..][..i];
    } else {
      assert hs[..1][1..] == [];
    }
  }

  method AppendField(buf: array<byte>, len: nat, x: Bytes) returns (end: nat)
    requires len + |Field(x)| <= buf.Length
    modifies buf
    ensures end == len + |Field(x)|
    ensures buf[..end] == old(buf[..len]) + Field(x)
  {
    end := Append(buf, len, PutU32(|x|));
    end := Append(buf, end, x);
  }

  method PackRequest(buf: array<byte>, m: Message) returns (end: nat)
    requires |RequestLaid(m, [])| <= buf.Length
    modifies buf
    ensures end == |RequestLaid(m, [])| && buf[..end] == RequestLaid(m, [])
  {
    var headers := HeadersBytes(m.requestHeaders, false);
    assert RequestLaid(m, []) == Field(m.path) + Field(m.query) + PutU32(|m.requestHeaders|) + headers;
    hide Field, HeadersBytes, RequestLaid;
    end := AppendField(buf, 0, m.path);
    assert buf[..end] == Field(m.path);
    end := AppendField(buf, end, m.query);
    end := Append(buf, end, PutU32(|m.requestHeaders|));
    end := AppendHeaders(buf, end, m.requestHeaders, false);
  }

  method PackResponse(buf: array<byte>, len: nat, m: Message) returns (end: nat)
    requires len + |ResponseLaid(m, [])| <= buf.Length
    modifies buf
    ensures end == len + |ResponseLaid(m, [])| && buf[..end] == old(buf[..len]) + ResponseLaid(m, [])
  {
    var headers := HeadersBytes(m.responseHeaders, true);
    var before := buf[..len];
    assert before + ResponseLaid(m, []) == before + PutU32(m.status) + PutU32(|m.responseHeaders|) + headers;
    hide PutU32, HeadersBytes, ResponseLaid;
    end := Append(buf, len, PutU32(m.status));
    end := Append(buf, end, PutU32(|m.responseHeaders|));
    end := AppendHeaders(buf, end, m.responseHeaders, true);
  }

  lemma PackedInParts(m: Message)
    ensures Packed(m) == RequestLaid(m, []) + ResponseLaid(m, []) + Field(m.body)
    ensures |Packed(m)| == 24 + |m.path| + |m.query| + |HeadersBytes(m.requestHeaders, false)|
      + |HeadersBytes(m.responseHeaders, true)| + |m.body|
  {
    hide HeadersBytes;
  }

  /** The precomputed size is exactly what is written: the buffer is full and never grew. */
  method Pack(m: Message) returns (buf: array<byte>)
    ensures fresh(buf)
    ensures buf[..] == Packed(m)
  {
    var requestSize := HeadersSize(m.requestHeaders, false);
    var responseSize := HeadersSize(m.responseHeaders, true);
    var total := 4 + |m.path| + 4 + |m.query| + 4 + requestSize + 4 + 4 + responseSize + 4 + |m.body|;
    hide Packed, RequestLaid, ResponseLaid, Field, HeadersBytes;
    PackedInParts(m);
    buf := new byte[total];
    var len := PackRequest(buf, m);
    len := PackResponse(buf, len, m);
    len := AppendField(buf, len, m.body);
    assert buf[..] == buf[..len];
  }

  /** A read that continues one that already gave `hs`. */
  function After(hs: seq<Header>, r: Read<seq<Header>>): (all: Read<seq<Header>>)
    ensures hs == [] ==> all == r
    ensures r.Read? && r.value == [] ==> all == Read(hs, r.next)
  {
    assert r.Read? ==> [] + r.value == r.value && hs + [] == hs;
    if r.OutOfRange? then OutOfRange else Read(hs + r.value, r.next)
  }

  lemma AfterMore(hs: seq<Header>, more: seq<Header>, r: Read<seq<Header>>)
    ensures After(hs, After(more, r)) == After(hs + more, r)
  {
    if r.Read? { assert hs + (more + r.value) == hs + more + r.value; }
  }

  method UnpackPairs(b: Bytes, at: nat, n: nat) returns (r: Read<seq<Header>>)
    ensures r == ReadPairs(b, at, n)
  {
    var headers: seq<Header>, offset := [], at;
    for i := 0 to n
      invariant ReadPairs(b, at, n) == After(headers, ReadPairs(b, offset, n - i))
    {
      var key :- ReadField(b, offset);
      var value :- ReadField(b, key.1);
      AfterMore(headers, [(key.0, value.0)], ReadPairs(b, value.1, n - i - 1));
      headers, offset := headers + [(key.0, value.0)], value.1;
    }
    return Read(headers, offset);
  }

  method UnpackValues(b: Bytes, at: nat, key: Bytes, n: nat) returns (r: Read<seq<Header>>)
    ensures r == ReadValues(b, at, key, n)
  {
    var headers: seq<Header>, offset := [], at;
    for i := 0 to n
      invariant ReadValues(b, at, key, n) == After(headers, ReadValues(b, offset, key, n - i))
    {
      var value :- ReadField(b, offset);
      AfterMore(headers, [(key, value.0)], ReadValues(b, value.1, key, n - i - 1));
      headers, offset := headers + [(key, value.0)], value.1;
    }
    return Read(headers, offset);
  }

  method UnpackMulti(b: Bytes, at: nat, n: nat) returns (r: Read<seq<Header>>)
    ensures r == ReadMulti(b, at, n)
  {
    hide ReadField, ReadU32, ReadValues;
    var headers: seq<Header>, offset := [], at;
    for i := 0 to n
      invariant ReadMulti(b, at, n) == After(headers, ReadMulti(b, offset, n - i))
    {
      var key :- ReadField(b, offset);
      var count :- ReadU32(b, key.1);
      var values := UnpackValues(b, count.1, key.0, count.0);
      if values.OutOfRange? { return OutOfRange; }
      AfterMore(headers, values.value, ReadMulti(b, values.next, n - i - 1));
      headers, offset := headers + values.value, values.next;
    }
    return Read(headers, offset);
  }

  method Unpack(b: Bytes) returns (r: Read<Option<Message>>)
    ensures r == Unpacked(b)
  {
    if |b| == 0 { return Read(None, 0); }
    var path :- ReadField(b, 0);
    var query :- ReadField(b, path.1);
    var n :- ReadU32(b, query.1);
    var requestHeaders := UnpackPairs(b, n.1, n.0);
    if requestHeaders.OutOfRange? { return OutOfRange; }
    var status :- ReadU32(b, requestHeaders.next);
    var count :- ReadU32(b, status.1);
    var responseHeaders := UnpackMulti(b, count.1, count.0);
    if responseHeaders.OutOfRange? { return OutOfRange; }
    var offset := responseHeaders.next + 4;
    if offset > |b| { return OutOfRange; }
    return Read(
      Some(Message(path.0, query.0, requestHeaders.value, status.0, responseHeaders.value, b[offset..])), |b|);
  }

  /** Where the fields of a packed message stand. */
  lemma Layout(m: Message)
    ensures var b, x, y := Packed(m), |m.path|, |m.query|;
      var head := HeadersBytes(m.requestHeaders, false);
      var tail := HeadersBytes(m.responseHeaders, true);
      && b == PutU32(x) + m.path + PutU32(y) + m.query + PutU32(|m.requestHeaders|) + head
              + PutU32(m.status) + PutU32(|m.responseHeaders|) + tail + PutU32(|m.body|) + m.body
  {
    hide PutU32, HeadersBytes;
  }

  function Fields(values: seq<Bytes>): Bytes {
    if values == [] then [] else Field(values[0]) + Fields(values[1..])
  }

  function Each(key: Bytes, values: seq<Bytes>): seq<Header> {
    if values == [] then [] else [(key, values[0])] + Each(key, values[1..])
  }

  /** A response header that carries several values is read as one pair for each. */
  lemma ManyValues(b: Bytes, at: nat, key: Bytes, values: seq<Bytes>)
    requires At(b, at, Field(key) + (PutU32(|values|) + Fields(values)))
    requires |key| < TWO_32 && |values| < TWO_32 && forall v <- values :: |v| < TWO_32
    ensures ReadMulti(b, at, 1) == Read(Each(key, values), at + |Field(key)| + 4 + |Fields(values)|)
  {
    hide At, Field, PutU32, ReadField, ReadU32;
    TakeField(b, at, key, PutU32(|values|) + Fields(values));
    TakeU32(b, at + |Field(key)|, |values|, Fields(values));
    TakeValues(b, at + |Field(key)| + 4, key, values);
    var end := at + |Field(key)| + 4 + |Fields(values)|;
    assert ReadMulti(b, end, 0) == Read([], end);
    assert Each(key, values) + [] == Each(key, values);
  }

  lemma {:induction false} TakeValues(b: Bytes, at: nat, key: Bytes, values: seq<Bytes>)
    requires At(b, at, Fields(values)) && forall v <- values :: |v| < TWO_32
    ensures ReadValues(b, at, key, |values|) == Read(Each(key, values), at + |Fields(values)|)
    decreases |values|
  {
    hide At, Field, PutU32, ReadField;
    if values != [] {
      assert values[0] in values;
      TakeField(b, at, values[0], Fields(values[1..]));
      TakeValues(b, at + |Field(values[0])|, key, values[1..]);
    }
  }

  /** Only an empty payload is the error; one too short for its first length is out of range. */
  lemma EmptyIff(b: Bytes)
    ensures Unpacked(b) == Read(None, 0) <==> b == []
    ensures 0 < |b| < 4 ==> Unpacked(b).OutOfRange?
  {
    hide ReadPairs, ReadMulti;
  }

  /** Each header follows the ones before it, a response header with a count of one in the middle. */
  lemma HeaderAppended(hs: seq<Header>, key: Bytes, value: Bytes)
    ensures HeadersBytes([], true) == HeadersBytes([], false) == []
    ensures HeadersBytes(hs + [(key, value)], false)
         == HeadersBytes(hs, false) + (PutU32(|key|) + key + (PutU32(|value|) + value))
    ensures HeadersBytes(hs + [(key, value)], true)
         == HeadersBytes(hs, true) + (PutU32(|key|) + key + PutU32(1) + (PutU32(|value|) + value))
  {
    hide PutU32;
    HeadersGrow(hs, (key, value), false);
    HeadersGrow(hs, (key, value), true);
    assert Field(key) + [] + Field(value) == PutU32(|key|) + key + (PutU32(|value|) + value);
  }
}
