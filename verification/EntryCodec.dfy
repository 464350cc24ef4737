/** pkg/model/to_bytes.go: one cache entry as a dump record. */
module EntryCodec {
  import opened ByteCompare
  import opened Wire
  import opened Wrappers

  const FINGERPRINT_SIZE := 16

  /** An entry's fields; a rule is known by its path, a missing payload is Go's nil slice. */
  datatype Record = Record(rule: Bytes, key: nat, shard: nat, fingerprint: Bytes, refreshedAt: int,
    payload: Option<Bytes>)

  /** uint64(t) of an int64, and back. */
  function Unsigned(t: int): int { if t < 0 then t + TWO_64 else t }

  function Signed(n: int): int { if n >= TWO_64 / 2 then n - TWO_64 else n }

  function PayloadOf(r: Record): Bytes {
    if r.payload.Some? then r.payload.value else []
  }

  /** The fields are within their Go types, the variable parts within 32 bits. */
  ghost predicate Fits(r: Record) {
    && |r.rule| < TWO_32 && |PayloadOf(r)| < TWO_32
    && r.key < TWO_64 && r.shard < TWO_64
    && |r.fingerprint| == FINGERPRINT_SIZE
    && -(TWO_64 / 2) <= r.refreshedAt < TWO_64 / 2
  }

  function EntryBytes(r: Record): Bytes
    requires Fits(r)
  {
    Field(r.rule) + (PutU64(r.key) + (PutU64(r.shard) + (r.fingerprint +
      (PutU64(Unsigned(r.refreshedAt)) + Field(PayloadOf(r))))))
  }

  /** `None` stands for the error that no rule has that path. */
  function ReadEntry(b: Bytes, rules: set<Bytes>): Read<Option<Record>> {
    var (rule, at) :- ReadField(b, 0);
    if rule !in rules then Read(None, at)
    else
      var (key, at) :- ReadU64(b, at);
      var (shard, at) :- ReadU64(b, at);
      var (fingerprint, at) :- ReadBytes(b, at, FINGERPRINT_SIZE);
      var (refreshedAt, at) :- ReadU64(b, at);
      var (payload, at) :- ReadField(b, at);
      Read(Some(Record(rule, key, shard, fingerprint, Signed(refreshedAt), Some(payload))), at)
  }

  /** A missing payload comes back as an empty one. */
  function Restored(r: Record): (s: Record)
    ensures s == r <==> r.payload.Some?
    ensures s.(payload := r.payload) == r
  {
    r.(payload := Some(PayloadOf(r)))
  }

  lemma TakeEntry(r: Record, b: Bytes, rules: set<Bytes>)
    requires Fits(r) && At(b, 0, EntryBytes(r))
    ensures r.rule in rules ==>
        ReadEntry(b, rules) == Read(Some(Restored(r)), |Field(r.rule)| + 40 + |Field(PayloadOf(r))|)
    ensures r.rule !in rules ==> ReadEntry(b, rules) == Read(None, |Field(r.rule)|)
  {
    var payload, time := Field(PayloadOf(r)), Unsigned(r.refreshedAt);
    var toKey := |Field(r.rule)|;
    assert Signed(time) == r.refreshedAt && 0 <= time < TWO_64;
    hide At, Field, PutU64, ReadField, ReadU64, ReadBytes, Unsigned, Signed, PayloadOf;
    TakeField(b, 0, r.rule, PutU64(r.key) + (PutU64(r.shard) + (r.fingerprint + (PutU64(time) + payload))));
    TakeU64(b, toKey, r.key, PutU64(r.shard) + (r.fingerprint + (PutU64(time) + payload)));
    TakeU64(b, toKey + 8, r.shard, r.fingerprint + (PutU64(time) + payload));
    TakeBytes(b, toKey + 16, r.fingerprint, PutU64(time) + payload);
    TakeU64(b, toKey + 32, time, payload);
    ReadFieldAt(b, toKey + 40, PayloadOf(r));
  }

  /** Reading what was written gives every field back, whatever follows in the buffer; a record whose
      rule is gone is the error and nothing else. */
  lemma RoundTrip(r: Record, b: Bytes, rules: set<Bytes>)
    requires Fits(r) && EntryBytes(r) <= b
    ensures r.rule in rules ==> ReadEntry(b, rules) == Read(Some(Restored(r)), |EntryBytes(r)|)
    ensures r.rule !in rules ==> ReadEntry(b, rules) == Read(None, |Field(r.rule)|)
  {
    assert |EntryBytes(r)| == |Field(r.rule)| + 40 + |Field(PayloadOf(r))|;
    hide Field, PutU64, PutU32, ReadEntry, EntryBytes;
    TakeEntry(r, b, rules);
  }

  /** Too short for the lengths it states: for that of the rule's path and, when there is such a rule, for
      the 40 bytes of fixed fields, the length behind them and the payload of that length. */
  predicate Short(data: Bytes, rules: set<Bytes>) {
    || |data| < 4
    || var n := GetU32(data[..4]);
       || |data| < 4 + n
       || (data[4..4 + n] in rules && (|data| < n + 48 || |data| < n + 48 + GetU32(data[n + 44..n + 48])))
  }

  /** Decoding runs out of bounds exactly on contents too short for their own lengths. */
  lemma PanicsIffShort(data: Bytes, rules: set<Bytes>)
    ensures ReadEntry(data, rules).OutOfRange? <==> Short(data, rules)
  {
    hide GetU32, Signed;
  }

  method ToBytes(r: Record) returns (data: Bytes)
    requires Fits(r)
    ensures data == EntryBytes(r)
  {
    var payload := PayloadOf(r);
    var time: nat := Unsigned(r.refreshedAt);
    assert EntryBytes(r) == PutU32(|r.rule|) + r.rule + PutU64(r.key) + PutU64(r.shard) + r.fingerprint + PutU64(time)
      + PutU32(|payload|) + payload;
    hide EntryBytes, PutU64, PutU32;
    data := PutU32(|r.rule|);
    data := data + r.rule;
    data := data + PutU64(r.key);
    data := data + PutU64(r.shard);
    data := data + r.fingerprint;
    data := data + PutU64(time);
    data := data + PutU32(|payload|);
    if |payload| > 0 { data := data + payload; } else { assert data + payload == data; }
  }

  method EntryFromBytes(data: Bytes, rules: set<Bytes>) returns (r: Read<Option<Record>>)
    ensures r == ReadEntry(data, rules)
  {
    var rule :- ReadField(data, 0);
    if rule.0 !in rules { return Read(None, rule.1); }
    var key :- ReadU64(data, rule.1);
    var shard :- ReadU64(data, key.1);
    var fingerprint :- ReadBytes(data, shard.1, FINGERPRINT_SIZE);
    var updatedAt :- ReadU64(data, fingerprint.1);
    var payload :- ReadField(data, updatedAt.1);
    return Read(Some(Record(rule.0, key.0, shard.0, fingerprint.0, Signed(updatedAt.0), Some(payload.0))), payload.1);
  }

  /** Where the fields of a record stand: the rule behind its length, key, shard, fingerprint and time in
      fixed places behind it, the payload behind its length last. The time is in two's complement. */
  lemma Layout(r: Record)
    requires Fits(r)
    ensures var b, n := EntryBytes(r), |r.rule|;
      && |b| == n + 48 + |PayloadOf(r)|
      && b[..4] == PutU32(n) && b[4..n + 4] == r.rule
      && b[n + 4..n + 12] == PutU64(r.key) && b[n + 12..n + 20] == PutU64(r.shard)
      && b[n + 20..n + 36] == r.fingerprint
      && b[n + 36..n + 44] == PutU64(if r.refreshedAt < 0 then r.refreshedAt + TWO_64 else r.refreshedAt)
      && b[n + 44..n + 48] == PutU32(|PayloadOf(r)|) && b[n + 48..] == PayloadOf(r)
  {
    hide PutU32, PutU64, PayloadOf;
  }
}
