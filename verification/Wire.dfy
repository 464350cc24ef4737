/** Little-endian integers and length-prefixed fields, read at an offset as encoding/binary reads them:
    past the end a Go slice expression panics, here the read is `OutOfRange`. */
module Wire {
  import opened ByteCompare

  const TWO_32: nat := 0x1_0000_0000
  const TWO_64: nat := 0x1_0000_0000_0000_0000

  /** A value and the offset behind it. */
  datatype Read<+T> = Read(value: T, next: nat) | OutOfRange {
    predicate IsFailure() { OutOfRange? }
    function PropagateFailure<U>(): Read<U> requires IsFailure() { OutOfRange }
    function Extract(): (T, nat) requires !IsFailure() { (value, next) }
  }

  /** binary.LittleEndian.PutUint32 of uint32(n): the conversion keeps the low 32 bits. */
  function PutU32(n: nat): (b: Bytes)
    ensures |b| == 4
  {
    [n % 256, n / 256 % 256, n / 0x1_0000 % 256, n / 0x100_0000 % 256]
  }

  function PutU64(n: nat): (b: Bytes)
    ensures |b| == 8
  {
    PutU32(n) + PutU32(n / TWO_32)
  }

  function GetU32(b: Bytes): (n: nat)
    requires |b| == 4
  {
    b[0] as nat + 0x100 * (b[1] as nat) + 0x1_0000 * (b[2] as nat) + 0x100_0000 * (b[3] as nat)
  }

  function ReadU32(b: Bytes, at: nat): Read<nat> {
    if at + 4 <= |b| then Read(GetU32(b[at..at + 4]), at + 4) else OutOfRange
  }

  function ReadU64(b: Bytes, at: nat): Read<nat> {
    if at + 8 <= |b| then Read(GetU32(b[at..at + 4]) + TWO_32 * GetU32(b[at + 4..at + 8]), at + 8) else OutOfRange
  }

  function ReadBytes(b: Bytes, at: nat, n: nat): Read<Bytes> {
    if at + n <= |b| then Read(b[at..at + n], at + n) else OutOfRange
  }

  function Field(x: Bytes): Bytes {
    PutU32(|x|) + x
  }

  function ReadField(b: Bytes, at: nat): Read<Bytes> {
    var (n, at) :- ReadU32(b, at);
    ReadBytes(b, at, n)
  }

  /** `piece` stands in `b` at that offset. */
  ghost predicate At(b: Bytes, at: nat, piece: Bytes) {
    at + |piece| <= |b| && b[at..at + |piece|] == piece
  }

  lemma AtSplit(b: Bytes, at: nat, x: Bytes, y: Bytes)
    ensures At(b, at, x + y) <==> At(b, at, x) && At(b, at + |x|, y)
  {
    if at + |x| + |y| <= |b| {
      var both := b[at..at + |x| + |y|];
      assert both[..|x|] == b[at..at + |x|] && both[|x|..] == b[at + |x|..at + |x| + |y|];
      assert both == both[..|x|] + both[|x|..];
      if both == x + y { assert (x + y)[..|x|] == x && (x + y)[|x|..] == y; }
    }
  }

  /** Four digits and what is above them. */
  lemma FourDigits(n: nat)
    ensures n == n % 256 + 0x100 * (n / 0x100 % 256) + 0x1_0000 * (n / 0x1_0000 % 256)
              + 0x100_0000 * (n / 0x100_0000 % 256) + TWO_32 * (n / 0x100_0000 / 256)
  {
    var a, b, c := n / 0x100, n / 0x1_0000, n / 0x100_0000;
    assert b == a / 256 && c == b / 256;
  }

  lemma Remainder(n: nat, q: nat, r: nat)
    requires n == r + TWO_32 * q && r < TWO_32
    ensures n % TWO_32 == r
  {
  }

  /** Every byte is a digit: what is put is got back, up to the conversion. */
  lemma U32RoundTrip(n: nat)
    ensures GetU32(PutU32(n)) == n % TWO_32
  {
    FourDigits(n);
    Remainder(n, n / 0x100_0000 / 256, GetU32(PutU32(n)));
  }

  lemma U32Back(n: nat)
    requires n < TWO_32
    ensures GetU32(PutU32(n)) == n
  {
    U32RoundTrip(n);
    hide GetU32, PutU32;
  }

  lemma ReadU32At(b: Bytes, at: nat, n: nat)
    requires At(b, at, PutU32(n))
    ensures ReadU32(b, at) == Read(n % TWO_32, at + 4)
  {
    U32RoundTrip(n);
  }

  lemma ReadU32Short(b: Bytes, at: nat, n: nat)
    requires At(b, at, PutU32(n)) && n < TWO_32
    ensures ReadU32(b, at) == Read(n, at + 4)
  {
    ReadU32At(b, at, n);
  }

  lemma BytesAt(b: Bytes, at: nat, x: Bytes)
    requires At(b, at, x)
    ensures ReadBytes(b, at, |x|) == Read(x, at + |x|)
  {
  }

  lemma ReadU64At(b: Bytes, at: nat, n: nat)
    requires At(b, at, PutU64(n))
    ensures ReadU64(b, at) == Read(n % TWO_64, at + 8)
  {
    AtSplit(b, at, PutU32(n), PutU32(n / TWO_32));
    U32RoundTrip(n);
    U32RoundTrip(n / TWO_32);
    HighAndLow(n);
  }

  lemma HighAndLow(n: nat)
    ensures n % TWO_32 + TWO_32 * (n / TWO_32 % TWO_32) == n % TWO_64
  {
  }

  lemma ReadFieldAt(b: Bytes, at: nat, x: Bytes)
    requires At(b, at, Field(x)) && |x| < TWO_32
    ensures ReadField(b, at) == Read(x, at + |Field(x)|)
  {
    hide PutU32, GetU32, ReadU32, At;
    AtSplit(b, at, PutU32(|x|), x);
    ReadU32Short(b, at, |x|);
    BytesAt(b, at + 4, x);
  }

  /** A field or an integer at the front of a piece: it is read, and the rest of the piece follows. */
  lemma TakeField(b: Bytes, at: nat, x: Bytes, rest: Bytes)
    requires At(b, at, Field(x) + rest) && |x| < TWO_32
    ensures ReadField(b, at) == Read(x, at + |Field(x)|)
    ensures At(b, at + |Field(x)|, rest)
  {
    AtSplit(b, at, Field(x), rest);
    ReadFieldAt(b, at, x);
  }

  lemma TakeU32(b: Bytes, at: nat, n: nat, rest: Bytes)
    requires At(b, at, PutU32(n) + rest) && n < TWO_32
    ensures ReadU32(b, at) == Read(n, at + 4)
    ensures At(b, at + 4, rest)
  {
    hide PutU32, ReadU32, At;
    AtSplit(b, at, PutU32(n), rest);
    ReadU32Short(b, at, n);
  }

  lemma TakeU64(b: Bytes, at: nat, n: nat, rest: Bytes)
    requires At(b, at, PutU64(n) + rest) && n < TWO_64
    ensures ReadU64(b, at) == Read(n, at + 8)
    ensures At(b, at + 8, rest)
  {
    AtSplit(b, at, PutU64(n), rest);
    ReadU64At(b, at, n);
  }

  lemma TakeBytes(b: Bytes, at: nat, x: Bytes, rest: Bytes)
    requires At(b, at, x + rest)
    ensures ReadBytes(b, at, |x|) == Read(x, at + |x|)
    ensures At(b, at + |x|, rest)
  {
    AtSplit(b, at, x, rest);
  }

  /** The lowest byte comes first. */
  lemma LowByteFirst(n: nat)
    ensures PutU32(n) == [n % 256] + PutU32(n / 256)[..3] && PutU32(0) == [0, 0, 0, 0]
    ensures PutU64(n) == [n % 256] + PutU64(n / 256)[..7] && PutU64(0) == [0, 0, 0, 0, 0, 0, 0, 0]
  {
    LowByteOfFour(n);
    LowByteOfFour(n / TWO_32);
    Quotients(n);
    var low, high := PutU32(n), PutU32(n / TWO_32);
    assert PutU32(n / 256)[3] == n / TWO_32 % 256 == high[0];
    assert PutU64(n / 256) == PutU32(n / 256) + PutU32(n / TWO_32 / 256);
    assert PutU64(n / 256)[..7] == PutU32(n / 256)[..3] + [high[0]] + PutU32(n / TWO_32 / 256)[..3];
  }

  lemma Quotients(n: nat)
    ensures n / 256 / TWO_32 == n / TWO_32 / 256 && n / 256 / 0x100_0000 == n / TWO_32
  {
  }

  lemma LowByteOfFour(n: nat)
    ensures PutU32(n) == [n % 256] + PutU32(n / 256)[..3]
  {
    assert n / 0x1_0000 == n / 256 / 256 && n / 0x100_0000 == n / 256 / 0x1_0000;
  }
}
