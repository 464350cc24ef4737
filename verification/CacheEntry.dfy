/** The parts of pkg/model/entry.go and pkg/model/payload.go that the storage relies on. */
module CacheEntry {
  import opened Wrappers
  import opened ByteCompare
  import opened RingList
  import PayloadCodec
  import Wire

  /** unsafe.Sizeof(Entry{}) on a 64-bit machine. */
  const ENTRY_SIZE: int := 64

  datatype Payload = Payload(bytes: Bytes, capacity: nat)

  /** Both missing, or both there and equal by the sampled comparison. */
  predicate SamePayload(hash: Hash, p: Option<Payload>, q: Option<Payload>) {
    match (p, q)
    case (None, None) => true
    case (Some(a), Some(b)) => SameBytes(hash, a.bytes, b.bytes)
    case (_, _) => false
  }

  /** Without a payload on either side nothing has changed; with one on one side only it has. */
  lemma SamePayloadIff(hash: Hash, p: Option<Payload>, q: Option<Payload>)
    ensures SamePayload(hash, p, q) <==>
      (p.Some? <==> q.Some?) && (p.Some? ==> SameBytes(hash, p.value.bytes, q.value.bytes))
  {
  }

  class Entry {
    const key: nat
    const shard: nat
    const fingerprint: Bytes
    var payload: Option<Payload>
    var lruListElem: Element?<Entry>
    var refreshedAt: int
    /** When the entry was last inserted, updated or hit, on the storage's own clock. */
    ghost var lastUse: int

    constructor (key: nat, shard: nat, fingerprint: Bytes, payload: Option<Payload>, now: int)
      ensures this.key == key && this.shard == shard && this.fingerprint == fingerprint
      ensures this.payload == payload && lruListElem == null && refreshedAt == now
    {
      this.key, this.shard, this.fingerprint := key, shard, fingerprint;
      this.payload, lruListElem, refreshedAt, lastUse := payload, null, now, 0;
    }

    function Weight(): (w: int)
      reads this`payload
      ensures w >= ENTRY_SIZE
    {
      ENTRY_SIZE + if payload.Some? then payload.value.capacity else 0
    }

    predicate IsSamePayload(hash: Hash, another: Entry)
      reads this`payload, another`payload
    {
      SamePayload(hash, payload, another.payload)
    }

    /** Packs the message; the buffer is full, so the weight counts exactly what was packed. */
    method SetPayload(m: PayloadCodec.Message, now: int)
      modifies this`payload, this`refreshedAt
      ensures payload == Some(Payload(PayloadCodec.Packed(m), |PayloadCodec.Packed(m)|))
      ensures Weight() == ENTRY_SIZE + |PayloadCodec.Packed(m)|
      ensures refreshedAt == now
    {
      var buf := PayloadCodec.Pack(m);
      payload := Some(Payload(buf[..], buf.Length));
      refreshedAt := now;
    }

    /** After `SetPayload` this gives the message back, by `PayloadCodec.RoundTrip`. */
    method GetPayload() returns (r: Wire.Read<Option<PayloadCodec.Message>>)
      ensures r == PayloadCodec.Unpacked(if payload.Some? then payload.value.bytes else [])
    {
      r := PayloadCodec.Unpack(if payload.Some? then payload.value.bytes else []);
    }

    method SwapPayloads(another: Entry, now: int)
      modifies this`payload, this`refreshedAt, another`payload
      ensures payload == old(another.payload) && another.payload == old(payload) && refreshedAt == now
    {
      payload, another.payload := another.payload, payload;
      refreshedAt := now;
    }
  }
}
