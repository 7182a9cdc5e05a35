/**
 The records the leaf keeps in the caller's byte buffer. Every access in the C code is a
 memcpy between a struct and the buffer; here a struct is a datatype and its image is a
 sequence of bytes, least significant byte first.
 */
module RecordFormat {
  import opened Basics

  type u16 = x: int | 0 <= x < 0x1_0000
  type u32 = x: int | 0 <= x < 0x1_0000_0000
  type u64 = x: int | 0 <= x < 0x1_0000_0000_0000_0000

  const NONE32: u32 := 0xffff_ffff
  const NONE16: u16 := 0xffff

  // sizeof(span_rec), sizeof(chunk_hdr), sizeof(kv_hdr), sizeof(event_hdr)
  const REC_SIZE := 72
  const HDR_SIZE := 24
  const KV_SIZE := 24
  const EVENT_SIZE := 16

  const CHUNK_DEAD: byte := 0
  const CHUNK_NAME: byte := 1
  const CHUNK_ATTR: byte := 2
  const CHUNK_EVENT: byte := 3
  const CHUNK_STATUS: byte := 4

  const SLOT_FREE: byte := 0
  const SLOT_OPEN: byte := 1
  const SLOT_ENDED: byte := 2

  // ---------------------------------------------------------------- Integers

  function Pow256(w: nat): (p: nat)
    ensures p > 0
  {
    if w == 0 then 1 else 256 * Pow256(w - 1)
  }

  function LE(n: nat, w: nat): (b: seq<byte>)
    ensures |b| == w
    decreases w
  {
    if w == 0 then [] else [n % 256] + LE(n / 256, w - 1)
  }

  function FromLE(b: seq<byte>): (n: nat)
    ensures n < Pow256(|b|)
  {
    if b == [] then 0 else b[0] + 256 * FromLE(b[1..])
  }

  lemma {:induction false} LERoundTrip(n: nat, w: nat)
    requires n < Pow256(w)
    ensures FromLE(LE(n, w)) == n
    decreases w
  {
    if w > 0 {
      LERoundTrip(n / 256, w - 1);
      assert LE(n, w)[1..] == LE(n / 256, w - 1);
    }
  }

  lemma PowValues()
    ensures Pow256(1) == 0x100 && Pow256(2) == 0x1_0000
    ensures Pow256(4) == 0x1_0000_0000 && Pow256(8) == 0x1_0000_0000_0000_0000
  {
    assert Pow256(3) == 0x100_0000;
    assert Pow256(5) == 0x100_0000_0000;
    assert Pow256(6) == 0x1_0000_0000_0000;
    assert Pow256(7) == 0x100_0000_0000_0000;
  }

  function U8(b: seq<byte>): byte requires |b| == 1 { PowValues(); FromLE(b) }
  function U16(b: seq<byte>): u16 requires |b| == 2 { PowValues(); FromLE(b) }
  function U32(b: seq<byte>): u32 requires |b| == 4 { PowValues(); FromLE(b) }
  function U64(b: seq<byte>): u64 requires |b| == 8 { PowValues(); FromLE(b) }

  lemma U8RoundTrip(n: byte) ensures U8(LE(n, 1)) == n { PowValues(); LERoundTrip(n, 1); }
  lemma U16RoundTrip(n: u16) ensures U16(LE(n, 2)) == n { PowValues(); LERoundTrip(n, 2); }
  lemma U32RoundTrip(n: u32) ensures U32(LE(n, 4)) == n { PowValues(); LERoundTrip(n, 4); }
  lemma U64RoundTrip(n: u64) ensures U64(LE(n, 8)) == n { PowValues(); LERoundTrip(n, 8); }

  // ---------------------------------------------------------------- chunk_hdr

  datatype ChunkHdr = ChunkHdr(
    next: u32,   // what follows in the list of the same span
    size: u32,   // header and payload together
    used: u32,   // how much of the payload means anything
    fwd: u32,    // where a compaction will put the chunk
    below: u32,  // its lower neighbour, for the last pass of a compaction
    owner: u16,  // the slot of the span it belongs to
    kind: byte,
    pad: byte)

  function HdrBytes(h: ChunkHdr): (b: seq<byte>)
    ensures |b| == HDR_SIZE
  {
    LE(h.next, 4) + LE(h.size, 4) + LE(h.used, 4) + LE(h.fwd, 4) + LE(h.below, 4) +
    LE(h.owner, 2) + LE(h.kind, 1) + LE(h.pad, 1)
  }

  function HdrOf(b: seq<byte>): ChunkHdr
    requires |b| == HDR_SIZE
  {
    ChunkHdr(U32(b[0..4]), U32(b[4..8]), U32(b[8..12]), U32(b[12..16]), U32(b[16..20]),
             U16(b[20..22]), U8(b[22..23]), U8(b[23..24]))
  }

  lemma LastPart(front: seq<byte>, last: seq<byte>, b: seq<byte>)
    requires b == front + last
    ensures b[|front|..|b|] == last
  {}

  lemma HdrRoundTrip(h: ChunkHdr)
    ensures HdrOf(HdrBytes(h)) == h
  {
    hide LE, FromLE, U8, U16, U32;
    var b := HdrBytes(h);
    assert b[0..4] == LE(h.next, 4) && b[4..8] == LE(h.size, 4) && b[8..12] == LE(h.used, 4);
    assert b[12..16] == LE(h.fwd, 4) && b[16..20] == LE(h.below, 4);
    assert b[20..22] == LE(h.owner, 2) && b[22..23] == LE(h.kind, 1);
    LastPart(b[..23], LE(h.pad, 1), b);
    U32RoundTrip(h.next); U32RoundTrip(h.size); U32RoundTrip(h.used); U32RoundTrip(h.fwd);
    U32RoundTrip(h.below); U16RoundTrip(h.owner); U8RoundTrip(h.kind); U8RoundTrip(h.pad);
  }

  // ---------------------------------------------------------------- span_rec

  type Id16 = s: seq<byte> | |s| == 16 witness seq(16, _ => 0)
  type Id8 = s: seq<byte> | |s| == 8 witness seq(8, _ => 0)

  datatype SpanRec = SpanRec(
    start: u64,
    end: u64,
    traceId: Id16,
    spanId: Id8,
    parentId: Id8,
    head: u32,       // where the list of chunks begins
    tail: u32,
    gen: u16,
    nextEnded: u16,  // the slot of the span that ended after this one
    attrCount: u16,
    eventCount: u16,
    state: byte,
    kind: byte,
    statusCode: byte,
    hasParent: byte)

  function RecBytes(r: SpanRec): (b: seq<byte>)
    ensures |b| == REC_SIZE
  {
    LE(r.start, 8) + LE(r.end, 8) + r.traceId + r.spanId + r.parentId +
    LE(r.head, 4) + LE(r.tail, 4) + LE(r.gen, 2) + LE(r.nextEnded, 2) +
    LE(r.attrCount, 2) + LE(r.eventCount, 2) +
    LE(r.state, 1) + LE(r.kind, 1) + LE(r.statusCode, 1) + LE(r.hasParent, 1) +
    [0, 0, 0, 0]  // trailing padding
  }

  function RecOf(b: seq<byte>): SpanRec
    requires |b| == REC_SIZE
  {
    SpanRec(U64(b[0..8]), U64(b[8..16]), b[16..32], b[32..40], b[40..48],
            U32(b[48..52]), U32(b[52..56]), U16(b[56..58]), U16(b[58..60]),
            U16(b[60..62]), U16(b[62..64]),
            U8(b[64..65]), U8(b[65..66]), U8(b[66..67]), U8(b[67..68]))
  }

  lemma RecRoundTrip(r: SpanRec)
    ensures RecOf(RecBytes(r)) == r
  {
    hide LE, FromLE, U8, U16, U32, U64;
    var b := RecBytes(r);
    assert b[0..8] == LE(r.start, 8) && b[8..16] == LE(r.end, 8);
    assert b[16..32] == r.traceId && b[32..40] == r.spanId && b[40..48] == r.parentId;
    assert b[48..52] == LE(r.head, 4) && b[52..56] == LE(r.tail, 4);
    assert b[56..58] == LE(r.gen, 2) && b[58..60] == LE(r.nextEnded, 2);
    assert b[60..62] == LE(r.attrCount, 2) && b[62..64] == LE(r.eventCount, 2);
    assert b[64..65] == LE(r.state, 1) && b[65..66] == LE(r.kind, 1);
    assert b[66..67] == LE(r.statusCode, 1) && b[67..68] == LE(r.hasParent, 1);
    U64RoundTrip(r.start); U64RoundTrip(r.end); U32RoundTrip(r.head); U32RoundTrip(r.tail);
    U16RoundTrip(r.gen); U16RoundTrip(r.nextEnded); U16RoundTrip(r.attrCount);
    U16RoundTrip(r.eventCount); U8RoundTrip(r.state); U8RoundTrip(r.kind);
    U8RoundTrip(r.statusCode); U8RoundTrip(r.hasParent);
  }

  // ---------------------------------------------------------------- Attributes

  const MIN_INT64 := -0x8000_0000_0000_0000
  const MAX_INT64 := 0x7fff_ffff_ffff_ffff

  type i64 = x: int | MIN_INT64 <= x <= MAX_INT64

  /** The four attribute value types; a double is its bit pattern. */
  datatype Value = Bool(b: bool) | Int64(i: i64) | Double(bits: u64) | Str(s: seq<byte>)

  datatype KV = KV(key: seq<byte>, value: Value)

  function StrPart(v: Value): seq<byte> { if v.Str? then v.s else [] }

  function TypeCode(v: Value): byte {
    match v case Bool(_) => 0 case Int64(_) => 1 case Double(_) => 2 case Str(_) => 3
  }

  /** The 64-bit scalar of a packed attribute; int64 wraps to its two's-complement image. */
  function Scalar(v: Value): u64 {
    match v
    case Bool(b) => if b then 1 else 0
    case Int64(i) => if i < 0 then i + 0x1_0000_0000_0000_0000 else i
    case Double(bits) => bits
    case Str(_) => 0
  }

  function KVSize(kv: KV): nat { KV_SIZE + |kv.key| + |StrPart(kv.value)| }

  /** Lengths fit the 32-bit fields of a packed attribute whenever its chunk fits the buffer. */
  predicate Packable(kv: KV) { KVSize(kv) < 0x1_0000_0000 }

  /** pack_kv; as in the C code, a length that does not fit its field is cut to 32 bits. */
  function PackKV(kv: KV): (b: seq<byte>)
    ensures |b| == KVSize(kv)
  {
    LE(Scalar(kv.value), 8) + LE(|kv.key|, 4) + LE(|StrPart(kv.value)|, 4) +
    LE(TypeCode(kv.value), 4) + LE(0, 4) + kv.key + StrPart(kv.value)
  }

  datatype Unpacked = Unpacked(kv: KV, size: nat) | BadKV

  /** unpack_kv, total: it fails where the C code would read past the end of the payload. */
  function UnpackKV(b: seq<byte>): Unpacked {
    if |b| < KV_SIZE then BadKV else
    var scalar, keyLen, strLen, typ := U64(b[0..8]), U32(b[8..12]), U32(b[12..16]), U32(b[16..20]);
    if |b| < KV_SIZE + keyLen + strLen then BadKV else
    var key := b[KV_SIZE..KV_SIZE + keyLen];
    var v := if typ == 0 then Bool(scalar != 0)
             else if typ == 1 then Int64(if scalar > MAX_INT64 then scalar - 0x1_0000_0000_0000_0000 else scalar)
             else if typ == 2 then Double(scalar)
             else Str(b[KV_SIZE + keyLen..KV_SIZE + keyLen + strLen]);
    Unpacked(KV(key, v), KV_SIZE + keyLen + strLen)
  }

  lemma PackedFields(kv: KV, rest: seq<byte>)
    requires Packable(kv)
    ensures var b := PackKV(kv) + rest;
            && U64(b[0..8]) == Scalar(kv.value) && U32(b[8..12]) == |kv.key|
            && U32(b[12..16]) == |StrPart(kv.value)| && U32(b[16..20]) == TypeCode(kv.value)
            && b[KV_SIZE..KV_SIZE + |kv.key|] == kv.key
            && b[KV_SIZE + |kv.key|..KVSize(kv)] == StrPart(kv.value)
  {
    hide LE, FromLE, U32, U64, Scalar, TypeCode;
    var b := PackKV(kv) + rest;
    assert b[0..8] == LE(Scalar(kv.value), 8) && b[8..12] == LE(|kv.key|, 4);
    assert b[12..16] == LE(|StrPart(kv.value)|, 4) && b[16..20] == LE(TypeCode(kv.value), 4);
    U64RoundTrip(Scalar(kv.value)); U32RoundTrip(|kv.key|);
    U32RoundTrip(|StrPart(kv.value)|); U32RoundTrip(TypeCode(kv.value));
  }

  /** Unpacking undoes packing, wherever the packed attribute stands in a payload. */
  lemma PackRoundTrip(kv: KV, rest: seq<byte>)
    requires Packable(kv)
    ensures UnpackKV(PackKV(kv) + rest) == Unpacked(kv, KVSize(kv))
  {
    hide LE, FromLE, U32, U64, PackKV;
    PackedFields(kv, rest);
  }

  function PackKVs(kvs: seq<KV>): (b: seq<byte>)
    ensures |b| == KVsSize(kvs)
  {
    if kvs == [] then [] else PackKV(kvs[0]) + PackKVs(kvs[1..])
  }

  function KVsSize(kvs: seq<KV>): nat {
    if kvs == [] then 0 else KVSize(kvs[0]) + KVsSize(kvs[1..])
  }

  lemma {:induction false} KVsCount(kvs: seq<KV>)
    ensures |kvs| <= KVsSize(kvs)
  {
    if kvs != [] { KVsCount(kvs[1..]); }
  }

  /** What next_event_attr (and next_resource_attr) returns, call after call. */
  function UnpackKVs(b: seq<byte>, count: nat): Option<seq<KV>>
    decreases count
  {
    if count == 0 then Some([]) else
    match UnpackKV(b)
    case BadKV => None
    case Unpacked(kv, size) =>
      if size > |b| then None else
      match UnpackKVs(b[size..], count - 1)
      case None => None
      case Some(rest) => Some([kv] + rest)
  }

  lemma {:induction false} PackKVsRoundTrip(kvs: seq<KV>, rest: seq<byte>)
    requires KVsSize(kvs) < 0x1_0000_0000
    ensures UnpackKVs(PackKVs(kvs) + rest, |kvs|) == Some(kvs)
  {
    hide UnpackKV, PackKV;
    if kvs != [] {
      var tail := PackKVs(kvs[1..]) + rest;
      assert PackKVs(kvs) + rest == PackKV(kvs[0]) + tail;
      PackRoundTrip(kvs[0], tail);
      assert (PackKV(kvs[0]) + tail)[KVSize(kvs[0])..] == tail;
      PackKVsRoundTrip(kvs[1..], rest);
      assert kvs == [kvs[0]] + kvs[1..];
    }
  }

  // ---------------------------------------------------------------- Events

  datatype Event = Event(time: u64, name: seq<byte>, attrs: seq<KV>)

  function EventSize(e: Event): nat { EVENT_SIZE + |e.name| + KVsSize(e.attrs) }

  predicate PackableEvent(e: Event) {
    EventSize(e) < 0x1_0000_0000
  }

  function PackEvent(e: Event): (b: seq<byte>)
    ensures |b| == EventSize(e)
  {
    LE(e.time, 8) + LE(|e.name|, 4) + LE(|e.attrs|, 4) + e.name + PackKVs(e.attrs)
  }

  function UnpackEvent(b: seq<byte>): Option<Event> {
    if |b| < EVENT_SIZE then None else
    var time, nameLen, count := U64(b[0..8]), U32(b[8..12]), U32(b[12..16]);
    if |b| < EVENT_SIZE + nameLen then None else
    match UnpackKVs(b[EVENT_SIZE + nameLen..], count)
    case None => None
    case Some(attrs) => Some(Event(time, b[EVENT_SIZE..EVENT_SIZE + nameLen], attrs))
  }

  lemma EventRoundTrip(e: Event)
    requires PackableEvent(e)
    ensures UnpackEvent(PackEvent(e)) == Some(e)
  {
    hide LE, FromLE, U32, U64, PackKVs, UnpackKVs;
    var b := PackEvent(e);
    assert b[0..8] == LE(e.time, 8) && b[8..12] == LE(|e.name|, 4) && b[12..16] == LE(|e.attrs|, 4);
    assert b[EVENT_SIZE..EVENT_SIZE + |e.name|] == e.name;
    assert b[EVENT_SIZE + |e.name|..] == PackKVs(e.attrs) + [];
    KVsCount(e.attrs);
    U64RoundTrip(e.time); U32RoundTrip(|e.name|); U32RoundTrip(|e.attrs|);
    PackKVsRoundTrip(e.attrs, []);
  }
}
