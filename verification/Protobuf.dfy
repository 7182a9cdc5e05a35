/**
 The payload of an encode: an ExportTraceServiceRequest under the six encoding rules of the leaf's
 backend contract, and the size bound the leaf computes without encoding.
 */
module Protobuf {
  import opened Basics
  import opened RecordFormat
  import opened LeafSpec

  // ---------------------------------------------------------------- Wire format

  function Varint(n: nat): (b: seq<byte>)
    ensures |b| > 0
  {
    if n < 128 then [n] else [128 + n % 128] + Varint(n / 128)
  }

  /** One field of a message: a varint, a fixed64, or a length-delimited content. */
  datatype Field = Num(f: nat, n: nat) | Fix(f: nat, v: u64) | Len(f: nat, content: seq<byte>)

  function Wire(x: Field): nat { if x.Num? then 0 else if x.Fix? then 1 else 2 }

  function Tag(x: Field): seq<byte> { Varint(8 * x.f + Wire(x)) }

  function Body(x: Field): seq<byte> {
    match x
    case Num(_, n) => Varint(n)
    case Fix(_, v) => LE(v, 8)
    case Len(_, content) => Varint(|content|) + content
  }

  function Message(fs: seq<Field>): seq<byte> {
    if fs == [] then [] else Tag(fs[0]) + Body(fs[0]) + Message(fs[1..])
  }

  datatype Read<+T> = Read(value: T, rest: seq<byte>) | Bad

  function ReadVarint(b: seq<byte>): (r: Read<nat>)
    ensures r.Read? ==> |r.rest| < |b|
  {
    if b == [] then Bad
    else if b[0] < 128 then Read(b[0], b[1..])
    else match ReadVarint(b[1..]) case Bad => Bad case Read(n, rest) => Read(b[0] - 128 + 128 * n, rest)
  }

  function ReadBody(f: nat, wire: nat, b: seq<byte>): (r: Read<Field>)
    ensures r.Read? ==> |r.rest| <= |b|
  {
    if wire == 0 then
      match ReadVarint(b) case Bad => Bad case Read(n, rest) => Read(Num(f, n), rest)
    else if wire == 1 then
      if |b| < 8 then Bad else Read(Fix(f, U64(b[..8])), b[8..])
    else if wire == 2 then
      match ReadVarint(b)
      case Bad => Bad
      case Read(n, rest) => if n > |rest| then Bad else Read(Len(f, rest[..n]), rest[n..])
    else Bad
  }

  function ReadMessage(b: seq<byte>): Option<seq<Field>>
    decreases |b|
  {
    if b == [] then Some([]) else
    match ReadVarint(b)
    case Bad => None
    case Read(tag, rest) =>
      match ReadBody(tag / 8, tag % 8, rest)
      case Bad => None
      case Read(x, more) => match ReadMessage(more) case None => None case Some(xs) => Some([x] + xs)
  }

  lemma {:induction false} VarintRoundTrip(n: nat, rest: seq<byte>)
    ensures ReadVarint(Varint(n) + rest) == Read(n, rest)
  {
    var b := Varint(n) + rest;
    if n < 128 {
      assert b[1..] == rest;
    } else {
      VarintRoundTrip(n / 128, rest);
      assert b[1..] == Varint(n / 128) + rest;
    }
  }

  lemma BodyRoundTrip(x: Field, rest: seq<byte>)
    ensures ReadBody(x.f, Wire(x), Body(x) + rest) == Read(x, rest)
  {
    hide Varint, ReadVarint, LE, U64;
    var b := Body(x) + rest;
    match x
    case Num(f, n) => VarintRoundTrip(n, rest);
    case Fix(f, v) =>
      assert b[..8] == LE(v, 8) && b[8..] == rest;
      U64RoundTrip(v);
    case Len(f, content) =>
      assert b == Varint(|content|) + (content + rest);
      VarintRoundTrip(|content|, content + rest);
      assert (content + rest)[..|content|] == content && (content + rest)[|content|..] == rest;
  }

  /** A message is read back field by field: the encoding loses nothing. */
  lemma {:induction false} MessageRoundTrip(fs: seq<Field>)
    ensures ReadMessage(Message(fs)) == Some(fs)
  {
    hide Varint, ReadVarint, Body, ReadBody;
    if fs != [] {
      var x, more := fs[0], Message(fs[1..]);
      var b := Message(fs);
      assert b == Tag(x) + (Body(x) + more);
      VarintRoundTrip(8 * x.f + Wire(x), Body(x) + more);
      BodyRoundTrip(x, more);
      MessageRoundTrip(fs[1..]);
      assert fs == [x] + fs[1..];
    }
  }

  lemma {:induction false} MessageSum(a: seq<Field>, b: seq<Field>)
    ensures Message(a + b) == Message(a) + Message(b)
  {
    hide Tag, Body;
    if a == [] {
      assert a + b == b;
    } else {
      assert (a + b)[1..] == a[1..] + b;
      MessageSum(a[1..], b);
      assert Tag(a[0]) + Body(a[0]) + (Message(a[1..]) + Message(b))
          == Tag(a[0]) + Body(a[0]) + Message(a[1..]) + Message(b);
    }
  }

  // ---------------------------------------------------------------- The messages

  function Opt(f: nat, content: seq<byte>): seq<Field> { if content == [] then [] else [Len(f, content)] }
  function OptNum(f: nat, n: nat): seq<Field> { if n == 0 then [] else [Num(f, n)] }
  function OptFix(f: nat, v: u64): seq<Field> { if v == 0 then [] else [Fix(f, v)] }

  /** The one member of AnyValue, always written; a negative int64 is its 64-bit image. */
  function AnyValue(v: Value): Field {
    match v
    case Str(s) => Len(1, s)
    case Bool(b) => Num(2, Scalar(v))
    case Int64(i) => Num(3, Scalar(v))
    case Double(bits) => Fix(4, bits)
  }

  function KeyValue(kv: KV): seq<Field> { Opt(1, kv.key) + [Len(2, Message([AnyValue(kv.value)]))] }

  function KeyValues(f: nat, kvs: seq<KV>): seq<Field> {
    if kvs == [] then [] else KeyValues(f, kvs[..|kvs| - 1]) + [Len(f, Message(KeyValue(kvs[|kvs| - 1])))]
  }

  function Plus64(a: u64, b: u64): u64 { (a + b) % 0x1_0000_0000_0000_0000 }

  function EventMessage(e: Event, offset: u64): seq<Field> {
    OptFix(1, Plus64(e.time, offset)) + Opt(2, e.name) + KeyValues(3, e.attrs)
  }

  function EventMessages(es: seq<Event>, offset: u64): seq<Field> {
    if es == [] then [] else
    EventMessages(es[..|es| - 1], offset) + [Len(11, Message(EventMessage(es[|es| - 1], offset)))]
  }

  function StatusMessage(s: Span): seq<Field> { Opt(2, s.message) + OptNum(3, s.statusCode) }

  predicate HasStatus(s: Span) { s.statusCode != 0 || s.message != [] }

  /** The fields before the lists, and the one after them. */
  function SpanHead(s: Span, offset: u64): seq<Field> {
    [Len(1, s.traceId)] + [Len(2, s.spanId)] + (if s.parentId.Some? then [Len(4, s.parentId.value)] else []) +
    Opt(5, s.name) + OptNum(6, s.kind) + OptFix(7, Plus64(s.start, offset)) + OptFix(8, Plus64(s.end, offset))
  }

  function SpanStatus(s: Span): seq<Field> { if HasStatus(s) then [Len(15, Message(StatusMessage(s)))] else [] }

  function SpanMessage(s: Span, offset: u64): seq<Field> {
    SpanHead(s, offset) + KeyValues(9, s.attrs) + EventMessages(s.events, offset) + SpanStatus(s)
  }

  function SpanMessages(spans: seq<Span>, offset: u64): seq<Field> {
    if spans == [] then [] else
    SpanMessages(spans[..|spans| - 1], offset) + [Len(2, Message(SpanMessage(spans[|spans| - 1], offset)))]
  }

  /** What the core hands a backend. */
  datatype Batch = Batch(
    resource: seq<KV>,       // configured, then reserved
    scopeName: seq<byte>,
    scopeVersion: seq<byte>,
    spans: seq<Span>,
    offset: u64)

  function Scope(b: Batch): seq<Field> { Opt(1, b.scopeName) + Opt(2, b.scopeVersion) }

  function ScopeSpans(b: Batch): seq<Field> { [Len(1, Message(Scope(b)))] + SpanMessages(b.spans, b.offset) }

  function ResourceSpans(b: Batch): seq<Field> {
    [Len(1, Message(KeyValues(1, b.resource)))] + [Len(2, Message(ScopeSpans(b)))]
  }

  /** The whole payload. */
  function Request(b: Batch): seq<byte> { Message([Len(1, Message(ResourceSpans(b)))]) }

  // ---------------------------------------------------------------- Rule 1: ascending field numbers

  predicate Within(fs: seq<Field>, lo: nat, hi: nat) {
    && (forall i :: 0 <= i < |fs| ==> lo <= fs[i].f <= hi)
    && (forall i, j :: 0 <= i < j < |fs| ==> fs[i].f <= fs[j].f)
  }

  lemma Joined(a: seq<Field>, b: seq<Field>, lo: nat, mid: nat, mid': nat, hi: nat)
    requires Within(a, lo, mid) && Within(b, mid', hi) && lo <= mid <= mid' <= hi
    ensures Within(a + b, lo, hi)
  {}

  lemma {:induction false} KeyValuesField(f: nat, kvs: seq<KV>)
    ensures Within(KeyValues(f, kvs), f, f)
  {
    hide KeyValue;
    if kvs != [] { KeyValuesField(f, kvs[..|kvs| - 1]); }
  }

  lemma {:induction false} EventsField(es: seq<Event>, offset: u64)
    ensures Within(EventMessages(es, offset), 11, 11)
  {
    hide EventMessage;
    if es != [] { EventsField(es[..|es| - 1], offset); }
  }

  /** The fields of a span go out in field-number order. */
  lemma SpanAscending(s: Span, offset: u64)
    ensures Within(SpanMessage(s, offset), 1, 15)
  {
    hide KeyValues, EventMessages, Within;
    HeadAscending(s, offset);
    KeyValuesField(9, s.attrs);
    EventsField(s.events, offset);
    Joined(SpanHead(s, offset), KeyValues(9, s.attrs), 1, 8, 9, 9);
    Joined(SpanHead(s, offset) + KeyValues(9, s.attrs), EventMessages(s.events, offset), 1, 9, 11, 11);
    StatusField(s);
    Joined(SpanHead(s, offset) + KeyValues(9, s.attrs) + EventMessages(s.events, offset), SpanStatus(s), 1, 11, 15, 15);
  }

  lemma HeadAscending(s: Span, offset: u64)
    ensures Within(SpanHead(s, offset), 1, 8)
  {
    hide Plus64, Within;
    var trace, id := [Len(1, s.traceId)], [Len(2, s.spanId)];
    var parent := if s.parentId.Some? then [Len(4, s.parentId.value)] else [];
    var name, kind := Opt(5, s.name), OptNum(6, s.kind);
    var start, end := OptFix(7, Plus64(s.start, offset)), OptFix(8, Plus64(s.end, offset));
    AtMostOne(trace, 1); AtMostOne(id, 2); AtMostOne(parent, 4); AtMostOne(name, 5);
    AtMostOne(kind, 6); AtMostOne(start, 7); AtMostOne(end, 8);
    Joined(trace, id, 1, 1, 2, 2);
    Joined(trace + id, parent, 1, 2, 4, 4);
    Joined(trace + id + parent, name, 1, 4, 5, 5);
    Joined(trace + id + parent + name, kind, 1, 5, 6, 6);
    Joined(trace + id + parent + name + kind, start, 1, 6, 7, 7);
    Joined(trace + id + parent + name + kind + start, end, 1, 7, 8, 8);
  }

  lemma KeyValueAscending(kv: KV)
    ensures Within(KeyValue(kv), 1, 2)
  {
    hide Message, Within;
    TwoAscending(Opt(1, kv.key), [Len(2, Message([AnyValue(kv.value)]))], 1, 2);
  }

  lemma EventAscending(e: Event, offset: u64)
    ensures Within(EventMessage(e, offset), 1, 3)
  {
    hide KeyValues, Within, Plus64;
    var time, name := OptFix(1, Plus64(e.time, offset)), Opt(2, e.name);
    AtMostOne(time, 1);
    AtMostOne(name, 2);
    KeyValuesField(3, e.attrs);
    Joined(time, name, 1, 1, 2, 2);
    Joined(time + name, KeyValues(3, e.attrs), 1, 2, 3, 3);
  }

  lemma {:induction false} SpansField(spans: seq<Span>, offset: u64)
    ensures Within(SpanMessages(spans, offset), 2, 2)
  {
    hide SpanMessage;
    if spans != [] { SpansField(spans[..|spans| - 1], offset); }
  }

  lemma ScopeSpansAscending(b: Batch)
    ensures Within(ScopeSpans(b), 1, 2)
  {
    hide Scope, SpanMessages, Within, Message;
    AtMostOne([Len(1, Message(Scope(b)))], 1);
    SpansField(b.spans, b.offset);
    Joined([Len(1, Message(Scope(b)))], SpanMessages(b.spans, b.offset), 1, 1, 2, 2);
  }

  lemma TwoAscending(a: seq<Field>, b: seq<Field>, f: nat, g: nat)
    requires |a| == 0 || (|a| == 1 && a[0].f == f)
    requires |b| == 0 || (|b| == 1 && b[0].f == g)
    requires f <= g
    ensures Within(a + b, f, g)
  {
    hide Within;
    AtMostOne(a, f);
    AtMostOne(b, g);
    Joined(a, b, f, f, g, g);
  }

  lemma ScopeAscending(b: Batch)
    ensures Within(Scope(b), 1, 2)
  {
    hide Within;
    TwoAscending(Opt(1, b.scopeName), Opt(2, b.scopeVersion), 1, 2);
  }

  lemma StatusAscending(s: Span)
    ensures Within(StatusMessage(s), 2, 3)
  {
    hide Within;
    TwoAscending(Opt(2, s.message), OptNum(3, s.statusCode), 2, 3);
  }

  /** Rule 1: the fields of every message of a request go out in field-number order. */
  lemma RequestAscending(b: Batch)
    ensures Within(ResourceSpans(b), 1, 2) && Within(KeyValues(1, b.resource), 1, 1)
    ensures Within(ScopeSpans(b), 1, 2) && Within(Scope(b), 1, 2)
    ensures forall s :: s in b.spans ==> Within(SpanMessage(s, b.offset), 1, 15) && Within(StatusMessage(s), 2, 3)
    ensures forall s, e :: s in b.spans && e in s.events ==> Within(EventMessage(e, b.offset), 1, 3)
    ensures forall kv: KV :: Within(KeyValue(kv), 1, 2)
  {
    hide Message, KeyValues, ScopeSpans, SpanMessage, EventMessage, KeyValue, Within, StatusMessage, Scope;
    KeyValuesField(1, b.resource);
    ScopeSpansAscending(b);
    TwoAscending([Len(1, Message(KeyValues(1, b.resource)))], [Len(2, Message(ScopeSpans(b)))], 1, 2);
    ScopeAscending(b);
    forall s | s in b.spans
      ensures Within(SpanMessage(s, b.offset), 1, 15) && Within(StatusMessage(s), 2, 3)
    {
      SpanAscending(s, b.offset);
      StatusAscending(s);
    }
    forall s, e | s in b.spans && e in s.events
      ensures Within(EventMessage(e, b.offset), 1, 3)
    {
      EventAscending(e, b.offset);
    }
    forall kv: KV
      ensures Within(KeyValue(kv), 1, 2)
    {
      KeyValueAscending(kv);
    }
  }

  lemma AtMostOne(fs: seq<Field>, f: nat)
    requires |fs| == 0 || (|fs| == 1 && fs[0].f == f)
    ensures Within(fs, f, f)
  {}

  lemma StatusField(s: Span)
    ensures Within(SpanStatus(s), 15, 15)
  {
    hide StatusMessage;
  }

  // ---------------------------------------------------------------- Rule 4: negative integers

  lemma {:induction false} VarintAtLeast(n: nat, k: nat)
    requires n >= Pow128(k)
    ensures |Varint(n)| > k
    decreases k
  {
    if k > 0 {
      assert Pow128(k - 1) >= 1;
      assert n >= 128;
      VarintAtLeast(n / 128, k - 1);
    }
  }

  /** A negative int64 takes ten bytes, the longest varint. */
  lemma NegativeTakesTen(i: i64)
    requires i < 0
    ensures |Varint(Scalar(Int64(i)))| == 10
  {
    hide Varint, Pow128;
    Pow128Values();
    VarintAtLeast(Scalar(Int64(i)), 9);
    VarintLength(Scalar(Int64(i)), 10);
  }

  // ---------------------------------------------------------------- build_batch

  datatype TimeMode = ConcentratorStamped | SyncRelative | BootRelative

  function ModeCode(m: TimeMode): nat {
    match m case ConcentratorStamped => 0 case SyncRelative => 1 case BootRelative => 2
  }

  /** The configuration a leaf keeps; sync is the last clock_sync, if any. */
  datatype Config = Config(
    resource: seq<KV>,
    scopeName: seq<byte>,
    scopeVersion: seq<byte>,
    mode: TimeMode,
    hasClock: bool,
    bootId: u32)

  datatype Sync = Sync(unixNs: u64, leafNs: u64)

  function AsInt64(n: u64): i64 { if n > MAX_INT64 then n - 0x1_0000_0000_0000_0000 else n }

  function Minus64(a: u64, b: u64): u64 { (a - b) % 0x1_0000_0000_0000_0000 }

  function Ascii(s: string): (b: seq<byte>)
    ensures |b| == |s|
  {
    seq(|s|, i requires 0 <= i < |s| => (s[i] as int) % 0x80)
  }

  function ReservedKV(key: string, v: u64): KV { KV(Ascii(key), Int64(AsInt64(v))) }

  function EffectiveMode(c: Config, sync: Option<Sync>): TimeMode {
    if c.mode == SyncRelative && sync.None? then ConcentratorStamped else c.mode
  }

  function Offset(c: Config, sync: Option<Sync>): u64 {
    if EffectiveMode(c, sync) == SyncRelative then Minus64(sync.value.unixNs, sync.value.leafNs) else 0
  }

  /** The reserved attributes that do not report drops. */
  function ReservedTimes(c: Config, sync: Option<Sync>, now: u64): seq<KV> {
    var mode := EffectiveMode(c, sync);
    [ReservedKV("microtel.leaf.proto", 1), ReservedKV("microtel.leaf.time_mode", ModeCode(mode))]
    + (if c.hasClock then [ReservedKV("microtel.leaf.encode_time", Plus64(now, Offset(c, sync)))] else [])
    + (if mode == SyncRelative then [ReservedKV("microtel.leaf.sync_age", Minus64(now, sync.value.leafNs))] else [])
    + (if mode == BootRelative then [ReservedKV("microtel.leaf.boot_id", c.bootId)] else [])
  }

  function ReservedDrops(spans: u32, items: u64): seq<KV> {
    (if spans > 0 then [ReservedKV("microtel.leaf.dropped_spans", spans)] else [])
    + (if items > 0 then [ReservedKV("microtel.leaf.dropped_items", items)] else [])
  }

  /** The reserved Resource attributes, with now the one clock reading of the encode. */
  function Reserved(c: Config, sync: Option<Sync>, now: u64, counters: Counters): seq<KV> {
    ReservedTimes(c, sync, now) + ReservedDrops(counters.spans, counters.attrs + counters.events)
  }

  function BuildBatch(c: Config, sync: Option<Sync>, now: u64, counters: Counters, spans: seq<Span>): Batch {
    Batch(c.resource + Reserved(c, sync, now, counters), c.scopeName, c.scopeVersion, spans, Offset(c, sync))
  }

  predicate HasKey(kvs: seq<KV>, key: seq<byte>) { exists i :: 0 <= i < |kvs| && kvs[i].key == key }

  lemma TimesReportNoDrops(c: Config, sync: Option<Sync>, now: u64)
    ensures !HasKey(ReservedTimes(c, sync, now), Ascii("microtel.leaf.dropped_spans"))
    ensures !HasKey(ReservedTimes(c, sync, now), Ascii("microtel.leaf.dropped_items"))
  {
    hide Ascii, Plus64, Minus64, AsInt64;
    KeysDiffer();
  }

  lemma DropsReport(spans: u32, items: u64)
    ensures var kvs := ReservedDrops(spans, items);
            && (spans > 0 <==> HasKey(kvs, Ascii("microtel.leaf.dropped_spans")))
            && (spans > 0 ==> ReservedKV("microtel.leaf.dropped_spans", spans) in kvs)
            && (items > 0 <==> HasKey(kvs, Ascii("microtel.leaf.dropped_items")))
            && (items > 0 ==> ReservedKV("microtel.leaf.dropped_items", items) in kvs)
  {
    hide Ascii, AsInt64;
    KeysDiffer();
    var kvs := ReservedDrops(spans, items);
    if spans > 0 { assert kvs[0] == ReservedKV("microtel.leaf.dropped_spans", spans); }
    if items > 0 { assert kvs[|kvs| - 1] == ReservedKV("microtel.leaf.dropped_items", items); }
  }

  lemma HasKeySum(a: seq<KV>, b: seq<KV>, key: seq<byte>)
    ensures HasKey(a + b, key) <==> HasKey(a, key) || HasKey(b, key)
  {
    if HasKey(a, key) {
      var i :| 0 <= i < |a| && a[i].key == key;
      assert (a + b)[i].key == key;
    }
    if HasKey(b, key) {
      var i :| 0 <= i < |b| && b[i].key == key;
      assert (a + b)[|a| + i].key == key;
    }
  }

  /** Pending drops are reported in the payload with their counts, and only when there are any. */
  lemma ReservedReports(c: Config, sync: Option<Sync>, now: u64, counters: Counters)
    ensures var kvs, items := Reserved(c, sync, now, counters), counters.attrs + counters.events;
            && (counters.spans > 0 <==> HasKey(kvs, Ascii("microtel.leaf.dropped_spans")))
            && (counters.spans > 0 ==> ReservedKV("microtel.leaf.dropped_spans", counters.spans) in kvs)
            && (items > 0 <==> HasKey(kvs, Ascii("microtel.leaf.dropped_items")))
            && (items > 0 ==> ReservedKV("microtel.leaf.dropped_items", items) in kvs)
  {
    hide ReservedTimes, ReservedDrops, HasKey, Ascii, ReservedKV;
    var items := counters.attrs + counters.events;
    var times, drops := ReservedTimes(c, sync, now), ReservedDrops(counters.spans, items);
    TimesReportNoDrops(c, sync, now);
    DropsReport(counters.spans, items);
    HasKeySum(times, drops, Ascii("microtel.leaf.dropped_spans"));
    HasKeySum(times, drops, Ascii("microtel.leaf.dropped_items"));
  }

  lemma KeysDiffer()
    ensures var k, m := Ascii("microtel.leaf.dropped_spans"), Ascii("microtel.leaf.dropped_items");
            && k != m
            && Ascii("microtel.leaf.proto") !in {k, m} && Ascii("microtel.leaf.time_mode") !in {k, m}
            && Ascii("microtel.leaf.encode_time") !in {k, m} && Ascii("microtel.leaf.sync_age") !in {k, m}
            && Ascii("microtel.leaf.boot_id") !in {k, m}
  {
    assert Ascii("microtel.leaf.dropped_spans")[22] == 's' as int % 0x80;
    assert Ascii("microtel.leaf.dropped_items")[22] == 'i' as int % 0x80;
  }

  // ---------------------------------------------------------------- The bound

  const BOUND_TAG := 2
  const BOUND_LEN := 5
  const BOUND_VARINT := 10
  const BOUND_FIXED64 := 8
  const MAX_RESERVED := 7
  const LONGEST_RESERVED_KEY := 27

  function BoundField(len: nat): nat { BOUND_TAG + BOUND_LEN + len }

  function BoundValue(v: Value): nat { if v.Str? then BoundField(|v.s|) else BOUND_TAG + BOUND_VARINT }

  function BoundPair(keyLen: nat, value: nat): nat { BoundField(BoundField(keyLen) + BoundField(value)) }

  function BoundKV(kv: KV): nat { BoundPair(|kv.key|, BoundValue(kv.value)) }

  function BoundKVs(kvs: seq<KV>): nat {
    if kvs == [] then 0 else BoundKVs(kvs[..|kvs| - 1]) + BoundKV(kvs[|kvs| - 1])
  }

  function BoundEvent(e: Event): nat {
    BoundField(BOUND_TAG + BOUND_FIXED64 + BoundField(|e.name|) + BoundKVs(e.attrs))
  }

  function BoundEvents(es: seq<Event>): nat {
    if es == [] then 0 else BoundEvents(es[..|es| - 1]) + BoundEvent(es[|es| - 1])
  }

  function BoundSpanHead(s: Span): nat {
    BoundField(16) + 2 * BoundField(8) + BoundField(|s.name|) + 3 * (BOUND_TAG + BOUND_VARINT) +
    BoundField(BoundField(|s.message|) + BOUND_TAG + BOUND_VARINT)
  }

  function BoundSpan(s: Span): nat { BoundField(BoundSpanHead(s) + BoundKVs(s.attrs) + BoundEvents(s.events)) }

  function BoundSpans(spans: seq<Span>): nat {
    if spans == [] then 0 else BoundSpans(spans[..|spans| - 1]) + BoundSpan(spans[|spans| - 1])
  }

  function BoundReserved(): nat { MAX_RESERVED * BoundPair(LONGEST_RESERVED_KEY, BOUND_TAG + BOUND_VARINT) }

  function BoundScope(c: Config): nat { BoundField(BoundField(|c.scopeName|) + BoundField(|c.scopeVersion|)) }

  function Bound(c: Config, spans: seq<Span>): nat {
    BoundField(BoundField(BoundKVs(c.resource) + BoundReserved()) + BoundField(BoundScope(c) + BoundSpans(spans)))
  }

  // ---------------------------------------------------------------- The bound is one

  /** Five varint bytes hold any length below this. */
  const LENGTH_LIMIT := 0x8_0000_0000

  function Pow128(k: nat): (p: nat)
    ensures p > 0
  {
    if k == 0 then 1 else 128 * Pow128(k - 1)
  }

  lemma {:induction false} VarintLength(n: nat, k: nat)
    requires k > 0 && n < Pow128(k)
    ensures |Varint(n)| <= k
  {
    if n >= 128 {
      assert k > 1;
      assert n / 128 < Pow128(k - 1);
      VarintLength(n / 128, k - 1);
    }
  }

  lemma Pow128Values()
    ensures Pow128(2) == 0x4000 && Pow128(5) == LENGTH_LIMIT
    ensures Pow128(9) == 0x8000_0000_0000_0000 && Pow128(10) == 0x40_0000_0000_0000_0000
  {
    assert Pow128(1) == 128;
    assert Pow128(3) == 0x20_0000;
    assert Pow128(4) == 0x1000_0000;
    assert Pow128(6) == 0x400_0000_0000;
    assert Pow128(7) == 0x2_0000_0000_0000;
    assert Pow128(8) == 0x100_0000_0000_0000;
    assert Pow128(9) == 0x8000_0000_0000_0000;
  }

  /** What a field costs at most. */
  function Cost(x: Field): nat {
    match x
    case Num(_, _) => BOUND_TAG + BOUND_VARINT
    case Fix(_, _) => BOUND_TAG + BOUND_FIXED64
    case Len(_, content) => BoundField(|content|)
  }

  predicate Small(x: Field) {
    x.f < 2048 && (x.Num? ==> x.n < 0x1_0000_0000_0000_0000) && (x.Len? ==> |x.content| < LENGTH_LIMIT)
  }

  lemma FieldCost(x: Field)
    requires Small(x)
    ensures |Message([x])| == |Tag(x)| + |Body(x)| <= Cost(x)
  {
    hide Varint, Pow128, LE;
    Pow128Values();
    VarintLength(8 * x.f + Wire(x), 2);
    match x {
      case Num(f, n) => VarintLength(n, 10);
      case Fix(f, v) =>
      case Len(f, content) => VarintLength(|content|, 5);
    }
    assert Message([x]) == Tag(x) + Body(x) + Message([]);
  }

  /** A length-delimited field of a content within n. */
  lemma LenCost(f: nat, content: seq<byte>, n: nat)
    requires f < 2048 && |content| <= n < LENGTH_LIMIT
    ensures |Message([Len(f, content)])| <= BoundField(n) && |Message(Opt(f, content))| <= BoundField(n)
  {
    hide Message;
    FieldCost(Len(f, content));
    NoFields();
  }

  lemma NumCost(f: nat, n: nat)
    requires f < 2048 && n < 0x1_0000_0000_0000_0000
    ensures |Message([Num(f, n)])| <= BOUND_TAG + BOUND_VARINT && |Message(OptNum(f, n))| <= BOUND_TAG + BOUND_VARINT
  {
    hide Message;
    FieldCost(Num(f, n));
    NoFields();
  }

  lemma FixCost(f: nat, v: u64)
    requires f < 2048
    ensures |Message([Fix(f, v)])| <= BOUND_TAG + BOUND_FIXED64 && |Message(OptFix(f, v))| <= BOUND_TAG + BOUND_FIXED64
  {
    hide Message;
    FieldCost(Fix(f, v));
    NoFields();
  }

  lemma NoFields()
    ensures Message([]) == []
  {}

  lemma ValueCost(v: Value)
    requires BoundValue(v) < LENGTH_LIMIT
    ensures |Message([AnyValue(v)])| <= BoundValue(v)
  {
    hide Message;
    match v
    case Str(s) => LenCost(1, s, |s|);
    case Bool(b) => NumCost(2, Scalar(v));
    case Int64(i) => NumCost(3, Scalar(v));
    case Double(bits) => FixCost(4, bits);
  }

  /** An attribute within a key length and a value bound. */
  lemma PairCost(f: nat, kv: KV, keyLen: nat, value: nat)
    requires f < 2048 && |kv.key| <= keyLen && BoundValue(kv.value) <= value && BoundPair(keyLen, value) < LENGTH_LIMIT
    ensures |Message([Len(f, Message(KeyValue(kv)))])| <= BoundPair(keyLen, value)
  {
    hide Message, BoundValue, AnyValue;
    ValueCost(kv.value);
    LenCost(1, kv.key, keyLen);
    LenCost(2, Message([AnyValue(kv.value)]), value);
    MessageSum(Opt(1, kv.key), [Len(2, Message([AnyValue(kv.value)]))]);
    LenCost(f, Message(KeyValue(kv)), BoundField(keyLen) + BoundField(value));
  }

  lemma {:induction false} KVsCost(f: nat, kvs: seq<KV>)
    requires f < 2048 && BoundKVs(kvs) < LENGTH_LIMIT
    ensures |Message(KeyValues(f, kvs))| <= BoundKVs(kvs)
  {
    hide Message, KeyValue, BoundPair, BoundValue;
    if kvs == [] {
      NoFields();
    } else {
      var init, last := kvs[..|kvs| - 1], kvs[|kvs| - 1];
      KVsCost(f, init);
      PairCost(f, last, |last.key|, BoundValue(last.value));
      MessageSum(KeyValues(f, init), [Len(f, Message(KeyValue(last)))]);
    }
  }

  lemma EventCost(e: Event, offset: u64)
    requires BoundEvent(e) < LENGTH_LIMIT
    ensures |Message([Len(11, Message(EventMessage(e, offset)))])| <= BoundEvent(e)
  {
    hide Message, KeyValues, BoundKVs, Opt, OptFix, Plus64;
    var time, name, attrs := OptFix(1, Plus64(e.time, offset)), Opt(2, e.name), KeyValues(3, e.attrs);
    FixCost(1, Plus64(e.time, offset));
    LenCost(2, e.name, |e.name|);
    KVsCost(3, e.attrs);
    MessageSum(time, name);
    MessageSum(time + name, attrs);
    LenCost(11, Message(EventMessage(e, offset)), BOUND_TAG + BOUND_FIXED64 + BoundField(|e.name|) + BoundKVs(e.attrs));
  }

  lemma {:induction false} EventsCost(es: seq<Event>, offset: u64)
    requires BoundEvents(es) < LENGTH_LIMIT
    ensures |Message(EventMessages(es, offset))| <= BoundEvents(es)
  {
    hide Message, EventMessage, BoundEvent;
    if es == [] {
      NoFields();
    } else {
      var init, last := es[..|es| - 1], es[|es| - 1];
      EventsCost(init, offset);
      EventCost(last, offset);
      MessageSum(EventMessages(init, offset), [Len(11, Message(EventMessage(last, offset)))]);
    }
  }

  lemma StatusCost(s: Span)
    requires BoundField(|s.message|) + BOUND_TAG + BOUND_VARINT < LENGTH_LIMIT
    ensures |Message(SpanStatus(s))| <= BoundField(BoundField(|s.message|) + BOUND_TAG + BOUND_VARINT)
  {
    hide Message, Opt, OptNum;
    NoFields();
    LenCost(2, s.message, |s.message|);
    NumCost(3, s.statusCode);
    MessageSum(Opt(2, s.message), OptNum(3, s.statusCode));
    LenCost(15, Message(StatusMessage(s)), BoundField(|s.message|) + BOUND_TAG + BOUND_VARINT);
  }

  /** The ids, name, kind and times of a span. */
  lemma HeadCost(s: Span, offset: u64)
    requires BoundSpanHead(s) < LENGTH_LIMIT
    ensures |Message(SpanHead(s, offset))| + BoundField(BoundField(|s.message|) + BOUND_TAG + BOUND_VARINT)
            <= BoundSpanHead(s)
  {
    hide Message, Opt, OptNum, OptFix, Plus64;
    NoFields();
    var trace, id := [Len(1, s.traceId)], [Len(2, s.spanId)];
    var parent := if s.parentId.Some? then [Len(4, s.parentId.value)] else [];
    var name, kind := Opt(5, s.name), OptNum(6, s.kind);
    var start, end := OptFix(7, Plus64(s.start, offset)), OptFix(8, Plus64(s.end, offset));
    LenCost(1, s.traceId, 16);
    LenCost(2, s.spanId, 8);
    if s.parentId.Some? { LenCost(4, s.parentId.value, 8); }
    LenCost(5, s.name, |s.name|);
    NumCost(6, s.kind);
    FixCost(7, Plus64(s.start, offset));
    FixCost(8, Plus64(s.end, offset));
    MessageSum(trace, id);
    MessageSum(trace + id, parent);
    MessageSum(trace + id + parent, name);
    MessageSum(trace + id + parent + name, kind);
    MessageSum(trace + id + parent + name + kind, start);
    MessageSum(trace + id + parent + name + kind + start, end);
  }

  lemma SpanCost(s: Span, offset: u64)
    requires BoundSpan(s) < LENGTH_LIMIT
    ensures |Message([Len(2, Message(SpanMessage(s, offset)))])| <= BoundSpan(s)
  {
    hide Message, SpanHead, KeyValues, EventMessages, SpanStatus, BoundKVs, BoundEvents;
    var head, attrs, events, status :=
      SpanHead(s, offset), KeyValues(9, s.attrs), EventMessages(s.events, offset), SpanStatus(s);
    HeadCost(s, offset);
    StatusCost(s);
    KVsCost(9, s.attrs);
    EventsCost(s.events, offset);
    MessageSum(head, attrs);
    MessageSum(head + attrs, events);
    MessageSum(head + attrs + events, status);
    LenCost(2, Message(SpanMessage(s, offset)), BoundSpanHead(s) + BoundKVs(s.attrs) + BoundEvents(s.events));
  }

  lemma {:induction false} SpansCost(spans: seq<Span>, offset: u64)
    requires BoundSpans(spans) < LENGTH_LIMIT
    ensures |Message(SpanMessages(spans, offset))| <= BoundSpans(spans)
  {
    hide Message, SpanMessage, BoundSpan;
    if spans == [] {
      NoFields();
    } else {
      var init, last := spans[..|spans| - 1], spans[|spans| - 1];
      SpansCost(init, offset);
      SpanCost(last, offset);
      MessageSum(SpanMessages(init, offset), [Len(2, Message(SpanMessage(last, offset)))]);
    }
  }

  predicate IsReserved(kv: KV) { |kv.key| <= LONGEST_RESERVED_KEY && kv.value.Int64? }

  /** At most seven reserved attributes, none with a longer key than the bound allows for. */
  lemma ReservedAtMost(c: Config, sync: Option<Sync>, now: u64, counters: Counters)
    ensures |Reserved(c, sync, now, counters)| <= MAX_RESERVED
    ensures forall i :: 0 <= i < |Reserved(c, sync, now, counters)| ==> IsReserved(Reserved(c, sync, now, counters)[i])
  {
    hide Ascii, Plus64, Minus64, AsInt64;
  }

  function Times(n: nat, k: nat): nat { if n == 0 then 0 else Times(n - 1, k) + k }

  lemma {:induction false} ReservedCost(kvs: seq<KV>)
    requires forall i :: 0 <= i < |kvs| ==> IsReserved(kvs[i])
    ensures |Message(KeyValues(1, kvs))| <= Times(|kvs|, 60)
  {
    hide Message, KeyValue;
    if kvs == [] {
      NoFields();
    } else {
      var init, last := kvs[..|kvs| - 1], kvs[|kvs| - 1];
      ReservedCost(init);
      PairCost(1, last, LONGEST_RESERVED_KEY, BOUND_TAG + BOUND_VARINT);
      MessageSum(KeyValues(1, init), [Len(1, Message(KeyValue(last)))]);
    }
  }

  lemma {:induction false} TimesGrows(n: nat, m: nat, k: nat)
    requires n <= m
    ensures Times(n, k) <= Times(m, k)
  {
    if n < m { TimesGrows(n, m - 1, k); }
  }

  lemma {:induction false} KeyValuesSum(f: nat, a: seq<KV>, b: seq<KV>)
    ensures KeyValues(f, a + b) == KeyValues(f, a) + KeyValues(f, b)
    decreases b
  {
    hide KeyValue, Message;
    if b == [] {
      assert a + b == a;
    } else {
      var init := b[..|b| - 1];
      assert (a + b)[..|a + b| - 1] == a + init;
      KeyValuesSum(f, a, init);
    }
  }

  lemma ResourceCost(c: Config, sync: Option<Sync>, now: u64, counters: Counters)
    requires BoundKVs(c.resource) + BoundReserved() < LENGTH_LIMIT
    ensures |Message(KeyValues(1, c.resource + Reserved(c, sync, now, counters)))|
            <= BoundKVs(c.resource) + BoundReserved()
  {
    hide Message, KeyValues, Reserved, BoundKVs;
    var reserved := Reserved(c, sync, now, counters);
    ReservedAtMost(c, sync, now, counters);
    KVsCost(1, c.resource);
    ReservedCost(reserved);
    TimesGrows(|reserved|, MAX_RESERVED, 60);
    assert Times(MAX_RESERVED, 60) == 420;
    KeyValuesSum(1, c.resource, reserved);
    MessageSum(KeyValues(1, c.resource), KeyValues(1, reserved));
  }

  lemma ScopeSpansCost(b: Batch, scope: nat, spans: nat)
    requires |Message(Scope(b))| <= scope && |Message(SpanMessages(b.spans, b.offset))| <= spans
    requires BoundField(scope) + spans < LENGTH_LIMIT
    ensures |Message([Len(2, Message(ScopeSpans(b)))])| <= BoundField(BoundField(scope) + spans)
  {
    hide Message, Scope, SpanMessages;
    LenCost(1, Message(Scope(b)), scope);
    MessageSum([Len(1, Message(Scope(b)))], SpanMessages(b.spans, b.offset));
    LenCost(2, Message(ScopeSpans(b)), BoundField(scope) + spans);
  }

  lemma ScopeCost(b: Batch)
    requires BoundField(|b.scopeName|) + BoundField(|b.scopeVersion|) < LENGTH_LIMIT
    ensures |Message(Scope(b))| <= BoundField(|b.scopeName|) + BoundField(|b.scopeVersion|)
  {
    hide Message, Opt;
    LenCost(1, b.scopeName, |b.scopeName|);
    LenCost(2, b.scopeVersion, |b.scopeVersion|);
    MessageSum(Opt(1, b.scopeName), Opt(2, b.scopeVersion));
  }

  /**
   The size bound: in every time mode, at every clock value and counter value, the payload is no
   longer than the bound, as long as the bound itself is a length that five varint bytes can hold.
   */
  lemma PayloadWithinBound(c: Config, sync: Option<Sync>, now: u64, counters: Counters, spans: seq<Span>)
    requires Bound(c, spans) < LENGTH_LIMIT
    ensures |Request(BuildBatch(c, sync, now, counters, spans))| <= Bound(c, spans)
  {
    hide Message, KeyValues, SpanMessages, Scope, ScopeSpans, Reserved, BoundKVs, BoundSpans;
    var b := BuildBatch(c, sync, now, counters, spans);
    var resource := BoundKVs(c.resource) + BoundReserved();
    ResourceCost(c, sync, now, counters);
    LenCost(1, Message(KeyValues(1, b.resource)), resource);
    SpansCost(spans, b.offset);
    ScopeCost(b);
    ScopeSpansCost(b, BoundField(|b.scopeName|) + BoundField(|b.scopeVersion|), BoundSpans(spans));
    MessageSum([Len(1, Message(KeyValues(1, b.resource)))], [Len(2, Message(ScopeSpans(b)))]);
    LenCost(1, Message(ResourceSpans(b)), BoundField(resource) + BoundField(BoundScope(c) + BoundSpans(spans)));
  }
}
