/**
 A receiver's side of the payload: the nested messages of a request read back into attributes,
 events and spans. Reading undoes writing, so what a run of the leaf emits is in the bytes.
 */
module ProtobufReader {
  import opened Basics
  import opened RecordFormat
  import opened LeafSpec
  import opened Protobuf

  // ---------------------------------------------------------------- Fields by number

  /** The last field with this number: of a field that is not repeated, the last one counts. */
  function Last(fs: seq<Field>, f: nat): Option<Field> {
    if fs == [] then None
    else if fs[|fs| - 1].f == f then Some(fs[|fs| - 1])
    else Last(fs[..|fs| - 1], f)
  }

  /** The contents of a repeated field, in order. */
  function All(fs: seq<Field>, f: nat): seq<seq<byte>> {
    if fs == [] then [] else
    All(fs[..|fs| - 1], f) + if fs[|fs| - 1].Len? && fs[|fs| - 1].f == f then [fs[|fs| - 1].content] else []
  }

  // An absent field has its default.

  function BytesAt(fs: seq<Field>, f: nat): seq<byte> {
    match Last(fs, f) case Some(Len(_, content)) => content case _ => []
  }

  function NumAt(fs: seq<Field>, f: nat): nat { match Last(fs, f) case Some(Num(_, n)) => n case _ => 0 }

  function FixAt(fs: seq<Field>, f: nat): u64 { match Last(fs, f) case Some(Fix(_, v)) => v case _ => 0 }

  lemma {:induction false} LastSum(a: seq<Field>, b: seq<Field>, f: nat)
    ensures Last(a + b, f) == if Last(b, f).Some? then Last(b, f) else Last(a, f)
    decreases b
  {
    if b == [] {
      assert a + b == a;
    } else {
      assert (a + b)[..|a + b| - 1] == a + b[..|b| - 1];
      LastSum(a, b[..|b| - 1], f);
    }
  }

  lemma {:induction false} AllSum(a: seq<Field>, b: seq<Field>, f: nat)
    ensures All(a + b, f) == All(a, f) + All(b, f)
    decreases b
  {
    if b == [] {
      assert a + b == a;
    } else {
      var init := b[..|b| - 1];
      assert (a + b)[..|a + b| - 1] == a + init;
      AllSum(a, init, f);
    }
  }

  lemma LastOne(x: Field, f: nat)
    ensures Last([x], f) == if x.f == f then Some(x) else None
    ensures All([x], f) == if x.Len? && x.f == f then [x.content] else []
  {
    assert [x][..0] == [];
  }

  /** Fields of other numbers do not matter. */
  lemma {:induction false} NotThere(fs: seq<Field>, lo: nat, hi: nat, f: nat)
    requires Within(fs, lo, hi) && (f < lo || hi < f)
    ensures Last(fs, f) == None && All(fs, f) == []
  {
    if fs != [] {
      var init := fs[..|fs| - 1];
      assert Within(init, lo, hi);
      NotThere(init, lo, hi, f);
    }
  }

  /** Appending fields of other numbers, or putting them in front, changes nothing. */
  lemma Skip(a: seq<Field>, b: seq<Field>, lo: nat, hi: nat, f: nat)
    requires Within(b, lo, hi) && (f < lo || hi < f)
    ensures Last(a + b, f) == Last(a, f) == Last(b + a, f)
    ensures All(a + b, f) == All(a, f) == All(b + a, f)
  {
    hide Last, All, Within;
    LastSum(a, b, f);
    LastSum(b, a, f);
    AllSum(a, b, f);
    AllSum(b, a, f);
    NotThere(b, lo, hi, f);
  }

  lemma OptFields(f: nat, content: seq<byte>, n: nat, v: u64)
    ensures BytesAt(Opt(f, content), f) == content && NumAt(OptNum(f, n), f) == n && FixAt(OptFix(f, v), f) == v
    ensures Within(Opt(f, content), f, f) && Within(OptNum(f, n), f, f) && Within(OptFix(f, v), f, f)
  {
    hide Last, Within;
    AtMostOne(Opt(f, content), f);
    AtMostOne(OptNum(f, n), f);
    AtMostOne(OptFix(f, v), f);
    LastOne(Len(f, content), f);
    LastOne(Num(f, n), f);
    LastOne(Fix(f, v), f);
    NoFieldAt(f);
  }

  lemma NoFieldAt(f: nat)
    ensures Last([], f) == None && All([], f) == []
  {}

  // ---------------------------------------------------------------- Attributes

  function ReadValue(x: Field): Option<Value> {
    match x
    case Len(1, s) => Some(Str(s))
    case Num(2, n) => Some(Bool(n != 0))
    case Num(3, n) => if n < 0x1_0000_0000_0000_0000 then Some(Int64(AsInt64(n))) else None
    case Fix(4, bits) => Some(Double(bits))
    case _ => None
  }

  function ReadKV(b: seq<byte>): Option<KV> {
    match ReadMessage(b)
    case None => None
    case Some(fs) =>
      match ReadMessage(BytesAt(fs, 2))
      case None => None
      case Some(vs) =>
        if vs == [] then None else
        match ReadValue(vs[|vs| - 1]) case None => None case Some(v) => Some(KV(BytesAt(fs, 1), v))
  }

  function ReadKVs(bs: seq<seq<byte>>): Option<seq<KV>> {
    if bs == [] then Some([]) else
    match ReadKVs(bs[..|bs| - 1])
    case None => None
    case Some(kvs) => match ReadKV(bs[|bs| - 1]) case None => None case Some(kv) => Some(kvs + [kv])
  }

  lemma ValueRoundTrip(v: Value)
    ensures ReadValue(AnyValue(v)) == Some(v)
  {}

  lemma KVRoundTrip(kv: KV)
    ensures ReadKV(Message(KeyValue(kv))) == Some(kv)
  {
    hide Message, ReadMessage, Last, AnyValue, ReadValue, Within;
    var key, value := Opt(1, kv.key), [Len(2, Message([AnyValue(kv.value)]))];
    MessageRoundTrip(KeyValue(kv));
    MessageRoundTrip([AnyValue(kv.value)]);
    ValueRoundTrip(kv.value);
    OptFields(1, kv.key, 0, 0);
    AtMostOne(value, 2);
    Skip(key, value, 2, 2, 1);
    Skip(value, key, 1, 1, 2);
    LastOne(value[0], 2);
  }

  /** A repeated field of attributes is read back as the attributes it was written from. */
  lemma {:induction false} KVsRoundTrip(f: nat, kvs: seq<KV>)
    ensures ReadKVs(All(KeyValues(f, kvs), f)) == Some(kvs)
  {
    hide Message, KeyValue, ReadKV, ReadKVs, All;
    if kvs == [] {
      NoKVs();
      NoFieldAt(f);
    } else {
      var init, last := kvs[..|kvs| - 1], kvs[|kvs| - 1];
      var x := Len(f, Message(KeyValue(last)));
      KVsRoundTrip(f, init);
      KVRoundTrip(last);
      AllSum(KeyValues(f, init), [x], f);
      LastOne(x, f);
      OneMoreKV(All(KeyValues(f, init), f), x.content, init, last);
      assert kvs == init + [last];
    }
  }

  lemma NoKVs()
    ensures ReadKVs([]) == Some([])
  {}

  lemma OneMoreKV(bs: seq<seq<byte>>, b: seq<byte>, kvs: seq<KV>, kv: KV)
    requires ReadKVs(bs) == Some(kvs) && ReadKV(b) == Some(kv)
    ensures ReadKVs(bs + [b]) == Some(kvs + [kv])
  {
    hide ReadKV;
    assert (bs + [b])[..|bs|] == bs;
  }

  // ---------------------------------------------------------------- Events

  function ReadEvent(b: seq<byte>): Option<Event> {
    match ReadMessage(b)
    case None => None
    case Some(fs) =>
      match ReadKVs(All(fs, 3)) case None => None case Some(kvs) => Some(Event(FixAt(fs, 1), BytesAt(fs, 2), kvs))
  }

  function ReadEvents(bs: seq<seq<byte>>): Option<seq<Event>> {
    if bs == [] then Some([]) else
    match ReadEvents(bs[..|bs| - 1])
    case None => None
    case Some(es) => match ReadEvent(bs[|bs| - 1]) case None => None case Some(e) => Some(es + [e])
  }

  function EventOnWire(e: Event, offset: u64): Event { e.(time := Plus64(e.time, offset)) }

  function EventsOnWire(es: seq<Event>, offset: u64): (r: seq<Event>)
    ensures |r| == |es|
  {
    seq(|es|, i requires 0 <= i < |es| => EventOnWire(es[i], offset))
  }

  lemma EventOfMessage(e: Event, offset: u64)
    ensures ReadEvent(Message(EventMessage(e, offset))) == Some(EventOnWire(e, offset))
  {
    hide Message, ReadMessage, Last, All, Within, KeyValues, ReadKVs, Plus64, Opt, OptFix;
    var time := Plus64(e.time, offset);
    var a, b, c := OptFix(1, time), Opt(2, e.name), KeyValues(3, e.attrs);
    MessageRoundTrip(EventMessage(e, offset));
    OptFields(1, [], 0, time);
    OptFields(2, e.name, 0, 0);
    KeyValuesField(3, e.attrs);
    KVsRoundTrip(3, e.attrs);
    Skip(a, b, 2, 2, 1);
    Skip(a + b, c, 3, 3, 1);
    Skip(b, a, 1, 1, 2);
    Skip(a + b, c, 3, 3, 2);
    Joined(a, b, 1, 1, 2, 2);
    Skip(c, a + b, 1, 2, 3);
  }

  lemma {:induction false} EventsRoundTrip(es: seq<Event>, offset: u64)
    ensures ReadEvents(All(EventMessages(es, offset), 11)) == Some(EventsOnWire(es, offset))
  {
    hide Message, EventMessage, ReadEvent, ReadEvents, All, EventOnWire, EventsOnWire;
    if es == [] {
      NoFieldAt(11);
      NoEvents(offset);
    } else {
      var init, last := es[..|es| - 1], es[|es| - 1];
      var x := Len(11, Message(EventMessage(last, offset)));
      EventsRoundTrip(init, offset);
      EventOfMessage(last, offset);
      AllSum(EventMessages(init, offset), [x], 11);
      LastOne(x, 11);
      OneMoreEvent(All(EventMessages(init, offset), 11), x.content, init, last, offset);
      assert es == init + [last];
    }
  }

  lemma NoEvents(offset: u64)
    ensures ReadEvents([]) == Some([]) && EventsOnWire([], offset) == []
  {}

  lemma OneMoreEvent(bs: seq<seq<byte>>, b: seq<byte>, es: seq<Event>, e: Event, offset: u64)
    requires ReadEvents(bs) == Some(EventsOnWire(es, offset)) && ReadEvent(b) == Some(EventOnWire(e, offset))
    ensures ReadEvents(bs + [b]) == Some(EventsOnWire(es + [e], offset))
  {
    hide ReadEvent, EventOnWire;
    assert (bs + [b])[..|bs|] == bs;
    assert EventsOnWire(es + [e], offset) == EventsOnWire(es, offset) + [EventOnWire(e, offset)];
  }

  // ---------------------------------------------------------------- Spans

  /** A span as a receiver sees it. */
  datatype WireSpan = WireSpan(
    traceId: seq<byte>,
    spanId: seq<byte>,
    parentId: Option<seq<byte>>,
    name: seq<byte>,
    kind: nat,
    start: u64,
    end: u64,
    attrs: seq<KV>,
    events: seq<Event>,
    statusCode: nat,
    message: seq<byte>)

  /** What of a span is sent, its times moved to wall time. */
  function OnWire(s: Span, offset: u64): WireSpan {
    WireSpan(s.traceId, s.spanId, if s.parentId.Some? then Some(s.parentId.value) else None, s.name, s.kind,
             Plus64(s.start, offset), Plus64(s.end, offset), s.attrs, EventsOnWire(s.events, offset),
             s.statusCode, s.message)
  }

  function ParentAt(fs: seq<Field>): Option<seq<byte>> {
    match Last(fs, 4) case Some(Len(_, content)) => Some(content) case _ => None
  }

  function ReadSpan(b: seq<byte>): Option<WireSpan> {
    match ReadMessage(b)
    case None => None
    case Some(fs) =>
      match ReadKVs(All(fs, 9))
      case None => None
      case Some(attrs) =>
        match ReadEvents(All(fs, 11))
        case None => None
        case Some(events) =>
          match ReadMessage(BytesAt(fs, 15))
          case None => None
          case Some(status) =>
            Some(WireSpan(BytesAt(fs, 1), BytesAt(fs, 2), ParentAt(fs), BytesAt(fs, 5), NumAt(fs, 6), FixAt(fs, 7),
                          FixAt(fs, 8), attrs, events, NumAt(status, 3), BytesAt(status, 2)))
  }

  function ReadSpans(bs: seq<seq<byte>>): Option<seq<WireSpan>> {
    if bs == [] then Some([]) else
    match ReadSpans(bs[..|bs| - 1])
    case None => None
    case Some(ss) => match ReadSpan(bs[|bs| - 1]) case None => None case Some(s) => Some(ss + [s])
  }

  function SpansOnWire(spans: seq<Span>, offset: u64): (r: seq<WireSpan>)
    ensures |r| == |spans|
  {
    seq(|spans|, i requires 0 <= i < |spans| => OnWire(spans[i], offset))
  }

  lemma StatusRoundTrip(s: Span)
    ensures var status := ReadMessage(BytesAt(SpanStatus(s), 15));
            status.Some? && NumAt(status.value, 3) == s.statusCode && BytesAt(status.value, 2) == s.message
  {
    hide Message, ReadMessage, Last, Within, Opt, OptNum;
    var a, b := Opt(2, s.message), OptNum(3, s.statusCode);
    MessageRoundTrip([]);
    NoFields();
    NoFieldAt(15);
    NoFieldAt(2);
    NoFieldAt(3);
    MessageRoundTrip(StatusMessage(s));
    LastOne(Len(15, Message(StatusMessage(s))), 15);
    OptFields(2, s.message, 0, 0);
    OptFields(3, [], s.statusCode, 0);
    Skip(a, b, 3, 3, 2);
    Skip(b, a, 2, 2, 3);
  }

  /** The fields of the head, each found under its number. */
  lemma HeadFields(s: Span, offset: u64)
    ensures var fs := SpanHead(s, offset);
            && BytesAt(fs, 1) == s.traceId && BytesAt(fs, 2) == s.spanId
            && ParentAt(fs) == (if s.parentId.Some? then Some(s.parentId.value) else None)
            && BytesAt(fs, 5) == s.name && NumAt(fs, 6) == s.kind
            && FixAt(fs, 7) == Plus64(s.start, offset) && FixAt(fs, 8) == Plus64(s.end, offset)
  {
    hide Last, Within, Plus64, Opt, OptNum, OptFix;
    var t0, t1 := Plus64(s.start, offset), Plus64(s.end, offset);
    var trace, id := [Len(1, s.traceId)], [Len(2, s.spanId)];
    var parent := if s.parentId.Some? then [Len(4, s.parentId.value)] else [];
    var name, kind, start, end := Opt(5, s.name), OptNum(6, s.kind), OptFix(7, t0), OptFix(8, t1);
    AtMostOne(trace, 1);
    AtMostOne(id, 2);
    AtMostOne(parent, 4);
    OptFields(5, s.name, 0, 0);
    OptFields(6, [], s.kind, 0);
    OptFields(7, [], 0, t0);
    OptFields(8, [], 0, t1);
    LastOne(trace[0], 1);
    LastOne(id[0], 2);
    NoFieldAt(4);
    if s.parentId.Some? { LastOne(parent[0], 4); }
    SevenFields(trace, id, parent, name, kind, start, end);
  }

  /** Seven runs of fields, one after the other: each number is found in its own run. */
  lemma SevenFields(a: seq<Field>, b: seq<Field>, c: seq<Field>, d: seq<Field>, e: seq<Field>, f: seq<Field>,
                    g: seq<Field>)
    requires Within(a, 1, 1) && Within(b, 2, 2) && Within(c, 4, 4) && Within(d, 5, 5)
    requires Within(e, 6, 6) && Within(f, 7, 7) && Within(g, 8, 8)
    ensures var all := a + b + c + d + e + f + g;
            && Last(all, 1) == Last(a, 1) && Last(all, 2) == Last(b, 2) && Last(all, 4) == Last(c, 4)
            && Last(all, 5) == Last(d, 5) && Last(all, 6) == Last(e, 6) && Last(all, 7) == Last(f, 7)
            && Last(all, 8) == Last(g, 8)
  {
    hide Last, Within, All;
    var ab := a + b;
    Joined(a, b, 1, 1, 2, 2);
    Skip(a, b, 2, 2, 1);
    Skip(b, a, 1, 1, 2);
    var abc := ab + c;
    Joined(ab, c, 1, 2, 4, 4);
    Skip(ab, c, 4, 4, 1); Skip(ab, c, 4, 4, 2); Skip(c, ab, 1, 2, 4);
    var abcd := abc + d;
    Joined(abc, d, 1, 4, 5, 5);
    Skip(abc, d, 5, 5, 1); Skip(abc, d, 5, 5, 2); Skip(abc, d, 5, 5, 4); Skip(d, abc, 1, 4, 5);
    FourMore(abcd, e, f, g);
  }

  lemma FourMore(a: seq<Field>, e: seq<Field>, f: seq<Field>, g: seq<Field>)
    requires Within(a, 1, 5) && Within(e, 6, 6) && Within(f, 7, 7) && Within(g, 8, 8)
    ensures var all := a + e + f + g;
            && (forall n :: 1 <= n <= 5 ==> Last(all, n) == Last(a, n))
            && Last(all, 6) == Last(e, 6) && Last(all, 7) == Last(f, 7) && Last(all, 8) == Last(g, 8)
  {
    hide Last, Within, All;
    Joined(a, e, 1, 5, 6, 6);
    Joined(a + e, f, 1, 6, 7, 7);
    Skip(e, a, 1, 5, 6); Skip(a + e, f, 7, 7, 6); Skip(a + e + f, g, 8, 8, 6);
    Skip(f, a + e, 1, 6, 7); Skip(a + e + f, g, 8, 8, 7);
    Skip(g, a + e + f, 1, 7, 8);
    forall n | 1 <= n <= 5
      ensures Last(a + e + f + g, n) == Last(a, n)
    {
      Skip(a, e, 6, 6, n);
      Skip(a + e, f, 7, 7, n);
      Skip(a + e + f, g, 8, 8, n);
    }
  }

  /** Every field of a span's message is found in the part that wrote it. */
  lemma SpanParts(s: Span, offset: u64)
    ensures var fs, head := SpanMessage(s, offset), SpanHead(s, offset);
            && (forall f :: 1 <= f <= 8 ==> Last(fs, f) == Last(head, f))
            && All(fs, 9) == All(KeyValues(9, s.attrs), 9)
            && All(fs, 11) == All(EventMessages(s.events, offset), 11)
            && Last(fs, 15) == Last(SpanStatus(s), 15)
  {
    hide Last, All, Within, KeyValues, EventMessages, SpanHead, SpanStatus;
    var a, b, c, d := SpanHead(s, offset), KeyValues(9, s.attrs), EventMessages(s.events, offset), SpanStatus(s);
    HeadAscending(s, offset);
    KeyValuesField(9, s.attrs);
    EventsField(s.events, offset);
    StatusField(s);
    Joined(a, b, 1, 8, 9, 9);
    Joined(a + b, c, 1, 9, 11, 11);
    forall f | 1 <= f <= 8
      ensures Last(a + b + c + d, f) == Last(a, f)
    {
      Skip(a, b, 9, 9, f);
      Skip(a + b, c, 11, 11, f);
      Skip(a + b + c, d, 15, 15, f);
    }
    Skip(b, a, 1, 8, 9); Skip(a + b, c, 11, 11, 9); Skip(a + b + c, d, 15, 15, 9);
    Skip(c, a + b, 1, 9, 11); Skip(a + b + c, d, 15, 15, 11);
    Skip(d, a + b + c, 1, 11, 15);
  }

  predicate Present(fs: seq<Field>, f: nat) { Last(fs, f).Some? }

  lemma OptPresent(f: nat, content: seq<byte>, n: nat, v: u64)
    ensures Present(Opt(f, content), f) <==> content != []
    ensures Present(OptNum(f, n), f) <==> n != 0
    ensures Present(OptFix(f, v), f) <==> v != 0
  {
    hide Last;
    LastOne(Len(f, content), f);
    LastOne(Num(f, n), f);
    LastOne(Fix(f, v), f);
    NoFieldAt(f);
  }

  lemma HeadPresence(s: Span, offset: u64)
    ensures var fs := SpanHead(s, offset);
            && Present(fs, 1) && Present(fs, 2) && (Present(fs, 4) <==> s.parentId.Some?)
            && (Present(fs, 5) <==> s.name != []) && (Present(fs, 6) <==> s.kind != 0)
            && (Present(fs, 7) <==> Plus64(s.start, offset) != 0) && (Present(fs, 8) <==> Plus64(s.end, offset) != 0)
  {
    hide Last, Within, Plus64, Opt, OptNum, OptFix;
    var t0, t1 := Plus64(s.start, offset), Plus64(s.end, offset);
    var trace, id := [Len(1, s.traceId)], [Len(2, s.spanId)];
    var parent := if s.parentId.Some? then [Len(4, s.parentId.value)] else [];
    var name, kind, start, end := Opt(5, s.name), OptNum(6, s.kind), OptFix(7, t0), OptFix(8, t1);
    AtMostOne(trace, 1);
    AtMostOne(id, 2);
    AtMostOne(parent, 4);
    OptFields(5, s.name, 0, 0); OptPresent(5, s.name, 0, 0);
    OptFields(6, [], s.kind, 0); OptPresent(6, [], s.kind, 0);
    OptFields(7, [], 0, t0); OptPresent(7, [], 0, t0);
    OptFields(8, [], 0, t1); OptPresent(8, [], 0, t1);
    LastOne(trace[0], 1);
    LastOne(id[0], 2);
    NoFieldAt(4);
    if s.parentId.Some? { LastOne(parent[0], 4); }
    SevenFields(trace, id, parent, name, kind, start, end);
  }

  /** Rule 2 on a span: ids always, the parent and the status when there is one, all else unless it is the default. */
  lemma SpanPresence(s: Span, offset: u64)
    ensures var fs := SpanMessage(s, offset);
            && Present(fs, 1) && Present(fs, 2) && (Present(fs, 4) <==> s.parentId.Some?)
            && (Present(fs, 5) <==> s.name != []) && (Present(fs, 6) <==> s.kind != 0)
            && (Present(fs, 7) <==> Plus64(s.start, offset) != 0) && (Present(fs, 8) <==> Plus64(s.end, offset) != 0)
            && (Present(fs, 15) <==> s.statusCode != 0 || s.message != [])
            && |All(fs, 9)| == |s.attrs| && |All(fs, 11)| == |s.events|
  {
    hide Last, All, SpanMessage, SpanHead, KeyValues, EventMessages, Plus64, StatusMessage;
    SpanParts(s, offset);
    HeadPresence(s, offset);
    LastOne(Len(15, Message(StatusMessage(s))), 15);
    NoFieldAt(15);
    KVsCounted(9, s.attrs);
    EventsCounted(s.events, offset);
  }

  lemma {:induction false} KVsCounted(f: nat, kvs: seq<KV>)
    ensures |All(KeyValues(f, kvs), f)| == |kvs|
  {
    hide Message, KeyValue, All;
    if kvs == [] {
      NoFieldAt(f);
    } else {
      var init, x := kvs[..|kvs| - 1], Len(f, Message(KeyValue(kvs[|kvs| - 1])));
      KVsCounted(f, init);
      AllSum(KeyValues(f, init), [x], f);
      LastOne(x, f);
    }
  }

  lemma {:induction false} EventsCounted(es: seq<Event>, offset: u64)
    ensures |All(EventMessages(es, offset), 11)| == |es|
  {
    hide Message, EventMessage, All;
    if es == [] {
      NoFieldAt(11);
    } else {
      var init, x := es[..|es| - 1], Len(11, Message(EventMessage(es[|es| - 1], offset)));
      EventsCounted(init, offset);
      AllSum(EventMessages(init, offset), [x], 11);
      LastOne(x, 11);
    }
  }

  /** Rule 2 on the rest: an empty name, key or version and a zero time or code are left out; a value never is. */
  lemma OtherPresence(kv: KV, e: Event, offset: u64, s: Span, b: Batch)
    ensures (Present(KeyValue(kv), 1) <==> kv.key != []) && Present(KeyValue(kv), 2)
    ensures Present(EventMessage(e, offset), 1) <==> Plus64(e.time, offset) != 0
    ensures Present(EventMessage(e, offset), 2) <==> e.name != []
    ensures Present(StatusMessage(s), 2) <==> s.message != []
    ensures Present(StatusMessage(s), 3) <==> s.statusCode != 0
    ensures (Present(Scope(b), 1) <==> b.scopeName != []) && (Present(Scope(b), 2) <==> b.scopeVersion != [])
    ensures Present(ScopeSpans(b), 1) && Present(ResourceSpans(b), 1) && Present(ResourceSpans(b), 2)
  {
    hide Last, All, Within, Message, Opt, OptNum, OptFix, Plus64, KeyValues, SpanMessages;
    PairPresence(Opt(1, kv.key), [Len(2, Message([AnyValue(kv.value)]))], 1, 2, kv.key);
    EventPresence(e, offset);
    OptFields(2, s.message, 0, 0); OptPresent(2, s.message, 0, 0);
    OptFields(3, [], s.statusCode, 0); OptPresent(3, [], s.statusCode, 0);
    Skip(Opt(2, s.message), OptNum(3, s.statusCode), 3, 3, 2);
    Skip(OptNum(3, s.statusCode), Opt(2, s.message), 2, 2, 3);
    OptFields(1, b.scopeName, 0, 0); OptPresent(1, b.scopeName, 0, 0);
    OptFields(2, b.scopeVersion, 0, 0); OptPresent(2, b.scopeVersion, 0, 0);
    Skip(Opt(1, b.scopeName), Opt(2, b.scopeVersion), 2, 2, 1);
    Skip(Opt(2, b.scopeVersion), Opt(1, b.scopeName), 1, 1, 2);
    WrapperPresence(b);
  }

  lemma PairPresence(a: seq<Field>, b: seq<Field>, f: nat, g: nat, content: seq<byte>)
    requires a == Opt(f, content) && |b| == 1 && b[0].f == g && f < g
    ensures (Present(a + b, f) <==> content != []) && Present(a + b, g)
  {
    hide Last, All, Within, Opt;
    OptFields(f, content, 0, 0);
    OptPresent(f, content, 0, 0);
    AtMostOne(b, g);
    LastOne(b[0], g);
    assert b == [b[0]];
    Skip(a, b, g, g, f);
    Skip(b, a, f, f, g);
  }

  lemma EventPresence(e: Event, offset: u64)
    ensures Present(EventMessage(e, offset), 1) <==> Plus64(e.time, offset) != 0
    ensures Present(EventMessage(e, offset), 2) <==> e.name != []
  {
    hide Last, All, Within, Plus64, Opt, OptFix, KeyValues;
    var time := Plus64(e.time, offset);
    var a, b, c := OptFix(1, time), Opt(2, e.name), KeyValues(3, e.attrs);
    OptFields(1, [], 0, time); OptPresent(1, [], 0, time);
    OptFields(2, e.name, 0, 0); OptPresent(2, e.name, 0, 0);
    KeyValuesField(3, e.attrs);
    Skip(a, b, 2, 2, 1);
    Skip(a + b, c, 3, 3, 1);
    Skip(b, a, 1, 1, 2);
    Skip(a + b, c, 3, 3, 2);
  }

  lemma WrapperPresence(b: Batch)
    ensures Present(ScopeSpans(b), 1) && Present(ResourceSpans(b), 1) && Present(ResourceSpans(b), 2)
  {
    hide Last, All, Within, Message, SpanMessages, Scope, KeyValues;
    var scope, spans := [Len(1, Message(Scope(b)))], SpanMessages(b.spans, b.offset);
    LastOne(scope[0], 1);
    SpansField(b.spans, b.offset);
    Skip(scope, spans, 2, 2, 1);
    var r, ss := [Len(1, Message(KeyValues(1, b.resource)))], [Len(2, Message(scope + spans))];
    LastOne(r[0], 1);
    LastOne(ss[0], 2);
    AtMostOne(r, 1);
    AtMostOne(ss, 2);
    Skip(r, ss, 2, 2, 1);
    Skip(ss, r, 1, 1, 2);
  }

  lemma SpanRoundTrip(s: Span, offset: u64)
    ensures ReadSpan(Message(SpanMessage(s, offset))) == Some(OnWire(s, offset))
  {
    hide Message, ReadMessage, Last, All, SpanMessage, SpanHead, SpanStatus, KeyValues, EventMessages, ReadKVs,
      ReadEvents, Plus64, EventsOnWire;
    MessageRoundTrip(SpanMessage(s, offset));
    SpanParts(s, offset);
    HeadFields(s, offset);
    KVsRoundTrip(9, s.attrs);
    EventsRoundTrip(s.events, offset);
    StatusRoundTrip(s);
  }

  lemma {:induction false} SpansRoundTrip(spans: seq<Span>, offset: u64)
    ensures ReadSpans(All(SpanMessages(spans, offset), 2)) == Some(SpansOnWire(spans, offset))
  {
    hide Message, SpanMessage, ReadSpan, ReadSpans, All, OnWire, SpansOnWire;
    if spans == [] {
      NoFieldAt(2);
      NoSpans(offset);
    } else {
      var init, last := spans[..|spans| - 1], spans[|spans| - 1];
      var x := Len(2, Message(SpanMessage(last, offset)));
      SpansRoundTrip(init, offset);
      SpanRoundTrip(last, offset);
      AllSum(SpanMessages(init, offset), [x], 2);
      LastOne(x, 2);
      OneMoreSpan(All(SpanMessages(init, offset), 2), x.content, init, last, offset);
      assert spans == init + [last];
    }
  }

  lemma NoSpans(offset: u64)
    ensures ReadSpans([]) == Some([]) && SpansOnWire([], offset) == []
  {}

  lemma OneMoreSpan(bs: seq<seq<byte>>, b: seq<byte>, spans: seq<Span>, s: Span, offset: u64)
    requires ReadSpans(bs) == Some(SpansOnWire(spans, offset)) && ReadSpan(b) == Some(OnWire(s, offset))
    ensures ReadSpans(bs + [b]) == Some(SpansOnWire(spans + [s], offset))
  {
    hide ReadSpan, OnWire;
    assert (bs + [b])[..|bs|] == bs;
    assert SpansOnWire(spans + [s], offset) == SpansOnWire(spans, offset) + [OnWire(s, offset)];
  }

  // ---------------------------------------------------------------- The request

  /** What a receiver gets out of a request with one Resource and one scope. */
  datatype Received = Received(resource: seq<KV>, scopeName: seq<byte>, scopeVersion: seq<byte>, spans: seq<WireSpan>)

  function ReadScopeSpans(resource: seq<KV>, b: seq<byte>): Option<Received> {
    match ReadMessage(b)
    case None => None
    case Some(fs) =>
      match ReadMessage(BytesAt(fs, 1))
      case None => None
      case Some(scope) =>
        match ReadSpans(All(fs, 2))
        case None => None
        case Some(spans) => Some(Received(resource, BytesAt(scope, 1), BytesAt(scope, 2), spans))
  }

  function ReadResourceSpans(b: seq<byte>): Option<Received> {
    match ReadMessage(b)
    case None => None
    case Some(fs) =>
      match ReadMessage(BytesAt(fs, 1))
      case None => None
      case Some(resource) =>
        match ReadKVs(All(resource, 1))
        case None => None
        case Some(kvs) => ReadScopeSpans(kvs, BytesAt(fs, 2))
  }

  function ReadRequest(b: seq<byte>): Option<Received> {
    match ReadMessage(b) case None => None case Some(fs) => ReadResourceSpans(BytesAt(fs, 1))
  }

  lemma ScopeRoundTrip(b: Batch)
    ensures BytesAt(Scope(b), 1) == b.scopeName && BytesAt(Scope(b), 2) == b.scopeVersion
  {
    hide Last, Within, Opt;
    OptFields(1, b.scopeName, 0, 0);
    OptFields(2, b.scopeVersion, 0, 0);
    Skip(Opt(1, b.scopeName), Opt(2, b.scopeVersion), 2, 2, 1);
    Skip(Opt(2, b.scopeVersion), Opt(1, b.scopeName), 1, 1, 2);
  }

  lemma ScopeSpansRoundTrip(b: Batch, resource: seq<KV>)
    ensures ReadScopeSpans(resource, Message(ScopeSpans(b)))
            == Some(Received(resource, b.scopeName, b.scopeVersion, SpansOnWire(b.spans, b.offset)))
  {
    hide Message, ReadMessage, Last, All, Within, Scope, SpanMessages, ReadSpans, SpansOnWire;
    var scope, spans := [Len(1, Message(Scope(b)))], SpanMessages(b.spans, b.offset);
    MessageRoundTrip(ScopeSpans(b));
    MessageRoundTrip(Scope(b));
    ScopeRoundTrip(b);
    AtMostOne(scope, 1);
    SpansField(b.spans, b.offset);
    LastOne(scope[0], 1);
    Skip(scope, spans, 2, 2, 1);
    Skip(spans, scope, 1, 1, 2);
    SpansRoundTrip(b.spans, b.offset);
  }

  /** The round trip of the whole payload: a receiver gets every attribute, event and span, in order. */
  lemma RequestRoundTrip(b: Batch)
    ensures ReadRequest(Request(b))
            == Some(Received(b.resource, b.scopeName, b.scopeVersion, SpansOnWire(b.spans, b.offset)))
  {
    hide Message, ReadMessage, Last, All, Within, KeyValues, ScopeSpans, ReadKVs, ReadScopeSpans, SpansOnWire;
    var resource, scopes := [Len(1, Message(KeyValues(1, b.resource)))], [Len(2, Message(ScopeSpans(b)))];
    var outer := Len(1, Message(ResourceSpans(b)));
    MessageRoundTrip([outer]);
    LastOne(outer, 1);
    MessageRoundTrip(ResourceSpans(b));
    MessageRoundTrip(KeyValues(1, b.resource));
    AtMostOne(resource, 1);
    AtMostOne(scopes, 2);
    LastOne(resource[0], 1);
    LastOne(scopes[0], 2);
    Skip(resource, scopes, 2, 2, 1);
    Skip(scopes, resource, 1, 1, 2);
    KVsRoundTrip(1, b.resource);
    ScopeSpansRoundTrip(b, b.resource);
  }

  // ---------------------------------------------------------------- Emission reaches the bytes

  /** The bytes an encode in this state produces. */
  function PayloadBytes(c: Config, sync: Option<Sync>, now: u64, s: State): seq<byte>
    requires forall h <- s.order :: h in s.spans
  {
    Request(BuildBatch(c, sync, now, s.counters, SpansOf(s, s.order)))
  }

  /**
   Exactly-once emission, in bytes. In every run, the payload of the first successful encode after a span
   ended is read back to the spans of that payload in order; the span is among them as it was left, with its
   times moved to wall time, and its number is in no payload before and in none twice after.
   */
  lemma EmittedInBytes(states: seq<State>, calls: seq<Done>, i: nat, k: nat, j: nat, c: Config, sync: Option<Sync>,
                       now: u64)
    requires Run(states, calls) && i < k < j < |states|
    requires calls[i].call.End? && calls[i].result == Ok && IsEncode(calls[k])
    requires forall q :: i < q < k ==> !IsEncode(calls[q])
    ensures calls[i].call.xspan in states[i + 1].spans
    ensures forall h <- states[k].order :: h in states[k].spans
    ensures |states[k + 1].payloads| == |states[k].payloads| + 1
    ensures var x := states[i + 1].spans[calls[i].call.xspan];
            var got := ReadRequest(PayloadBytes(c, sync, now, states[k]));
            && got.Some?
            && got.value.spans == SpansOnWire(states[k + 1].payloads[|states[k].payloads|].spans, Offset(c, sync))
            && OnWire(x, Offset(c, sync)) in got.value.spans
            && x.serial !in Emitted(states[k].payloads)
            && x.serial in Emitted(states[j].payloads) && NoDup(Emitted(states[j].payloads))
  {
    hide Step, Initial, Emitted, NoDup, ReadRequest, Request, Reserved, OnWire;
    var x := EmittedExactlyOnce(states, calls, i, k, j);
    assert StepAt(states, calls, k);
    EncodeSends(states[k], calls[k], states[k + 1]);
    var spans := SpansOf(states[k], states[k].order);
    RequestRoundTrip(BuildBatch(c, sync, now, states[k].counters, spans));
    Sent(spans, x, Offset(c, sync));
  }

  lemma EncodeSends(s: State, d: Done, s': State)
    requires IsEncode(d) && Step(s, d.call, d.result, d.handle, s')
    ensures forall h <- s.order :: h in s.spans
    ensures |s'.payloads| == |s.payloads| + 1 && s'.payloads[|s.payloads|].spans == SpansOf(s, s.order)
  {
    hide SpansOf;
  }

  lemma Sent(spans: seq<Span>, x: Span, offset: u64)
    requires x in spans
    ensures OnWire(x, offset) in SpansOnWire(spans, offset)
  {
    hide OnWire;
    var i :| 0 <= i < |spans| && spans[i] == x;
    assert SpansOnWire(spans, offset)[i] == OnWire(x, offset);
  }
}
