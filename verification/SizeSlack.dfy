/**
 The size bound is not only above the payload but close to it: over the payload it allows a fixed
 number of bytes, and a fixed number more per attribute, event and span, whatever their lengths.
 */
module SizeSlack {
  import opened Basics
  import opened RecordFormat
  import opened LeafSpec
  import opened Protobuf

  const PER_ATTRIBUTE := 27
  const PER_EVENT := 22
  const PER_SPAN := 99
  const PER_PAYLOAD := 454

  function EventSlack(e: Event): nat { PER_EVENT + Times(|e.attrs|, PER_ATTRIBUTE) }

  function EventsSlack(es: seq<Event>): nat {
    if es == [] then 0 else EventsSlack(es[..|es| - 1]) + EventSlack(es[|es| - 1])
  }

  function SpanSlack(s: Span): nat { PER_SPAN + Times(|s.attrs|, PER_ATTRIBUTE) + EventsSlack(s.events) }

  function SpansSlack(spans: seq<Span>): nat {
    if spans == [] then 0 else SpansSlack(spans[..|spans| - 1]) + SpanSlack(spans[|spans| - 1])
  }

  function Slack(c: Config, spans: seq<Span>): nat {
    PER_PAYLOAD + Times(|c.resource|, PER_ATTRIBUTE) + SpansSlack(spans)
  }

  // ---------------------------------------------------------------- Fields take at least this

  lemma FieldLeast(x: Field)
    ensures |Message([x])| == |Tag(x)| + |Body(x)| >= 1 + |Body(x)|
    ensures x.Len? ==> |Body(x)| >= 1 + |x.content|
    ensures x.Num? ==> |Body(x)| >= 1
    ensures x.Fix? ==> |Body(x)| == 8
  {
    hide Varint, LE;
    assert Message([x]) == Tag(x) + Body(x) + Message([]);
  }

  /** A field whose content falls short of n by at most k. */
  lemma LenLeast(f: nat, content: seq<byte>, n: nat, k: nat)
    requires n <= |content| + k
    ensures BoundField(n) <= |Message([Len(f, content)])| + 5 + k
  {
    hide Message;
    FieldLeast(Len(f, content));
  }

  lemma OptLeast(f: nat, content: seq<byte>)
    ensures BoundField(|content|) <= |Message(Opt(f, content))| + 7
  {
    hide Message;
    FieldLeast(Len(f, content));
    NoFields();
  }

  lemma ValueLeast(v: Value)
    ensures BoundValue(v) <= |Message([AnyValue(v)])| + 10
  {
    hide Message;
    FieldLeast(AnyValue(v));
  }

  lemma KVLeast(f: nat, kv: KV)
    ensures BoundKV(kv) <= |Message([Len(f, Message(KeyValue(kv)))])| + PER_ATTRIBUTE
  {
    hide Message, BoundValue, AnyValue, Opt;
    var value := Message([AnyValue(kv.value)]);
    ValueLeast(kv.value);
    OptLeast(1, kv.key);
    LenLeast(2, value, BoundValue(kv.value), 10);
    MessageSum(Opt(1, kv.key), [Len(2, value)]);
    LenLeast(f, Message(KeyValue(kv)), BoundField(|kv.key|) + BoundField(BoundValue(kv.value)), 22);
  }

  lemma {:induction false} KVsLeast(f: nat, kvs: seq<KV>)
    ensures BoundKVs(kvs) <= |Message(KeyValues(f, kvs))| + Times(|kvs|, PER_ATTRIBUTE)
  {
    hide Message, KeyValue, BoundKV;
    if kvs != [] {
      var init, last := kvs[..|kvs| - 1], kvs[|kvs| - 1];
      KVsLeast(f, init);
      KVLeast(f, last);
      MessageSum(KeyValues(f, init), [Len(f, Message(KeyValue(last)))]);
    }
  }

  lemma EventLeast(e: Event, offset: u64)
    ensures BoundEvent(e) <= |Message([Len(11, Message(EventMessage(e, offset)))])| + EventSlack(e)
  {
    hide Message, KeyValues, BoundKVs, Opt, OptFix, Plus64, Times;
    var time, name, attrs := OptFix(1, Plus64(e.time, offset)), Opt(2, e.name), KeyValues(3, e.attrs);
    OptLeast(2, e.name);
    KVsLeast(3, e.attrs);
    MessageSum(time, name);
    MessageSum(time + name, attrs);
    LenLeast(11, Message(EventMessage(e, offset)), BOUND_TAG + BOUND_FIXED64 + BoundField(|e.name|) + BoundKVs(e.attrs),
             17 + Times(|e.attrs|, PER_ATTRIBUTE));
  }

  lemma {:induction false} EventsLeast(es: seq<Event>, offset: u64)
    ensures BoundEvents(es) <= |Message(EventMessages(es, offset))| + EventsSlack(es)
  {
    hide Message, EventMessage, BoundEvent, EventSlack;
    if es != [] {
      var init, last := es[..|es| - 1], es[|es| - 1];
      EventsLeast(init, offset);
      EventLeast(last, offset);
      MessageSum(EventMessages(init, offset), [Len(11, Message(EventMessage(last, offset)))]);
    }
  }

  lemma StatusLeast(s: Span)
    ensures BoundField(BoundField(|s.message|) + BOUND_TAG + BOUND_VARINT) <= |Message(SpanStatus(s))| + 26
  {
    hide Message, Opt, OptNum;
    OptLeast(2, s.message);
    MessageSum(Opt(2, s.message), OptNum(3, s.statusCode));
    LenLeast(15, Message(StatusMessage(s)), BoundField(|s.message|) + BOUND_TAG + BOUND_VARINT, 19);
  }

  lemma HeadLeast(s: Span, offset: u64)
    ensures BoundField(16) + 2 * BoundField(8) + BoundField(|s.name|) + 3 * (BOUND_TAG + BOUND_VARINT)
         <= |Message(SpanHead(s, offset))| + 68
  {
    hide Message, Opt, OptNum, OptFix, Plus64;
    var trace, id := [Len(1, s.traceId)], [Len(2, s.spanId)];
    var parent := if s.parentId.Some? then [Len(4, s.parentId.value)] else [];
    var name, kind := Opt(5, s.name), OptNum(6, s.kind);
    var start, end := OptFix(7, Plus64(s.start, offset)), OptFix(8, Plus64(s.end, offset));
    LenLeast(1, s.traceId, 16, 0);
    LenLeast(2, s.spanId, 8, 0);
    OptLeast(5, s.name);
    MessageSum(trace, id);
    MessageSum(trace + id, parent);
    MessageSum(trace + id + parent, name);
    MessageSum(trace + id + parent + name, kind);
    MessageSum(trace + id + parent + name + kind, start);
    MessageSum(trace + id + parent + name + kind + start, end);
  }

  lemma SpanLeast(s: Span, offset: u64)
    ensures BoundSpan(s) <= |Message([Len(2, Message(SpanMessage(s, offset)))])| + SpanSlack(s)
  {
    hide Message, SpanHead, KeyValues, EventMessages, SpanStatus, BoundKVs, BoundEvents, Times, EventsSlack;
    var head, attrs, events, status :=
      SpanHead(s, offset), KeyValues(9, s.attrs), EventMessages(s.events, offset), SpanStatus(s);
    HeadLeast(s, offset);
    StatusLeast(s);
    KVsLeast(9, s.attrs);
    EventsLeast(s.events, offset);
    MessageSum(head, attrs);
    MessageSum(head + attrs, events);
    MessageSum(head + attrs + events, status);
    LenLeast(2, Message(SpanMessage(s, offset)), BoundSpanHead(s) + BoundKVs(s.attrs) + BoundEvents(s.events),
             94 + Times(|s.attrs|, PER_ATTRIBUTE) + EventsSlack(s.events));
  }

  lemma {:induction false} SpansLeast(spans: seq<Span>, offset: u64)
    ensures BoundSpans(spans) <= |Message(SpanMessages(spans, offset))| + SpansSlack(spans)
  {
    hide Message, SpanMessage, BoundSpan, SpanSlack;
    if spans != [] {
      var init, last := spans[..|spans| - 1], spans[|spans| - 1];
      SpansLeast(init, offset);
      SpanLeast(last, offset);
      MessageSum(SpanMessages(init, offset), [Len(2, Message(SpanMessage(last, offset)))]);
    }
  }

  lemma ScopeSpansLeast(b: Batch, c: Config)
    requires b.scopeName == c.scopeName && b.scopeVersion == c.scopeVersion
    ensures BoundField(BoundScope(c) + BoundSpans(b.spans))
         <= |Message([Len(2, Message(ScopeSpans(b)))])| + 24 + SpansSlack(b.spans)
  {
    hide Message, SpanMessages, BoundSpans, SpansSlack, Opt;
    OptLeast(1, b.scopeName);
    OptLeast(2, b.scopeVersion);
    MessageSum(Opt(1, b.scopeName), Opt(2, b.scopeVersion));
    LenLeast(1, Message(Scope(b)), BoundField(|b.scopeName|) + BoundField(|b.scopeVersion|), 14);
    SpansLeast(b.spans, b.offset);
    MessageSum([Len(1, Message(Scope(b)))], SpanMessages(b.spans, b.offset));
    LenLeast(2, Message(ScopeSpans(b)), BoundScope(c) + BoundSpans(b.spans), 19 + SpansSlack(b.spans));
  }

  /** The bound exceeds the payload by no more than the slack. */
  lemma BoundIsClose(c: Config, sync: Option<Sync>, now: u64, counters: Counters, spans: seq<Span>)
    ensures Bound(c, spans) <= |Request(BuildBatch(c, sync, now, counters, spans))| + Slack(c, spans)
  {
    hide Message, KeyValues, BoundKVs, BoundSpans, ScopeSpans, SpansSlack, Reserved, Times, BoundScope;
    var b := BuildBatch(c, sync, now, counters, spans);
    var reserved := Reserved(c, sync, now, counters);
    KVsLeast(1, c.resource);
    KeyValuesSum(1, c.resource, reserved);
    MessageSum(KeyValues(1, c.resource), KeyValues(1, reserved));
    LenLeast(1, Message(KeyValues(1, b.resource)), BoundKVs(c.resource) + BoundReserved(),
             420 + Times(|c.resource|, PER_ATTRIBUTE));
    ScopeSpansLeast(b, c);
    MessageSum([Len(1, Message(KeyValues(1, b.resource)))], [Len(2, Message(ScopeSpans(b)))]);
    LenLeast(1, Message(ResourceSpans(b)),
             BoundField(BoundKVs(c.resource) + BoundReserved()) + BoundField(BoundScope(c) + BoundSpans(spans)),
             449 + Times(|c.resource|, PER_ATTRIBUTE) + SpansSlack(spans));
  }
}
