/**
 From the chunks of a span to the span: names, attributes, events and status messages are read
 off its list by kind, in list order.
 */
module LeafItems {
  import opened Basics
  import opened RecordFormat
  import opened Chains
  import opened ListOps
  import opened LeafSpec

  /** The items of one kind, in emit order: what next_of_kind visits. */
  function Filter(items: seq<Raw>, kind: byte): (r: seq<Raw>)
    ensures |r| <= |items|
  {
    if items == [] then [] else
    Filter(items[..|items| - 1], kind) + if items[|items| - 1].kind == kind then [items[|items| - 1]] else []
  }

  lemma {:induction false} FilterConcat(a: seq<Raw>, b: seq<Raw>, kind: byte)
    ensures Filter(a + b, kind) == Filter(a, kind) + Filter(b, kind)
    decreases b
  {
    if b == [] {
      assert a + b == a;
    } else {
      FilterConcat(a, b[..|b| - 1], kind);
      assert (a + b)[..|a + b| - 1] == a + b[..|b| - 1];
    }
  }

  lemma FilterOne(x: Raw, kind: byte)
    ensures Filter([x], kind) == if x.kind == kind then [x] else []
  {
    assert [x][..0] == [];
  }

  /** How many items of this kind stand before place p. */
  function Before(items: seq<Raw>, kind: byte, p: nat): nat
    requires p <= |items|
  {
    |Filter(items[..p], kind)|
  }

  lemma FilterAround(items: seq<Raw>, p: nat, kind: byte)
    requires p < |items|
    ensures Filter(items, kind) == Filter(items[..p], kind) + Filter([items[p]], kind) + Filter(items[p + 1..], kind)
  {
    assert items == items[..p] + [items[p]] + items[p + 1..];
    FilterConcat(items[..p] + [items[p]], items[p + 1..], kind);
    FilterConcat(items[..p], [items[p]], kind);
  }

  lemma FilterAppend(items: seq<Raw>, x: Raw, kind: byte)
    ensures Filter(items + [x], kind) == Filter(items, kind) + if x.kind == kind then [x] else []
  {
    FilterConcat(items, [x], kind);
    FilterOne(x, kind);
  }

  lemma FilterUpdate(items: seq<Raw>, p: nat, x: Raw, kind: byte)
    requires p < |items| && items[p].kind == x.kind
    ensures x.kind != kind ==> Filter(items[p := x], kind) == Filter(items, kind)
    ensures x.kind == kind ==>
              && Before(items, kind, p) < |Filter(items, kind)|
              && Filter(items, kind)[Before(items, kind, p)] == items[p]
              && Filter(items[p := x], kind) == Filter(items, kind)[Before(items, kind, p) := x]
  {
    hide Filter;
    FilterAround(items, p, kind);
    FilterAround(items[p := x], p, kind);
    assert items[p := x][..p] == items[..p] && items[p := x][p + 1..] == items[p + 1..];
    FilterOne(items[p], kind);
    FilterOne(x, kind);
  }

  lemma FilterDropped(items: seq<Raw>, p: nat, kind: byte)
    requires p < |items|
    ensures items[p].kind != kind ==> Filter(Dropped(items, p), kind) == Filter(items, kind)
    ensures items[p].kind == kind ==> |Filter(Dropped(items, p), kind)| == |Filter(items, kind)| - 1
  {
    hide Filter;
    FilterAround(items, p, kind);
    FilterOne(items[p], kind);
    FilterConcat(items[..p], items[p + 1..], kind);
    assert Filter(items[..p], kind) + [] == Filter(items[..p], kind);
  }

  lemma {:induction false} FilterAbsent(items: seq<Raw>, kind: byte)
    requires forall q :: 0 <= q < |items| ==> items[q].kind != kind
    ensures Filter(items, kind) == []
  {
    if items != [] { FilterAbsent(items[..|items| - 1], kind); }
  }

  // ---------------------------------------------------------------- Reading the items

  function KvOf(x: Raw): KV {
    match UnpackKV(x.data) case Unpacked(kv, _) => kv case BadKV => KV([], Bool(false))
  }

  function EventOf(x: Raw): Event {
    match UnpackEvent(x.data) case Some(e) => e case None => Event(0, [], [])
  }

  function KvsOf(xs: seq<Raw>): (r: seq<KV>)
    ensures |r| == |xs| && forall i :: 0 <= i < |xs| ==> r[i] == KvOf(xs[i])
  {
    seq(|xs|, i requires 0 <= i < |xs| => KvOf(xs[i]))
  }

  function EventsOf(xs: seq<Raw>): (r: seq<Event>)
    ensures |r| == |xs| && forall i :: 0 <= i < |xs| ==> r[i] == EventOf(xs[i])
  {
    seq(|xs|, i requires 0 <= i < |xs| => EventOf(xs[i]))
  }

  /** span_strings keeps the last one it meets. */
  function LastData(xs: seq<Raw>): seq<byte> { if xs == [] then [] else xs[|xs| - 1].data }

  function Decode(v: SpanView, serial: nat): Span {
    Span(serial, v.rec.traceId, v.rec.spanId,
         if v.rec.hasParent != 0 then Some(v.rec.parentId) else None,
         v.rec.kind, v.rec.start, v.rec.end, v.rec.state == SLOT_ENDED,
         LastData(Filter(v.items, CHUNK_NAME)),
         KvsOf(Filter(v.items, CHUNK_ATTR)),
         EventsOf(Filter(v.items, CHUNK_EVENT)),
         v.rec.statusCode,
         LastData(Filter(v.items, CHUNK_STATUS)))
  }

  /** The counts in the record are right, and a span has at most one name and one status message. */
  predicate CountsOk(v: SpanView) {
    && v.rec.attrCount == |Filter(v.items, CHUNK_ATTR)|
    && v.rec.eventCount == |Filter(v.items, CHUNK_EVENT)|
    && |Filter(v.items, CHUNK_NAME)| <= 1
    && |Filter(v.items, CHUNK_STATUS)| <= 1
  }

  // ---------------------------------------------------------------- What each operation does to the span

  lemma DecodeAddAttr(v: SpanView, kv: KV, serial: nat)
    requires CountsOk(v) && KVSize(kv) < 0x1_0000_0000 && v.rec.attrCount < 0xffff
    ensures var v' := SpanView(v.rec.(attrCount := v.rec.attrCount + 1), v.items + [Raw(CHUNK_ATTR, PackKV(kv))]);
            && CountsOk(v')
            && Decode(v', serial) == Decode(v, serial).(attrs := Decode(v, serial).attrs + [kv])
  {
    hide Filter, UnpackKV, PackKV, UnpackEvent;
    var x := Raw(CHUNK_ATTR, PackKV(kv));
    FilterAppend(v.items, x, CHUNK_ATTR); FilterAppend(v.items, x, CHUNK_NAME);
    FilterAppend(v.items, x, CHUNK_EVENT); FilterAppend(v.items, x, CHUNK_STATUS);
    PackRoundTrip(kv, []);
    assert PackKV(kv) + [] == PackKV(kv);
  }

  lemma DecodeAddEvent(v: SpanView, e: Event, serial: nat)
    requires CountsOk(v) && EventSize(e) < 0x1_0000_0000 && v.rec.eventCount < 0xffff
    ensures var v' := SpanView(v.rec.(eventCount := v.rec.eventCount + 1), v.items + [Raw(CHUNK_EVENT, PackEvent(e))]);
            && CountsOk(v')
            && Decode(v', serial) == Decode(v, serial).(events := Decode(v, serial).events + [e])
  {
    hide Filter, UnpackKV, UnpackEvent, PackEvent;
    var x := Raw(CHUNK_EVENT, PackEvent(e));
    FilterAppend(v.items, x, CHUNK_ATTR); FilterAppend(v.items, x, CHUNK_NAME);
    FilterAppend(v.items, x, CHUNK_EVENT); FilterAppend(v.items, x, CHUNK_STATUS);
    EventRoundTrip(e);
  }

  /** The first item that matches a key is the first attribute with it. */
  lemma FirstMatchIsFirstKey(items: seq<Raw>, key: seq<byte>, p: nat)
    requires key != [] && FirstMatch(items, CHUNK_ATTR, Some(key), p)
    ensures FirstKey(KvsOf(Filter(items, CHUNK_ATTR)), key)
         == if p < |items| then Before(items, CHUNK_ATTR, p) else |Filter(items, CHUNK_ATTR)|
  {
    hide Filter, UnpackKV, FirstKey;
    NoKeyBefore(items[..p], key);
    var kvs := KvsOf(Filter(items, CHUNK_ATTR));
    if p < |items| {
      FilterAround(items, p, CHUNK_ATTR);
      FilterOne(items[p], CHUNK_ATTR);
      FirstKeyIs(kvs, key, Before(items, CHUNK_ATTR, p));
    } else {
      assert items[..p] == items;
      FirstKeyIs(kvs, key, |kvs|);
    }
  }

  lemma {:induction false} NoKeyBefore(items: seq<Raw>, key: seq<byte>)
    requires key != [] && forall q :: 0 <= q < |items| ==> !Matches(items[q], CHUNK_ATTR, Some(key))
    ensures forall i :: 0 <= i < |Filter(items, CHUNK_ATTR)| ==> KvOf(Filter(items, CHUNK_ATTR)[i]).key != key
  {
    hide UnpackKV;
    if items != [] { NoKeyBefore(items[..|items| - 1], key); }
  }

  lemma FirstKeyIs(kvs: seq<KV>, key: seq<byte>, i: nat)
    requires i <= |kvs| && (forall j :: 0 <= j < i ==> kvs[j].key != key) && (i < |kvs| ==> kvs[i].key == key)
    ensures FirstKey(kvs, key) == i
  {
    var f := FirstKey(kvs, key);
  }

  lemma DecodeReplaceAttr(v: SpanView, kv: KV, p: nat, serial: nat)
    requires CountsOk(v) && kv.key != [] && KVSize(kv) < 0x1_0000_0000
    requires FirstMatch(v.items, CHUNK_ATTR, Some(kv.key), p) && p < |v.items|
    ensures var v' := SpanView(v.rec, v.items[p := Raw(CHUNK_ATTR, PackKV(kv))]);
            && CountsOk(v')
            && FirstKey(Decode(v, serial).attrs, kv.key) < |Decode(v, serial).attrs|
            && Decode(v', serial) == Decode(v, serial).(attrs := SetAttr(Decode(v, serial).attrs, kv))
  {
    hide Filter, UnpackKV, PackKV, UnpackEvent, FirstKey;
    var x := Raw(CHUNK_ATTR, PackKV(kv));
    FirstMatchIsFirstKey(v.items, kv.key, p);
    FilterUpdate(v.items, p, x, CHUNK_ATTR); FilterUpdate(v.items, p, x, CHUNK_NAME);
    FilterUpdate(v.items, p, x, CHUNK_EVENT); FilterUpdate(v.items, p, x, CHUNK_STATUS);
    PackRoundTrip(kv, []);
    assert PackKV(kv) + [] == PackKV(kv);
  }

  /** All three outcomes of set_status_message leave the given message and nothing else changed. */
  lemma DecodeStatus(v: SpanView, message: seq<byte>, code: byte, p: nat, inPlace: bool, serial: nat)
    requires CountsOk(v) && FirstMatch(v.items, CHUNK_STATUS, None, p) && (inPlace ==> p < |v.items|)
    ensures var x := Raw(CHUNK_STATUS, message);
            var items := if inPlace then v.items[p := x] else Dropped(v.items, p) + if message == [] then [] else [x];
            var v' := SpanView(v.rec.(statusCode := code), items);
            && CountsOk(v')
            && Decode(v', serial) == Decode(v, serial).(statusCode := code, message := message)
  {
    hide Filter, UnpackKV, UnpackEvent;
    var x := Raw(CHUNK_STATUS, message);
    if inPlace {
      FilterUpdate(v.items, p, x, CHUNK_ATTR); FilterUpdate(v.items, p, x, CHUNK_NAME);
      FilterUpdate(v.items, p, x, CHUNK_EVENT); FilterUpdate(v.items, p, x, CHUNK_STATUS);
    } else {
      var d := Dropped(v.items, p);
      if p < |v.items| {
        FilterDropped(v.items, p, CHUNK_ATTR); FilterDropped(v.items, p, CHUNK_NAME);
        FilterDropped(v.items, p, CHUNK_EVENT); FilterDropped(v.items, p, CHUNK_STATUS);
      } else {
        FilterAbsent(v.items, CHUNK_STATUS);
      }
      FilterAppend(d, x, CHUNK_ATTR); FilterAppend(d, x, CHUNK_NAME);
      FilterAppend(d, x, CHUNK_EVENT); FilterAppend(d, x, CHUNK_STATUS);
      assert d + [] == d;
    }
  }

  lemma DecodeEnd(v: SpanView, now: u64, n: nat)
    ensures var v' := v.(rec := v.rec.(state := SLOT_ENDED, end := now, nextEnded := NONE16));
            && Decode(v', n) == Decode(v, n).(ended := true, end := now)
            && (CountsOk(v) ==> CountsOk(v'))
  {
    hide Filter, KvsOf, EventsOf, LastData;
  }

  /** The record start_span builds. */
  function NewRec(trace: Id16, id: Id8, parent: Option<Id8>, kind: byte, gen: u16, now: u64): SpanRec {
    SpanRec(now, 0, trace, id, if parent.Some? then parent.value else seq(8, _ => 0), NONE32, NONE32,
            gen, NONE16, 0, 0, SLOT_OPEN, kind, 0, if parent.Some? then 1 else 0)
  }

  function NewView(r: SpanRec, name: seq<byte>): SpanView {
    SpanView(Bare(r), if name == [] then [] else [Raw(CHUNK_NAME, name)])
  }

  lemma DecodeNewborn(s: State, trace: Id16, id: Id8, parent: Option<Id8>, kind: byte, gen: u16, now: u64,
                      name: seq<byte>)
    ensures var v := NewView(NewRec(trace, id, parent, kind, gen, now), name);
            CountsOk(v) && Decode(v, s.started) == NewSpan(s, name, kind, trace, id, parent, now)
  {
    hide Filter, KvsOf, EventsOf, LastData;
    DecodeNew(Bare(NewRec(trace, id, parent, kind, gen, now)), name, s.started);
  }

  lemma DecodeNew(rec: SpanRec, name: seq<byte>, serial: nat)
    requires rec.attrCount == 0 && rec.eventCount == 0
    ensures var v := SpanView(rec, if name == [] then [] else [Raw(CHUNK_NAME, name)]);
            && CountsOk(v)
            && Decode(v, serial).name == name && Decode(v, serial).attrs == [] && Decode(v, serial).events == []
            && Decode(v, serial).message == []
  {
    hide UnpackKV, UnpackEvent;
    if name != [] {
      var x := Raw(CHUNK_NAME, name);
      FilterOne(x, CHUNK_NAME); FilterOne(x, CHUNK_ATTR); FilterOne(x, CHUNK_EVENT); FilterOne(x, CHUNK_STATUS);
    }
  }

  // ---------------------------------------------------------------- The map from handle to span

  type View = map<nat, SpanView>

  /** resolve, on the view. */
  predicate Resolves(view: View, h: Handle) {
    && h / 0x1_0000 != 0
    && h % 0x1_0000 in view && view[h % 0x1_0000].rec.gen == h / 0x1_0000
  }

  function SerialAt(serials: map<nat, nat>, s: nat): nat { if s in serials then serials[s] else 0 }

  function Blank(): SpanView {
    var id: Id8 := [0, 0, 0, 0, 0, 0, 0, 0];
    NewView(NewRec(id + id, id, None, 1, 1, 0), [])
  }

  /** The span in slot s; what it is of a slot not in use does not matter. */
  function SpanIn(view: View, serials: map<nat, nat>, s: nat): Span {
    Decode(if s in view then view[s] else Blank(), SerialAt(serials, s))
  }

  ghost function HandleMap(view: View, serials: map<nat, nat>): map<Handle, Span> {
    map h: Handle | 0 <= h < 0x1_0000_0000 && Resolves(view, h) ::
      Decode(view[h % 0x1_0000], SerialAt(serials, h % 0x1_0000))
  }

  /** The handle of the span in slot s. */
  function HandleAt(view: View, s: nat): Handle {
    if s in view && s < 0x1_0000 then MakeHandle(view[s].rec.gen, s) else 0
  }

  lemma HandleParts(gen: u16, slot: u16)
    ensures MakeHandle(gen, slot) / 0x1_0000 == gen && MakeHandle(gen, slot) % 0x1_0000 == slot
  {}

  lemma PartsHandle(h: Handle)
    ensures 0 <= h / 0x1_0000 < 0x1_0000 && 0 <= h % 0x1_0000 < 0x1_0000
    ensures MakeHandle(h / 0x1_0000, h % 0x1_0000) == h
  {}

  /** A slot in use with a good generation is what its own handle leads to. */
  lemma HandleLeads(view: View, serials: map<nat, nat>, s: u16)
    requires s in view && view[s].rec.gen != 0
    ensures HandleAt(view, s) in HandleMap(view, serials)
    ensures HandleMap(view, serials)[HandleAt(view, s)] == Decode(view[s], SerialAt(serials, s))
  {
    hide Decode;
    HandleParts(view[s].rec.gen, s);
  }

  /** Rewriting one span, or filling a slot that was not in use, changes the map at that handle only. */
  lemma HandleMapPut(view: View, serials: map<nat, nat>, s: u16, v: SpanView, n: nat)
    requires v.rec.gen != 0
    requires s in view ==> view[s].rec.gen == v.rec.gen
    ensures HandleMap(view[s := v], serials[s := n])
         == HandleMap(view, serials)[MakeHandle(v.rec.gen, s) := Decode(v, n)]
  {
    hide HandleMap, Decode, MakeHandle;
    var m, m' := HandleMap(view, serials), HandleMap(view[s := v], serials[s := n]);
    var k := MakeHandle(v.rec.gen, s);
    forall h: Handle
      ensures h in m' <==> h in m || h == k
      ensures h in m' ==> m'[h] == if h == k then Decode(v, n) else m[h]
    {
      HandleAfterPut(view, serials, s, v, n, h);
    }
    assert m' == m[k := Decode(v, n)];
  }

  lemma HandleAfterPut(view: View, serials: map<nat, nat>, s: u16, v: SpanView, n: nat, h: Handle)
    requires v.rec.gen != 0
    requires s in view ==> view[s].rec.gen == v.rec.gen
    ensures var m, m' := HandleMap(view, serials), HandleMap(view[s := v], serials[s := n]);
            var k := MakeHandle(v.rec.gen, s);
            && (h in m' <==> h in m || h == k)
            && (h in m' ==> m'[h] == if h == k then Decode(v, n) else m[h])
  {
    hide Decode;
    HandleParts(v.rec.gen, s);
    PartsHandle(h);
  }

  lemma HandleMapSet(view: View, serials: map<nat, nat>, s: u16, v: SpanView)
    requires s in view && s in serials && v.rec.gen != 0 && view[s].rec.gen == v.rec.gen
    ensures HandleMap(view[s := v], serials)
         == HandleMap(view, serials)[MakeHandle(v.rec.gen, s) := Decode(v, serials[s])]
  {
    hide HandleMap;
    HandleMapPut(view, serials, s, v, serials[s]);
    assert serials == serials[s := serials[s]];
  }

  // ---------------------------------------------------------------- The end order

  /** The end order as handles. */
  function OrderOf(view: View, ended: seq<nat>): (r: seq<Handle>)
    ensures |r| == |ended|
  {
    seq(|ended|, i requires 0 <= i < |ended| => HandleAt(view, ended[i]))
  }

  /** The next_ended chain through the records visits exactly the ended slots, each once, in end order. */
  ghost predicate EndedOk(view: View, ended: seq<nat>, head: u16, tail: u16) {
    && NoDup(ended)
    && (forall k :: 0 <= k < |ended| ==>
          && ended[k] in view && ended[k] < NONE16
          && view[ended[k]].rec.state == SLOT_ENDED
          && view[ended[k]].rec.nextEnded == if k + 1 < |ended| then ended[k + 1] else NONE16)
    && (forall s :: s in view && view[s].rec.state == SLOT_ENDED ==> s in ended)
    && head == (if ended == [] then NONE16 else ended[0])
    && tail == (if ended == [] then NONE16 else ended[|ended| - 1])
  }

  lemma OrderSame(view: View, view': View, ended: seq<nat>)
    requires forall s <- ended :: s in view && s < 0x1_0000
    requires forall s <- ended :: s in view' && view'[s].rec.gen == view[s].rec.gen
    ensures OrderOf(view', ended) == OrderOf(view, ended)
  {}

  lemma EndedInView(view: View, ended: seq<nat>, head: u16, tail: u16)
    requires EndedOk(view, ended, head, tail)
    ensures forall s <- ended :: s in view && s < 0x1_0000 && view[s].rec.state == SLOT_ENDED
  {}

  lemma EndedStep(view: View, ended: seq<nat>, head: u16, tail: u16, k: nat)
    requires EndedOk(view, ended, head, tail) && k < |ended|
    ensures ended[k] in view && ended[k] < NONE16
    ensures view[ended[k]].rec.nextEnded == if k + 1 < |ended| then ended[k + 1] else NONE16
  {}

  lemma EndedStart(view: View, ended: seq<nat>, head: u16, tail: u16)
    requires EndedOk(view, ended, head, tail)
    ensures NoDup(ended) && head == if ended == [] then NONE16 else ended[0]
  {}

  /** A change to a span that is not ended, or to the items of any, leaves the end order alone. */
  lemma EndedAfterPut(view: View, ended: seq<nat>, head: u16, tail: u16, s: nat, v: SpanView)
    requires EndedOk(view, ended, head, tail) && s !in ended && v.rec.state != SLOT_ENDED
    ensures EndedOk(view[s := v], ended, head, tail)
  {}

  /** span_end: the slot becomes the last of the chain. */
  lemma EndedAfterEnd(view: View, ended: seq<nat>, head: u16, tail: u16, s: u16, v: SpanView, view': View)
    requires EndedOk(view, ended, head, tail) && s in view && view[s].rec.state != SLOT_ENDED && s < NONE16
    requires v.rec.state == SLOT_ENDED && v.rec.nextEnded == NONE16
    requires ended == [] ==> view' == view[s := v]
    requires ended != [] ==> tail in view && tail != s
    requires ended != [] ==> view' == view[s := v][tail := view[tail].(rec := view[tail].rec.(nextEnded := s))]
    ensures EndedOk(view', ended + [s], if ended == [] then s else head, s)
  {
    assert s !in ended;
    var ended': seq<nat> := ended + [s];
    if ended != [] { assert ended'[|ended| - 1] == tail; }
    forall k | 0 <= k < |ended'|
      ensures ended'[k] in view' && ended'[k] < NONE16 && view'[ended'[k]].rec.state == SLOT_ENDED
      ensures view'[ended'[k]].rec.nextEnded == if k + 1 < |ended'| then ended'[k + 1] else NONE16
    {
    }
  }

  // ---------------------------------------------------------------- All together

  ghost predicate SpansOk(view: View, serials: map<nat, nat>) {
    forall s :: s in view ==> SpanOk(view[s], serials, s)
  }

  predicate SpanOk(v: SpanView, serials: map<nat, nat>, s: nat) {
    && s < NONE16 && s in serials && v.rec.gen == GenOf(serials[s])
    && (v.rec.state == SLOT_OPEN || v.rec.state == SLOT_ENDED)
    && CountsOk(v)
  }

  /** Rewriting an open span, keeping it open, is a change at its handle and nowhere else. */
  lemma Rewrite(view: View, serials: map<nat, nat>, ended: seq<nat>, head: u16, tail: u16, s: u16, v: SpanView)
    requires SpansOk(view, serials) && EndedOk(view, ended, head, tail) && s in view
    requires view[s].rec.state == SLOT_OPEN && v.rec.state == SLOT_OPEN && v.rec.gen == view[s].rec.gen && CountsOk(v)
    ensures var view' := view[s := v];
            && SpansOk(view', serials) && EndedOk(view', ended, head, tail)
            && OrderOf(view', ended) == OrderOf(view, ended)
            && s in serials
            && HandleMap(view', serials) == HandleMap(view, serials)[HandleAt(view, s) := Decode(v, serials[s])]
  {
    hide CountsOk, Decode, HandleMap, OrderOf, EndedOk;
    assert SpanOk(view[s], serials, s);
    EndedInView(view, ended, head, tail);
    EndedAfterPut(view, ended, head, tail, s, v);
    EndedInView(view[s := v], ended, head, tail);
    OrderSame(view, view[s := v], ended);
    HandleMapSet(view, serials, s, v);
  }

  /** A span that starts in a free slot. */
  lemma Begin(view: View, serials: map<nat, nat>, ended: seq<nat>, head: u16, tail: u16, s: u16, v: SpanView, n: nat)
    requires SpansOk(view, serials) && EndedOk(view, ended, head, tail) && s !in view && s < NONE16
    requires v.rec.state == SLOT_OPEN && v.rec.gen == GenOf(n) && CountsOk(v)
    ensures var view', serials' := view[s := v], serials[s := n];
            && SpansOk(view', serials') && EndedOk(view', ended, head, tail)
            && OrderOf(view', ended) == OrderOf(view, ended)
            && MakeHandle(v.rec.gen, s) !in HandleMap(view, serials)
            && HandleMap(view', serials') == HandleMap(view, serials)[MakeHandle(v.rec.gen, s) := Decode(v, n)]
  {
    hide CountsOk, Decode, OrderOf, EndedOk;
    HandleParts(v.rec.gen, s);
    EndedInView(view, ended, head, tail);
    EndedAfterPut(view, ended, head, tail, s, v);
    EndedInView(view[s := v], ended, head, tail);
    OrderSame(view, view[s := v], ended);
    HandleMapPut(view, serials, s, v, n);
    var view' := view[s := v];
    forall t | t in view'
      ensures SpanOk(view'[t], serials[s := n], t)
    {
      if t != s { assert SpanOk(view[t], serials, t); }
    }
  }

  /** What span_end does to the view. */
  function EndView(view: View, ended: seq<nat>, tail: u16, s: u16, v: SpanView): View {
    if ended == [] || tail !in view then view[s := v]
    else view[s := v][tail := view[tail].(rec := view[tail].rec.(nextEnded := s))]
  }

  lemma EndedTail(view: View, ended: seq<nat>, head: u16, tail: u16, s: u16)
    requires EndedOk(view, ended, head, tail) && s in view && view[s].rec.state == SLOT_OPEN
    ensures tail == NONE16 <==> ended == []
    ensures ended != [] ==> tail in view && tail != s && tail in ended && view[tail].rec.state == SLOT_ENDED
    ensures s !in ended
  {}

  lemma Finish(view: View, serials: map<nat, nat>, ended: seq<nat>, head: u16, tail: u16, s: u16, v: SpanView)
    requires SpansOk(view, serials) && EndedOk(view, ended, head, tail) && s in view && s < NONE16
    requires view[s].rec.state == SLOT_OPEN && v.rec.state == SLOT_ENDED && v.rec.nextEnded == NONE16
    requires v.rec.gen == view[s].rec.gen && CountsOk(v)
    ensures var view' := EndView(view, ended, tail, s, v);
            && SpansOk(view', serials) && EndedOk(view', ended + [s], if ended == [] then s else head, s)
            && OrderOf(view', ended + [s]) == OrderOf(view, ended) + [HandleAt(view, s)]
            && s in serials
            && HandleMap(view', serials) == HandleMap(view, serials)[HandleAt(view, s) := Decode(v, serials[s])]
  {
    hide Decode, HandleMap, EndedOk, CountsOk;
    assert SpanOk(view[s], serials, s);
    EndedTail(view, ended, head, tail, s);
    var view1 := view[s := v];
    var view' := EndView(view, ended, tail, s, v);
    EndedAfterEnd(view, ended, head, tail, s, v, view');
    EndedInView(view, ended, head, tail);
    EndedInView(view', ended + [s], if ended == [] then s else head, s);
    HandleMapSet(view, serials, s, v);
    if ended != [] {
      var w := view[tail].(rec := view[tail].rec.(nextEnded := s));
      assert SpanOk(view[tail], serials, tail);
      SameDecode(view[tail], w, serials[tail]);
      HandleMapSet(view1, serials, tail, w);
      HandleMapSame(view, serials, s, v, tail);
    }
  }

  lemma SameDecode(v: SpanView, w: SpanView, n: nat)
    requires w == v.(rec := v.rec.(nextEnded := w.rec.nextEnded))
    ensures Decode(w, n) == Decode(v, n) && (CountsOk(v) ==> CountsOk(w))
  {
    hide Filter, KvsOf, EventsOf, LastData;
  }

  /** Storing what a handle already leads to changes nothing. */
  lemma HandleMapSame(view: View, serials: map<nat, nat>, s: u16, v: SpanView, t: u16)
    requires s in view && s in serials && v.rec.gen == view[s].rec.gen != 0
    requires t in view && t in serials && t != s && view[t].rec.gen != 0
    ensures var m := HandleMap(view[s := v], serials);
            m[MakeHandle(view[t].rec.gen, t) := Decode(view[t], serials[t])] == m
  {
    hide Decode;
    HandleLeads(view[s := v], serials, t);
  }

  // ---------------------------------------------------------------- Encoding

  function Released(view: View, ended: seq<nat>): View {
    map s | s in view && s !in ended :: view[s]
  }

  lemma ReleasedHandles(view: View, serials: map<nat, nat>, ended: seq<nat>, head: u16, tail: u16, h: Handle)
    requires SpansOk(view, serials) && EndedOk(view, ended, head, tail)
    ensures Resolves(Released(view, ended), h) <==> Resolves(view, h) && h !in OrderOf(view, ended)
  {
    hide CountsOk;
    PartsHandle(h);
    if Resolves(view, h) {
      var s := h % 0x1_0000;
      if s in ended {
        var i :| 0 <= i < |ended| && ended[i] == s;
        assert OrderOf(view, ended)[i] == h;
      }
      if h in OrderOf(view, ended) {
        var i :| 0 <= i < |ended| && OrderOf(view, ended)[i] == h;
        HandleParts(view[ended[i]].rec.gen, ended[i]);
      }
    }
  }

  /** Releasing the ended slots takes exactly the handles in the end order out of the map. */
  lemma ReleasedMap(view: View, serials: map<nat, nat>, ended: seq<nat>, head: u16, tail: u16)
    requires SpansOk(view, serials) && EndedOk(view, ended, head, tail)
    ensures var m, m' := HandleMap(view, serials), HandleMap(Released(view, ended), serials);
            m' == map h | h in m && h !in OrderOf(view, ended) :: m[h]
  {
    hide SpansOk, EndedOk, OrderOf, Decode;
    forall h: Handle
      ensures Resolves(Released(view, ended), h) <==> Resolves(view, h) && h !in OrderOf(view, ended)
    {
      ReleasedHandles(view, serials, ended, head, tail, h);
    }
  }

  lemma ReleasedOk(view: View, serials: map<nat, nat>, ended: seq<nat>, head: u16, tail: u16)
    requires SpansOk(view, serials) && EndedOk(view, ended, head, tail)
    ensures SpansOk(Released(view, ended), serials) && EndedOk(Released(view, ended), [], NONE16, NONE16)
  {
    hide CountsOk;
    var view' := Released(view, ended);
    forall s | s in view'
      ensures SpanOk(view'[s], serials, s)
    {
      assert SpanOk(view[s], serials, s);
    }
  }

  /** What a backend's cursor yields, span by span, decoded. */
  ghost function Decoded(batch: seq<SpanView>, ended: seq<nat>, serials: map<nat, nat>): (r: seq<Span>)
    requires |batch| == |ended|
    ensures |r| == |batch|
  {
    seq(|batch|, i requires 0 <= i < |batch| => Decode(batch[i], SerialAt(serials, ended[i])))
  }

  /** The spans the cursor visits are the ended spans of the map, in end order. */
  lemma BatchIsOrder(s: State, view: View, serials: map<nat, nat>, ended: seq<nat>, head: u16, tail: u16,
                     batch: seq<SpanView>)
    requires SpansOk(view, serials) && EndedOk(view, ended, head, tail)
    requires s.spans == HandleMap(view, serials) && s.order == OrderOf(view, ended)
    requires |batch| == |ended| && forall i :: 0 <= i < |ended| ==> ended[i] in view && batch[i] == view[ended[i]]
    ensures (forall h <- s.order :: h in s.spans) && SpansOf(s, s.order) == Decoded(batch, ended, serials)
  {
    hide CountsOk, Decode, HandleMap;
    forall i | 0 <= i < |ended|
      ensures s.order[i] in s.spans && s.spans[s.order[i]] == Decode(batch[i], SerialAt(serials, ended[i]))
    {
      assert SpanOk(view[ended[i]], serials, ended[i]);
      HandleLeads(view, serials, ended[i]);
    }
  }
}
