/**
 The leaf's public calls over the record buffer. Each is proved to be a step of LeafSpec: the
 byte buffer behaves like a map from handle to span.
 */
module Leaf {
  import opened Basics
  import opened RecordFormat
  import opened Layout
  import opened Compaction
  import opened Chains
  import opened Passes
  import opened ListOps
  import opened RecordBuffer
  import opened LeafSpec
  import opened LeafItems

  /** The record of the k-th ended slot points to the next one. */
  predicate NextSlot(slots: seq<SpanRec>, ended: seq<nat>, k: nat) {
    && k < |ended| && ended[k] < |slots|
    && slots[ended[k]].nextEnded == if k + 1 < |ended| then ended[k + 1] else NONE16
  }

  predicate StillSame(slots0: seq<SpanRec>, slots: seq<SpanRec>, but: seq<nat>) {
    |slots| == |slots0| && forall t :: 0 <= t < |slots| && t !in but ==> slots[t] == slots0[t]
  }

  lemma OneLess(slots0: seq<SpanRec>, slots: seq<SpanRec>, ended: seq<nat>, k: nat, r: SpanRec)
    requires k < |ended| && ended[k] < |slots| && StillSame(slots0, slots, ended[..k])
    ensures StillSame(slots0, slots[ended[k] := r], ended[..k + 1])
  {
    assert ended[..k + 1] == ended[..k] + [ended[k]];
  }

  /** A state with another span under one of its handles. */
  function Respan(s: State, h: Handle, x: Span): State { s.(spans := s.spans[h := x]) }

  class Leaf {
    const store: Buffer
    const limits: Limits
    var nextGen: u16
    var endedHead: u16
    var endedTail: u16
    var endedCount: nat
    var counters: Counters
    ghost var ended: seq<nat>          // slots, in end order
    ghost var serials: map<nat, nat>   // which span a slot holds
    ghost var started: nat
    ghost var payloads: seq<Payload>
    ghost var drops: Drops

    /** The leaf over a buffer whose Resource is in place. */
    constructor (store: Buffer, limits: Limits)
      requires store.Rep() && store.slots == [] && store.stack == [] && store.chains == []
      ensures this.store == store && this.limits == limits
      ensures Valid() && Initial(Abs())
    {
      this.store, this.limits := store, limits;
      nextGen := 1;
      endedHead, endedTail, endedCount := NONE16, NONE16, 0;
      counters := NO_DROPS;
      ended, serials, started := [], map[], 0;
      payloads, drops := [], Drops(0, 0, 0);
    }

    ghost predicate Valid()
      reads this, store, store.buf
    {
      && store.Valid()
      && nextGen == GenOf(started)
      && SpansOk(store.View(), serials)
      && EndedOk(store.View(), ended, endedHead, endedTail) && endedCount == |ended|
    }

    /** The slot holds an open span. */
    ghost predicate IsOpen(slot: nat)
      reads this, store
    {
      slot < store.slotCount && slot < |store.slots| && store.slots[slot].state == SLOT_OPEN && slot in store.View()
    }

    /** What the leaf means. */
    ghost function Abs(): State
      reads this, store
    {
      State(limits, HandleMap(store.View(), serials), OrderOf(store.View(), ended), started, counters, payloads, drops)
    }

    /** A slot in use is what the view shows. */
    lemma InView(s: nat)
      requires store.Valid() && s < store.slotCount
      ensures |store.chains| == |store.slots| == store.slotCount
      ensures s in store.View() <==> store.slots[s].state != SLOT_FREE
      ensures s in store.View() ==>
                store.View()[s] == SpanView(Bare(store.slots[s]), RawItems(store.stack, store.chains[s]))
    {
      hide Holds, Used, LinksOk, NoLeak, RawItems;
    }

    lemma ViewInTable()
      requires store.Valid()
      ensures forall s :: s in store.View() ==> s < store.slotCount
    {
      hide Holds, Used, LinksOk, NoLeak, RawItems;
    }

    /** resolve: a handle leads to a span in use, or to nothing. */
    method Resolve(handle: Handle) returns (ok: bool, slot: u16)
      requires Valid()
      ensures ok <==> handle in Abs().spans
      ensures ok ==> slot < store.slotCount && store.slots[slot].state != SLOT_FREE && slot in store.View()
      ensures ok ==> slot == handle % 0x1_0000 && HandleAt(store.View(), slot) == handle
    {
      hide Holds, Used, LinksOk, NoLeak, RawItems, SpansOk, EndedOk, Decode;
      PartsHandle(handle);
      ViewInTable();
      slot := handle % 0x1_0000;
      var gen := handle / 0x1_0000;
      if slot >= store.slotCount || gen == 0 {
        return false, slot;
      }
      var rec := store.GetSlot(slot);
      InView(slot);
      ok := rec.state != SLOT_FREE && rec.gen == gen;
    }

    /** resolve_open */
    method ResolveOpen(handle: Handle) returns (ok: bool, slot: u16)
      requires Valid()
      ensures ok <==> OpenAt(Abs(), handle)
      ensures ok ==> IsOpen(slot)
      ensures ok ==> slot == handle % 0x1_0000 && HandleAt(store.View(), slot) == handle
      ensures ok ==> Abs().spans[handle] == SpanIn(store.View(), serials, slot)
    {
      hide Holds, Used, LinksOk, NoLeak, RawItems, EndedOk, HandleMap, Filter, KvsOf, EventsOf, LastData;
      ok, slot := Resolve(handle);
      if ok {
        var rec := store.GetSlot(slot);
        InView(slot);
        assert SpanOk(store.View()[slot], serials, slot);
        HandleLeads(store.View(), serials, slot);
        ok := rec.state == SLOT_OPEN;
        StateKnown(slot);
      }
    }

    lemma StateKnown(s: nat)
      requires Valid() && s in store.View()
      ensures store.View()[s].rec.state == SLOT_OPEN || store.View()[s].rec.state == SLOT_ENDED
    {
      hide Holds, Used, LinksOk, NoLeak, RawItems, EndedOk, CountsOk;
      assert SpanOk(store.View()[s], serials, s);
    }

    /** What the records of a span in use say, and the counts in them. */
    lemma SpanKnown(s: nat)
      requires Valid() && s in store.View()
      ensures s in serials && s < NONE16 && SpanOk(store.View()[s], serials, s)
      ensures |Decode(store.View()[s], serials[s]).attrs| == store.View()[s].rec.attrCount
      ensures |Decode(store.View()[s], serials[s]).events| == store.View()[s].rec.eventCount
    {
      hide Holds, Used, LinksOk, NoLeak, RawItems, EndedOk, Filter;
    }

    /** The leaf before a call, as the fields that a call on one span leaves alone see it. */
    ghost predicate Was(view: View, was: State)
      reads this
    {
      && nextGen == GenOf(started) && SpansOk(view, serials)
      && EndedOk(view, ended, endedHead, endedTail) && endedCount == |ended|
      && was == State(limits, HandleMap(view, serials), OrderOf(view, ended), started, counters, payloads, drops)
    }

    /** Once the buffer shows an open span rewritten, the leaf means the old state with that span rewritten. */
    lemma Rewritten(view: View, was: State, slot: u16, v: SpanView)
      requires Was(view, was) && store.Valid() && store.View() == view[slot := v]
      requires slot in view && view[slot].rec.state == SLOT_OPEN && v.rec.state == SLOT_OPEN
      requires v.rec.gen == view[slot].rec.gen && CountsOk(v)
      ensures Valid()
      ensures Abs() == was.(spans := was.spans[HandleAt(view, slot) := Decode(v, SerialAt(serials, slot))])
    {
      hide Holds, Used, LinksOk, NoLeak, RawItems, EndedOk, SpansOk, HandleMap, Decode, OrderOf, CountsOk, HandleAt;
      Rewrite(view, serials, ended, endedHead, endedTail, slot, v);
    }

    /** Counts drops. */
    method CountDrops(spans: nat, attrs: nat, events: nat)
      modifies `counters, `drops
      ensures counters == old(Counters(Add32(counters.spans, spans), Add32(counters.attrs, attrs),
                                       Add32(counters.events, events)))
      ensures drops == old(Drops(drops.spans + spans, drops.attrs + attrs, drops.events + events))
    {
      counters := Counters(Add32(counters.spans, spans), Add32(counters.attrs, attrs), Add32(counters.events, events));
      drops := Drops(drops.spans + spans, drops.attrs + attrs, drops.events + events);
    }

    // ---------------------------------------------------------------- Attributes

    /** add_attr: the span has no attribute with this key yet. */
    method AddAttr(slot: u16, kv: KV) returns (r: Status)
      requires Valid() && IsOpen(slot)
      modifies `counters, `drops, store, store.buf
      ensures var a, x := old(Abs()), old(SpanIn(store.View(), serials, slot));
              if |x.attrs| >= limits.maxAttrs then r == ErrLimit && Abs() == Drop(a, 0, 1, 0)
              else if r == ErrNoSpace then Abs() == Drop(a, 0, 1, 0)
              else r == Ok && Abs() == Respan(a, old(HandleAt(store.View(), slot)), x.(attrs := x.attrs + [kv]))
      ensures r == ErrNoSpace ==> HDR_SIZE + KVSize(kv) > old(store.Room())
      ensures Valid()
    {
      hide Holds, Used, LinksOk, NoLeak, RawItems, EndedOk, HandleMap, Decode, OrderOf, LiveBytes, SlotOff, PackKV,
        CountsOk, SpansOk, HandleAt, Spans, Add32;
      ghost var view := store.View();
      ghost var was := Abs();
      InView(slot);
      SpanKnown(slot);
      var rec := store.GetSlot(slot);
      if rec.attrCount >= limits.maxAttrs {
        CountDrops(0, 1, 0);
        return ErrLimit;
      }
      var ok := store.AddItem(slot, CHUNK_ATTR, PackKV(kv));
      if !ok {
        CountDrops(0, 1, 0);
        return ErrNoSpace;
      }
      InView(slot);
      rec := store.GetSlot(slot);
      store.PutRec(slot, rec.(attrCount := rec.attrCount + 1));
      DecodeAddAttr(view[slot], kv, serials[slot]);
      Rewritten(view, was, slot, SpanView(view[slot].rec.(attrCount := view[slot].rec.attrCount + 1),
                                          view[slot].items + [Raw(CHUNK_ATTR, PackKV(kv))]));
      r := Ok;
    }

    /** Item p of the slot, at this offset, is its first attribute with this key. */
    ghost predicate FirstAttr(slot: nat, off: u32, key: seq<byte>, p: nat)
      reads this, store
    {
      && slot < |store.chains| && p < |store.chains[slot]|
      && FirstMatch(RawItems(store.stack, store.chains[slot]), CHUNK_ATTR, Some(key), p)
      && store.chains[slot][p] < |store.stack|
      && off == Off(store.stack, store.persistOff, store.chains[slot][p])
    }

    /** overwrite_attr: a new value for item p, the first attribute with this key. */
    method OverwriteAttr(slot: u16, off: u32, kv: KV, ghost p: nat) returns (r: Status)
      requires Valid() && IsOpen(slot)
      requires KVValid(kv) && FirstAttr(slot, off, kv.key, p)
      modifies `counters, `drops, store, store.buf
      ensures var a, x := old(Abs()), old(SpanIn(store.View(), serials, slot));
              && FirstKey(x.attrs, kv.key) < |x.attrs|
              && (r == Ok || r == ErrNoSpace)
              && (r == Ok ==>
                    Abs() == Respan(a, old(HandleAt(store.View(), slot)), x.(attrs := SetAttr(x.attrs, kv))))
      ensures r == ErrNoSpace ==> Abs() == Drop(old(Abs()), 0, 1, 0)
      ensures r == ErrNoSpace ==> HDR_SIZE + KVSize(kv) > old(store.Room())
      ensures Valid()
    {
      hide Holds, Used, LinksOk, NoLeak, RawItems, EndedOk, HandleMap, Decode, OrderOf, LiveBytes, SlotOff, PackKV,
        CountsOk, SpansOk, HandleAt, Spans, Add32, Off, FirstKey, Matches, SetAttr;
      ghost var view := store.View();
      ghost var was := Abs();
      InView(slot);
      SpanKnown(slot);
      ItemInBuffer(slot, p);
      KeyIsThere(view[slot], kv, p, serials[slot]);
      var ok := store.ReplaceItem(slot, off, CHUNK_ATTR, Some(kv.key), PackKV(kv), p);
      if !ok {
        CountDrops(0, 1, 0);
        return ErrNoSpace;
      }
      DecodeReplaceAttr(view[slot], kv, p, serials[slot]);
      Rewritten(view, was, slot, SpanView(view[slot].rec, view[slot].items[p := Raw(CHUNK_ATTR, PackKV(kv))]));
      r := Ok;
    }

    lemma KeyIsThere(v: SpanView, kv: KV, p: nat, n: nat)
      requires KVValid(kv) && FirstMatch(v.items, CHUNK_ATTR, Some(kv.key), p)
      ensures FirstKey(Decode(v, n).attrs, kv.key) == |Decode(v, n).attrs| <==> p == |v.items|
    {
      hide Filter, UnpackKV, FirstKey;
      FirstMatchIsFirstKey(v.items, kv.key, p);
      if p < |v.items| { FilterUpdate(v.items, p, v.items[p], CHUNK_ATTR); }
    }

    lemma ItemInBuffer(slot: nat, p: nat)
      requires store.Rep() && slot < |store.chains| && p < |store.chains[slot]| && store.chains[slot][p] < |store.stack|
      ensures store.Capacity(slot, p) < 0x1_0000_0000
    {
      hide HoldsSlots, HoldsChunks, Used;
      HoldsIsWf(store.buf[..], store.slots, store.stack, store.persistOff, store.chains[slot][p]);
    }

    method SetAttribute(span: Handle, kv: KV) returns (r: Status)
      requires Valid()
      modifies `counters, `drops, store, store.buf
      ensures Valid() && Step(old(Abs()), Call.SetAttribute(span, kv), r, span, Abs())
      ensures r == ErrNoSpace ==> HDR_SIZE + KVSize(kv) > old(store.Room())
    {
      hide Holds, Used, LinksOk, NoLeak, RawItems, EndedOk, HandleMap, Decode, OrderOf, LiveBytes, SlotOff, CountsOk,
        SpansOk, HandleAt, Spans, Drop, FirstKey, Matches, SetAttr, RefAt, Off;
      if kv.key == [] {
        return ErrArg;
      }
      var ok, slot := ResolveOpen(span);
      if !ok {
        return ErrState;
      }
      var existing, prev, p := store.FindChunk(slot, CHUNK_ATTR, Some(kv.key));
      InView(slot);
      KeyIsThere(store.View()[slot], kv, p, SerialAt(serials, slot));
      if existing != NONE32 {
        r := OverwriteAttr(slot, existing, kv, p);
      } else {
        SetNewAttr(Decode(store.View()[slot], SerialAt(serials, slot)).attrs, kv);
        r := AddAttr(slot, kv);
      }
    }

    lemma SetNewAttr(attrs: seq<KV>, kv: KV)
      ensures FirstKey(attrs, kv.key) == |attrs| ==> SetAttr(attrs, kv) == attrs + [kv]
    {}

    // ---------------------------------------------------------------- Events

    /** kvs_valid */
    static method KVsValid(attrs: seq<KV>) returns (ok: bool)
      ensures ok <==> forall kv :: kv in attrs ==> KVValid(kv)
    {
      var i := 0;
      while i < |attrs|
        invariant 0 <= i <= |attrs|
        invariant forall j :: 0 <= j < i ==> KVValid(attrs[j])
      {
        if attrs[i].key == [] {
          assert attrs[i] in attrs && !KVValid(attrs[i]);
          return false;
        }
        i := i + 1;
      }
      return true;
    }

    /** The part of add_event that stores the event. */
    method StoreEvent(slot: u16, e: Event) returns (r: Status)
      requires Valid() && IsOpen(slot)
      modifies `counters, `drops, store, store.buf
      ensures var a, x := old(Abs()), old(SpanIn(store.View(), serials, slot));
              if |x.events| >= limits.maxEvents then r == ErrLimit && Abs() == Drop(a, 0, 0, 1)
              else if r == ErrNoSpace then Abs() == Drop(a, 0, 0, 1)
              else r == Ok && Abs() == Respan(a, old(HandleAt(store.View(), slot)), x.(events := x.events + [e]))
      ensures r == ErrNoSpace ==> HDR_SIZE + EventSize(e) > old(store.Room())
      ensures Valid()
    {
      hide Holds, Used, LinksOk, NoLeak, RawItems, EndedOk, HandleMap, Decode, OrderOf, LiveBytes, SlotOff, CountsOk,
        SpansOk, HandleAt, Spans, PackEvent, EventSize, Add32;
      ghost var view := store.View();
      ghost var was := Abs();
      InView(slot);
      SpanKnown(slot);
      var rec := store.GetSlot(slot);
      if rec.eventCount >= limits.maxEvents {
        CountDrops(0, 0, 1);
        return ErrLimit;
      }
      var ok := store.AddItem(slot, CHUNK_EVENT, PackEvent(e));
      if !ok {
        CountDrops(0, 0, 1);
        return ErrNoSpace;
      }
      InView(slot);
      rec := store.GetSlot(slot);
      store.PutRec(slot, rec.(eventCount := rec.eventCount + 1));
      DecodeAddEvent(view[slot], e, serials[slot]);
      Rewritten(view, was, slot, SpanView(view[slot].rec.(eventCount := view[slot].rec.eventCount + 1),
                                          view[slot].items + [Raw(CHUNK_EVENT, PackEvent(e))]));
      r := Ok;
    }

    /** What a call to add an event has to do, in terms of the state before. */
    lemma EventIsStep(s: State, h: Handle, name: seq<byte>, attrs: seq<KV>, now: u64)
      ensures var c := Call.AddEvent(h, name, attrs, now);
              var kept := Kept(attrs, s.limits.maxEventAttrs);
              if exists kv :: kv in attrs && !KVValid(kv) then Step(s, c, ErrArg, h, s)
              else if !OpenAt(s, h) then Step(s, c, ErrState, h, s)
              else if |s.spans[h].events| >= s.limits.maxEvents then Step(s, c, ErrLimit, h, Drop(s, 0, 0, 1))
              else
                var x := s.spans[h].(events := s.spans[h].events + [Event(now, name, kept)]);
                && Step(s, c, ErrNoSpace, h, Drop(s, 0, 0, 1))
                && Step(s, c, Ok, h, Drop(s.(spans := s.spans[h := x]), 0, |attrs| - |kept|, 0))
    {
      hide KVValid, Add32;
    }

    method AddEvent(span: Handle, name: seq<byte>, attrs: seq<KV>, now: u64) returns (r: Status)
      requires Valid()
      modifies `counters, `drops, store, store.buf
      ensures Valid() && Step(old(Abs()), Call.AddEvent(span, name, attrs, now), r, span, Abs())
      ensures r == ErrNoSpace ==>
                HDR_SIZE + EventSize(Event(now, name, Kept(attrs, limits.maxEventAttrs))) > old(store.Room())
    {
      hide Holds, Used, LinksOk, NoLeak, RawItems, EndedOk, HandleMap, Decode, OrderOf, LiveBytes, SlotOff, CountsOk,
        SpansOk, HandleAt, Spans, EventSize, Add32, Step, KVValid;
      ghost var was := Abs();
      EventIsStep(was, span, name, attrs, now);
      var valid := KVsValid(attrs);
      if !valid {
        return ErrArg;
      }
      var ok, slot := ResolveOpen(span);
      if !ok {
        return ErrState;
      }
      var kept := Kept(attrs, limits.maxEventAttrs);
      r := StoreEvent(slot, Event(now, name, kept));
      if r == Ok {
        CountDrops(0, |attrs| - |kept|, 0);
      }
    }

    // ---------------------------------------------------------------- Status and end

    method SetStatus(span: Handle, code: byte, message: seq<byte>) returns (r: Status)
      requires Valid()
      modifies store, store.buf
      ensures Valid() && Step(old(Abs()), Call.SetStatus(span, code, message), r, span, Abs())
      ensures r == ErrNoSpace ==> message != [] && HDR_SIZE + |message| > old(store.Room())
    {
      hide Holds, Used, LinksOk, NoLeak, RawItems, EndedOk, HandleMap, Decode, OrderOf, LiveBytes, SlotOff, CountsOk,
        SpansOk, HandleAt, Spans, Matches;
      if code > 2 {
        return ErrArg;
      }
      var ok, slot := ResolveOpen(span);
      if !ok {
        return ErrState;
      }
      ghost var view := store.View();
      ghost var was := Abs();
      InView(slot);
      SpanKnown(slot);
      var stored, p := store.SetSingle(slot, CHUNK_STATUS, message);
      if !stored {
        return ErrNoSpace;
      }
      InView(slot);
      ghost var v := store.View()[slot];
      var rec := store.GetSlot(slot);
      store.PutRec(slot, rec.(statusCode := code));
      ghost var added := if message == [] then [] else [Raw(CHUNK_STATUS, message)];
      ghost var inPlace := v.items != Dropped(view[slot].items, p) + added;
      DecodeStatus(view[slot], message, code, p, inPlace, serials[slot]);
      Rewritten(view, was, slot, SpanView(view[slot].rec.(statusCode := code), v.items));
      r := Ok;
    }

    /** What a call to end a span has to do, in terms of the state before. */
    lemma EndIsStep(s: State, h: Handle, now: u64)
      ensures !OpenAt(s, h) ==> Step(s, Call.End(h, now), ErrState, h, s)
      ensures OpenAt(s, h) ==>
                var ended := s.spans[h].(ended := true, end := now);
                Step(s, Call.End(h, now), Ok, h, s.(spans := s.spans[h := ended], order := s.order + [h]))
    {}

    /** The record writes of span_end: the span itself, and the link from the last one ended. */
    method WriteEnd(slot: u16, now: u64)
      requires Valid() && IsOpen(slot)
      modifies store, store.buf
      ensures store.Valid()
      ensures var v := old(store.View()[slot]);
              store.View() == EndView(old(store.View()), ended, endedTail, slot,
                                      v.(rec := v.rec.(state := SLOT_ENDED, end := now, nextEnded := NONE16)))
    {
      hide Holds, Used, LinksOk, NoLeak, RawItems, EndedOk, SpansOk, Spans;
      InView(slot);
      ViewInTable();
      EndedTail(store.View(), ended, endedHead, endedTail, slot);
      var rec := store.GetSlot(slot);
      store.PutRec(slot, rec.(state := SLOT_ENDED, end := now, nextEnded := NONE16));
      if endedTail != NONE16 {
        InView(endedTail);
        var tail := store.GetSlot(endedTail);
        store.PutRec(endedTail, tail.(nextEnded := slot));
      }
    }

    /** span_end on the slot of an open span. */
    method EndSlot(slot: u16, now: u64)
      requires Valid() && IsOpen(slot)
      modifies `endedHead, `endedTail, `endedCount, `ended, store, store.buf
      ensures var a, h, x := old(Abs()), old(HandleAt(store.View(), slot)), old(SpanIn(store.View(), serials, slot));
              Abs() == Respan(a, h, x.(ended := true, end := now)).(order := a.order + [h])
      ensures Valid()
    {
      hide Holds, Used, LinksOk, NoLeak, RawItems, EndedOk, HandleMap, OrderOf, SpansOk, HandleAt, Spans, Decode,
        CountsOk, EndView;
      ghost var view := store.View();
      InView(slot);
      SpanKnown(slot);
      EndedTail(view, ended, endedHead, endedTail, slot);
      DecodeEnd(view[slot], now, serials[slot]);
      Finish(view, serials, ended, endedHead, endedTail, slot,
             view[slot].(rec := view[slot].rec.(state := SLOT_ENDED, end := now, nextEnded := NONE16)));
      WriteEnd(slot, now);
      if endedTail == NONE16 {
        endedHead := slot;
      }
      endedTail := slot;
      endedCount := endedCount + 1;
      ended := ended + [slot];
    }

    /** span_end */
    method End(span: Handle, now: u64) returns (r: Status)
      requires Valid()
      modifies `endedHead, `endedTail, `endedCount, `ended, store, store.buf
      ensures Valid() && Step(old(Abs()), Call.End(span, now), r, span, Abs())
    {
      hide Holds, Used, LinksOk, NoLeak, RawItems, EndedOk, HandleMap, OrderOf, SpansOk, HandleAt, Spans, Decode, Step;
      EndIsStep(Abs(), span, now);
      var ok, slot := ResolveOpen(span);
      if !ok {
        return ErrState;
      }
      EndSlot(slot, now);
      r := Ok;
    }

    // ---------------------------------------------------------------- Start

    method NextGeneration() returns (gen: u16)
      requires nextGen == GenOf(started)
      modifies `nextGen, `started
      ensures gen == old(nextGen) && nextGen == GenOf(started) && started == old(started) + 1
    {
      gen := nextGen;
      nextGen := if gen == NONE16 then 1 else gen + 1;
      NextGen(started);
      started := started + 1;
    }

    lemma NextGen(n: nat)
      ensures GenOf(n + 1) == if GenOf(n) == NONE16 then 1 else GenOf(n) + 1
    {}

    /** A record, unless a slot is free, and a name, unless it is empty, do not fit together. */
    ghost predicate NoRoomToStart(name: seq<byte>)
      reads this, store
    {
      var chunk := if name == [] then 0 else HDR_SIZE + |name|;
      if store.AllTaken() then store.slotCount == NONE16 || REC_SIZE + chunk > store.Room()
      else chunk > 0 && chunk > store.Room()
    }

    /** The storage side of start_span: a slot and a name, or nothing. */
    method PlaceSpan(rec: SpanRec, name: seq<byte>) returns (ok: bool, slot: u16)
      requires store.Valid() && rec.state == SLOT_OPEN && rec.head == NONE32 && rec.tail == NONE32
      modifies store, store.buf
      ensures store.Valid() && (ok <==> !old(NoRoomToStart(name)))
      ensures !ok ==> store.View() == old(store.View())
      ensures ok ==> slot < NONE16 && slot !in old(store.View())
      ensures ok ==> store.View() == old(store.View())[slot := NewView(rec, name)]
    {
      hide Holds, Used, LinksOk, NoLeak, RawItems, Spans, LiveBytes, LiveReached;
      slot := store.AcquireSlot();
      ok := slot != NONE16;
      if ok {
        InView(slot);
        ok := store.BeginSpan(slot, rec, name);
      }
      if !ok {
        NoLeakIsEnough(store.slots, store.stack, store.chains);
        store.TrimSlots();
      }
    }

    /** start_span, with the ids and the clock reading it would obtain. */
    method StartSpan(name: seq<byte>, kind: byte, trace: Id16, id: Id8, parent: Option<Id8>, now: u64)
      returns (r: Status, h: Handle)
      requires Valid()
      modifies this, store, store.buf
      ensures Valid()
      ensures r == if old(NoRoomToStart(name)) then ErrNoSpace else Ok
      ensures r == ErrNoSpace ==> Abs() == Drop(old(Abs()), 1, 0, 0)
      ensures r == Ok ==> Started(old(Abs()), Abs(), h, NewSpan(old(Abs()), name, kind, trace, id, parent, now))
    {
      hide Holds, Used, LinksOk, NoLeak, RawItems, EndedOk, HandleMap, OrderOf, SpansOk, HandleAt, Spans, Decode,
        CountsOk, LiveBytes, Add32, NewView;
      ghost var view := store.View();
      ghost var was := Abs();
      var rec := NewRec(trace, id, parent, kind, nextGen, now);
      var ok, slot := PlaceSpan(rec, name);
      if !ok {
        CountDrops(1, 0, 0);
        return ErrNoSpace, 0;
      }
      ghost var n := started;
      DecodeNewborn(was, trace, id, parent, kind, nextGen, now, name);
      NewViewRec(rec, name);
      Begin(view, serials, ended, endedHead, endedTail, slot, NewView(rec, name), n);
      var gen := NextGeneration();
      serials := serials[slot := n];
      HandleParts(gen, slot);
      h := MakeHandle(gen, slot);
      r := Ok;
    }

    lemma NewViewRec(r: SpanRec, name: seq<byte>)
      ensures NewView(r, name).rec == Bare(r)
    {}

    /** span_start: the parent, if any, is a span of this leaf that is open or ended. */
    method Start(name: seq<byte>, kind: byte, parent: Option<Handle>, newTrace: Id16, newSpan: Id8, now: u64)
      returns (r: Status, h: Handle)
      requires Valid()
      modifies this, store, store.buf
      ensures Valid() && Step(old(Abs()), Call.Start(name, kind, parent, newTrace, newSpan, now), r, h, Abs())
      ensures r == Ok || r == ErrNoSpace ==> (r == ErrNoSpace <==> old(NoRoomToStart(name)))
    {
      hide Holds, Used, LinksOk, NoLeak, RawItems, EndedOk, HandleMap, OrderOf, SpansOk, Spans, Filter, KvsOf,
        EventsOf, LastData;
      if !(1 <= kind <= 5) {
        return ErrArg, 0;
      }
      if parent.None? {
        r, h := StartSpan(name, kind, newTrace, newSpan, None, now);
        return;
      }
      var ok, slot := Resolve(parent.value);
      if !ok {
        return ErrState, 0;
      }
      InView(slot);
      SpanKnown(slot);
      HandleLeads(store.View(), serials, slot);
      var rec := store.GetSlot(slot);
      r, h := StartSpan(name, kind, rec.traceId, newSpan, Some(rec.spanId), now);
    }

    /** span_start_remote: the parent came from upstream. */
    method StartRemote(name: seq<byte>, kind: byte, trace: Id16, parent: Id8, newSpan: Id8, now: u64)
      returns (r: Status, h: Handle)
      requires Valid()
      modifies this, store, store.buf
      ensures Valid() && Step(old(Abs()), Call.StartRemote(name, kind, trace, parent, newSpan, now), r, h, Abs())
      ensures r == Ok || r == ErrNoSpace ==> (r == ErrNoSpace <==> old(NoRoomToStart(name)))
    {
      hide Holds, Used, LinksOk, NoLeak, RawItems, EndedOk, HandleMap, OrderOf, SpansOk, Spans;
      if !(1 <= kind <= 5) || AllZero(trace) || AllZero(parent) {
        return ErrArg, 0;
      }
      r, h := StartSpan(name, kind, trace, newSpan, Some(parent), now);
    }

    // ---------------------------------------------------------------- Encode

    /** What next_span, next_attr and next_event give a backend: every ended span, in end order. */
    method Collect() returns (batch: seq<SpanView>)
      requires Valid()
      ensures |batch| == |ended|
      ensures forall i :: 0 <= i < |ended| ==> ended[i] in store.View() && batch[i] == store.View()[ended[i]]
    {
      hide Holds, Used, LinksOk, NoLeak, RawItems, SpansOk, Spans, EndedOk;
      ViewInTable();
      EndedStart(store.View(), ended, endedHead, endedTail);
      batch := [];
      var slot := endedHead;
      ghost var k: nat := 0;
      while slot != NONE16
        invariant k <= |ended| && slot == if k < |ended| then ended[k] else NONE16
        invariant |batch| == k
        invariant forall i :: 0 <= i < k ==> ended[i] in store.View() && batch[i] == store.View()[ended[i]]
        decreases |ended| - k
      {
        EndedStep(store.View(), ended, endedHead, endedTail, k);
        InView(slot);
        var rec := store.GetSlot(slot);
        var items := store.ReadItems(slot);
        batch := batch + [SpanView(Bare(rec), items)];
        slot := rec.nextEnded;
        k := k + 1;
      }
      if k < |ended| { EndedStep(store.View(), ended, endedHead, endedTail, k); }
    }

    /** The first loop of release_ended: every ended span gives up its slot. */
    method FreeEnded()
      requires Valid()
      modifies store, store.buf
      ensures store.Rep() && LinksOk(store.slots, store.stack, store.persistOff, store.chains)
      ensures LiveReached(store.slots, store.stack, store.chains) && |store.chains| == |store.slots|
      ensures store.View() == Released(old(store.View()), ended)
    {
      hide Holds, Used, LinksOk, NoLeak, LiveReached, RawItems, SpansOk, Spans, EndedOk, Released, NoDup;
      ghost var view := store.View();
      ghost var slots0 := store.slots;
      ghost var n := store.slotCount;
      NoLeakIsEnough(store.slots, store.stack, store.chains);
      ChainSlots();
      var slot := endedHead;
      ghost var k: nat := 0;
      assert ended[..0] == [];
      ReleaseNone(view);
      while slot != NONE16
        invariant k <= |ended| && slot == if k < |ended| then ended[k] else NONE16
        invariant store.Rep() && LinksOk(store.slots, store.stack, store.persistOff, store.chains)
        invariant LiveReached(store.slots, store.stack, store.chains) && |store.chains| == |store.slots|
        invariant store.slotCount == n && |store.slots| == |slots0|
        invariant StillSame(slots0, store.slots, ended[..k])
        invariant store.View() == Released(view, ended[..k])
        decreases |ended| - k
      {
        NotYetFreed(ended, k);
        assert NextSlot(slots0, ended, k);
        var rec := store.GetSlot(slot);
        OneLess(slots0, store.slots, ended, k, rec.(state := SLOT_FREE));
        store.FreeSlot(slot, rec.(state := SLOT_FREE));
        slot := rec.nextEnded;
        ReleaseOne(view, ended, k);
        k := k + 1;
      }
      assert ended[..|ended|] == ended;
    }

    lemma ChainSlots()
      requires Valid()
      ensures NoDup(ended)
      ensures endedHead == if ended == [] then NONE16 else ended[0]
      ensures forall k :: 0 <= k < |ended| ==>
                && ended[k] < store.slotCount && ended[k] < NONE16
                && NextSlot(store.slots, ended, k)
    {
      hide Holds, Used, LinksOk, NoLeak, RawItems, SpansOk, EndedOk, Spans, NoDup;
      ViewInTable();
      EndedStart(store.View(), ended, endedHead, endedTail);
      forall k | 0 <= k < |ended|
        ensures ended[k] < store.slotCount && ended[k] < NONE16 && NextSlot(store.slots, ended, k)
      {
        EndedStep(store.View(), ended, endedHead, endedTail, k);
        InView(ended[k]);
      }
    }

    lemma NotYetFreed(ended: seq<nat>, k: nat)
      requires k < |ended| && NoDup(ended)
      ensures ended[k] !in ended[..k]
    {}

    lemma ReleaseNone(view: View)
      ensures Released(view, []) == view
    {}

    lemma ReleaseOne(view: View, ended: seq<nat>, k: nat)
      requires k < |ended|
      ensures Released(view, ended[..k]) - {ended[k]} == Released(view, ended[..k + 1])
    {
      assert ended[..k + 1] == ended[..k] + [ended[k]];
    }

    /** Nothing can be reclaimed: the table ends with a span in use and the chunks are all live. */
    ghost predicate Packed()
      reads this, store
    {
      && (store.slotCount > 0 ==> store.slotCount - 1 in store.View())
      && store.dataLow == store.persistOff - LiveBytes(store.slots, store.stack)
    }

    lemma LastInView()
      requires |store.chains| == |store.slots| == store.slotCount
      requires store.slotCount > 0 ==> store.slots[store.slotCount - 1].state != SLOT_FREE
      ensures store.slotCount > 0 ==> store.slotCount - 1 in store.View()
    {
      hide RawItems;
    }

    /** The storage side of release_ended: the encoded spans leave, and their space is reclaimed at once. */
    method Reclaim()
      requires Valid()
      modifies store, store.buf
      ensures store.Valid() && store.View() == Released(old(store.View()), ended)
      ensures Packed()
    {
      hide Holds, Used, LinksOk, NoLeak, LiveReached, RawItems, SpansOk, Spans, EndedOk, LiveBytes, SameSpans, Released;
      FreeEnded();
      store.TrimSlots();
      LastInView();
      ghost var slots1, stack1, chains1 := store.slots, store.stack, store.chains;
      store.Compact();
      SpansSame(slots1, stack1, chains1, store.slots, store.stack, store.chains);
      ChainsMatch();
    }

    /** release_ended */
    method ReleaseEnded(ghost p: Payload)
      requires Valid()
      modifies `endedHead, `endedTail, `endedCount, `counters, `ended, `payloads, store, store.buf
      ensures Valid()
      ensures Abs() == old(Abs()).(spans := map h | h in old(Abs()).spans && h !in old(Abs()).order ::
                                     old(Abs()).spans[h],
                                   order := [], counters := NO_DROPS, payloads := old(Abs()).payloads + [p])
      ensures Packed()
    {
      hide Holds, Used, LinksOk, NoLeak, RawItems, SpansOk, Spans, EndedOk, LiveBytes, HandleMap, Released;
      ghost var view := store.View();
      ReleasedMap(view, serials, ended, endedHead, endedTail);
      ReleasedOk(view, serials, ended, endedHead, endedTail);
      Reclaim();
      endedHead, endedTail, endedCount := NONE16, NONE16, 0;
      ended := [];
      counters := NO_DROPS;
      payloads := payloads + [p];
    }

    lemma ChainsMatch()
      requires LinksOk(store.slots, store.stack, store.persistOff, store.chains)
      ensures |store.chains| == |store.slots|
    {
      hide ChainOk;
    }

    /** encode: what the backend was given, and what became of it. */
    method Encode(backend: Status) returns (r: Status, batch: seq<SpanView>)
      requires Valid()
      modifies `endedHead, `endedTail, `endedCount, `counters, `ended, `payloads, store, store.buf
      ensures Valid() && Step(old(Abs()), Call.Encode(backend), r, 0, Abs())
      ensures |batch| == |old(Abs()).order|
      ensures r == Ok ==> Packed()
      ensures r == Ok ==> |payloads| > 0 && payloads[|payloads| - 1].spans == Decoded(batch, old(ended), serials)
    {
      hide Holds, Used, LinksOk, NoLeak, RawItems, SpansOk, Spans, EndedOk, HandleMap, LiveBytes, OrderOf, SpansOf,
        Decoded;
      ghost var was := Abs();
      batch := Collect();
      ghost var spans := Decoded(batch, ended, serials);
      BatchIsOrder(was, store.View(), serials, ended, endedHead, endedTail, batch);
      if backend != Ok {
        return backend, batch;
      }
      ReleaseEnded(Payload(spans, counters.spans, counters.attrs + counters.events));
      r := Ok;
    }
  }
}
