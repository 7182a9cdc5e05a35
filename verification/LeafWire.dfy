/**
 What a receiver can rely on in the bytes of a payload: wall times, the reserved Resource
 attributes, and spans as the calls made them, child and parent in one trace.
 */
module LeafWire {
  import opened Basics
  import opened RecordFormat
  import opened LeafSpec
  import opened LeafHistory
  import opened Protobuf
  import opened ProtobufReader
  import LeafSize

  const WORD := 0x1_0000_0000_0000_0000

  /** The leaf's times are tied to wall time by a sync. */
  predicate Synced(c: Config, sync: Option<Sync>) { c.mode.SyncRelative? && sync.Some? }

  /** A time on the wire is as far from the wall time of the sync as the stored one from its leaf time. */
  predicate TimeLaw(c: Config, sync: Option<Sync>, sent: u64, stored: u64) {
    if Synced(c, sync) then (sent - sync.value.unixNs) % WORD == (stored - sync.value.leafNs) % WORD
    else sent == stored
  }

  /** The request an encode produces, read back. */
  function Got(c: Config, sync: Option<Sync>, now: u64, counters: Counters, spans: seq<Span>): Option<Received> {
    ReadRequest(Request(BuildBatch(c, sync, now, counters, spans)))
  }

  // ---------------------------------------------------------------- Arithmetic of 64-bit times

  lemma WholeWords(x: int, y: int)
    requires x == y || x == y + WORD || x == y - WORD
    ensures x % WORD == y % WORD
  {}

  lemma Wrap(x: int)
    requires -WORD < x < 2 * WORD
    ensures x % WORD == if x < 0 then x + WORD else if x >= WORD then x - WORD else x
  {}

  lemma ShiftedTime(t: u64, sync: Sync)
    ensures (Plus64(t, Minus64(sync.unixNs, sync.leafNs)) - sync.unixNs) % WORD == (t - sync.leafNs) % WORD
  {
    var offset := Minus64(sync.unixNs, sync.leafNs);
    Wrap(sync.unixNs - sync.leafNs);
    Wrap(t + offset);
    WholeWords(Plus64(t, offset) - sync.unixNs, t - sync.leafNs);
  }

  lemma Signed(n: u64)
    ensures AsInt64(n) % WORD == n
  {}

  lemma OffsetKeepsLaw(c: Config, sync: Option<Sync>, t: u64)
    ensures TimeLaw(c, sync, Plus64(t, Offset(c, sync)), t)
  {
    hide Plus64, Minus64;
    if Synced(c, sync) {
      ShiftedTime(t, sync.value);
    } else {
      NoShift(t);
    }
  }

  lemma NoShift(t: u64)
    ensures Plus64(t, 0) == t
  {}

  // ---------------------------------------------------------------- Spans on the wire

  /** A span as sent: everything a caller gave it, its times under the law. */
  predicate SentAs(w: WireSpan, x: Span, c: Config, sync: Option<Sync>) {
    && w.traceId == x.traceId && w.spanId == x.spanId
    && w.parentId == (if x.parentId.Some? then Some(x.parentId.value) else None)
    && w.name == x.name && w.kind == x.kind && w.attrs == x.attrs
    && w.statusCode == x.statusCode && w.message == x.message
    && TimeLaw(c, sync, w.start, x.start) && TimeLaw(c, sync, w.end, x.end)
    && |w.events| == |x.events|
    && forall i :: 0 <= i < |x.events| ==> EventSentAs(w.events[i], x.events[i], c, sync)
  }

  predicate EventSentAs(w: Event, e: Event, c: Config, sync: Option<Sync>) {
    w.name == e.name && w.attrs == e.attrs && TimeLaw(c, sync, w.time, e.time)
  }

  lemma OnWireIsSentAs(x: Span, c: Config, sync: Option<Sync>)
    ensures SentAs(OnWire(x, Offset(c, sync)), x, c, sync)
  {
    hide TimeLaw, Plus64, Offset;
    OffsetKeepsLaw(c, sync, x.start);
    OffsetKeepsLaw(c, sync, x.end);
    forall i | 0 <= i < |x.events|
      ensures EventSentAs(EventsOnWire(x.events, Offset(c, sync))[i], x.events[i], c, sync)
    {
      OffsetKeepsLaw(c, sync, x.events[i].time);
    }
  }

  /** Every span of a payload is read back from its bytes in order, with its times on the right clock. */
  lemma SpansArrive(c: Config, sync: Option<Sync>, now: u64, counters: Counters, spans: seq<Span>)
    ensures Got(c, sync, now, counters, spans).Some?
    ensures |Got(c, sync, now, counters, spans).value.spans| == |spans|
    ensures var r := Got(c, sync, now, counters, spans).value;
            && c.resource <= r.resource && |r.resource| <= |c.resource| + 7
            && r.scopeName == c.scopeName && r.scopeVersion == c.scopeVersion
    ensures forall i :: 0 <= i < |spans| ==>
              SentAs(Got(c, sync, now, counters, spans).value.spans[i], spans[i], c, sync)
  {
    hide ReadRequest, Request, Reserved, OnWire, SentAs;
    RequestRoundTrip(BuildBatch(c, sync, now, counters, spans));
    ReservedAtMost(c, sync, now, counters);
    forall i | 0 <= i < |spans|
      ensures SentAs(Got(c, sync, now, counters, spans).value.spans[i], spans[i], c, sync)
    {
      OnWireIsSentAs(spans[i], c, sync);
    }
  }

  // ---------------------------------------------------------------- Reserved attributes

  /** An attribute that is there or not, with its 64-bit value. */
  datatype Item = Item(present: bool, key: seq<byte>, value: u64)

  function Piece(x: Item): seq<KV> { if x.present then [KV(x.key, Int64(AsInt64(x.value)))] else [] }

  function Flat(items: seq<Item>): seq<KV> {
    if items == [] then [] else Flat(items[..|items| - 1]) + Piece(items[|items| - 1])
  }

  function Shown(x: Item): Option<Value> { if x.present then Some(Int64(AsInt64(x.value))) else None }

  lemma LookupSum(a: seq<KV>, b: seq<KV>, key: seq<byte>)
    ensures Lookup(a + b, key) == if Lookup(a, key).Some? then Lookup(a, key) else Lookup(b, key)
  {
    var i := FirstKey(a, key);
    FirstKeyIs(a + b, key, if i < |a| then i else |a| + FirstKey(b, key));
  }

  lemma LookupOne(kv: KV, key: seq<byte>)
    ensures Lookup([kv], key) == if kv.key == key then Some(kv.value) else None
    ensures Lookup([], key) == None
  {
    FirstKeyIs([kv], key, if kv.key == key then 0 else 1);
  }

  lemma LookupPiece(x: Item, key: seq<byte>)
    ensures Lookup(Piece(x), key) == if x.key == key then Shown(x) else None
  {
    hide Lookup, AsInt64;
    LookupOne(KV(x.key, Int64(AsInt64(x.value))), key);
  }

  lemma {:induction false} FlatAbsent(items: seq<Item>, key: seq<byte>)
    requires forall i :: 0 <= i < |items| ==> items[i].key != key
    ensures Lookup(Flat(items), key) == None
  {
    hide Lookup, Piece, Shown;
    if items == [] {
      LookupOne(KV([], Bool(false)), key);
    } else {
      var init, x := items[..|items| - 1], items[|items| - 1];
      FlatAbsent(init, key);
      LookupPiece(x, key);
      LookupSum(Flat(init), Piece(x), key);
    }
  }

  /** With different keys, each item is found under its own, if it is there. */
  lemma {:induction false} FlatLookup(items: seq<Item>, k: nat)
    requires k < |items| && forall i, j :: 0 <= i < j < |items| ==> items[i].key != items[j].key
    ensures Lookup(Flat(items), items[k].key) == Shown(items[k])
    decreases |items|
  {
    hide Lookup, Piece, Shown;
    var n := |items| - 1;
    var init, x, key := items[..n], items[n], items[k].key;
    LookupPiece(x, key);
    LookupSum(Flat(init), Piece(x), key);
    if k == n {
      FlatAbsent(init, key);
    } else {
      FlatLookup(init, k);
    }
  }

  const PROTO := "microtel.leaf.proto"
  const TIME_MODE := "microtel.leaf.time_mode"
  const ENCODE_TIME := "microtel.leaf.encode_time"
  const SYNC_AGE := "microtel.leaf.sync_age"
  const BOOT_ID := "microtel.leaf.boot_id"
  const DROPPED_SPANS := "microtel.leaf.dropped_spans"
  const DROPPED_ITEMS := "microtel.leaf.dropped_items"

  function LeafTime(sync: Option<Sync>): u64 { if sync.Some? then sync.value.leafNs else 0 }

  function ReservedItems(c: Config, sync: Option<Sync>, now: u64, counters: Counters): (r: seq<Item>)
    ensures |r| == 7
  {
    [Item(true, Ascii(PROTO), 1),
     Item(true, Ascii(TIME_MODE), ModeCode(EffectiveMode(c, sync))),
     Item(c.hasClock, Ascii(ENCODE_TIME), Plus64(now, Offset(c, sync))),
     Item(Synced(c, sync), Ascii(SYNC_AGE), Minus64(now, LeafTime(sync))),
     Item(c.mode.BootRelative?, Ascii(BOOT_ID), c.bootId),
     Item(counters.spans > 0, Ascii(DROPPED_SPANS), counters.spans),
     Item(counters.attrs + counters.events > 0, Ascii(DROPPED_ITEMS), counters.attrs + counters.events)]
  }

  /** The seven keys are different: six by their lengths. */
  lemma KeysAreDistinct(c: Config, sync: Option<Sync>, now: u64, counters: Counters)
    ensures var items := ReservedItems(c, sync, now, counters);
            forall i, j :: 0 <= i < j < |items| ==> items[i].key != items[j].key
  {
    hide Plus64, Minus64, ModeCode;
    assert |PROTO| == 19 && |TIME_MODE| == 23 && |ENCODE_TIME| == 25 && |SYNC_AGE| == 22 && |BOOT_ID| == 21;
    assert |DROPPED_SPANS| == 27 && |DROPPED_ITEMS| == 27;
    assert Ascii(DROPPED_SPANS)[22] == 's' as int % 0x80 && Ascii(DROPPED_ITEMS)[22] == 'i' as int % 0x80;
  }

  lemma FlatSnoc(items: seq<Item>, x: Item)
    ensures Flat(items + [x]) == Flat(items) + Piece(x)
  {
    assert (items + [x])[..|items|] == items;
  }

  lemma FlatOfSeven(a: Item, b: Item, c: Item, d: Item, e: Item, f: Item, g: Item)
    ensures Flat([a, b, c, d, e, f, g])
         == Piece(a) + Piece(b) + Piece(c) + Piece(d) + Piece(e) + Piece(f) + Piece(g)
  {
    hide Flat, Piece;
    FlatNone();
    FlatSnoc([], a);
    FlatSnoc([a], b);
    FlatSnoc([a, b], c);
    FlatSnoc([a, b, c], d);
    FlatSnoc([a, b, c, d], e);
    FlatSnoc([a, b, c, d, e], f);
    FlatSnoc([a, b, c, d, e, f], g);
    assert [] + [a] == [a] && [a] + [b] == [a, b] && [a, b] + [c] == [a, b, c] && [a, b, c] + [d] == [a, b, c, d];
    assert [a, b, c, d] + [e] == [a, b, c, d, e] && [a, b, c, d, e] + [f] == [a, b, c, d, e, f];
    assert [a, b, c, d, e, f] + [g] == [a, b, c, d, e, f, g] && [] + Piece(a) == Piece(a);
  }

  lemma FlatNone()
    ensures Flat([]) == []
  {}

  lemma ReservedIsFlat(c: Config, sync: Option<Sync>, now: u64, counters: Counters)
    ensures Reserved(c, sync, now, counters) == Flat(ReservedItems(c, sync, now, counters))
  {
    hide Flat, Ascii, AsInt64, Plus64, Minus64, ModeCode;
    var r := ReservedItems(c, sync, now, counters);
    FlatOfSeven(r[0], r[1], r[2], r[3], r[4], r[5], r[6]);
    assert r == [r[0], r[1], r[2], r[3], r[4], r[5], r[6]];
    var two := [ReservedKV(PROTO, 1), ReservedKV(TIME_MODE, ModeCode(EffectiveMode(c, sync)))];
    assert two == Piece(r[0]) + Piece(r[1]);
  }

  /** What stands under a reserved key, by its place among the seven. */
  lemma ReservedAt(c: Config, sync: Option<Sync>, now: u64, counters: Counters, k: nat)
    requires k < 7
    ensures var items := ReservedItems(c, sync, now, counters);
            Lookup(Reserved(c, sync, now, counters), items[k].key) == Shown(items[k])
  {
    hide Reserved, ReservedItems, Lookup;
    ReservedIsFlat(c, sync, now, counters);
    KeysAreDistinct(c, sync, now, counters);
    FlatLookup(ReservedItems(c, sync, now, counters), k);
  }

  lemma AsciiPrefix(a: string, b: string)
    requires a <= b
    ensures Ascii(a) <= Ascii(b)
  {}

  /** No configured attribute can stand in for a reserved one. */
  lemma ConfiguredAreOthers(c: Config, key: seq<byte>)
    requires LeafSize.ConfigValid(c) && Ascii(LeafSize.RESERVED_PREFIX) <= key
    ensures Lookup(c.resource, key) == None
  {
    hide Ascii;
    FirstKeyIs(c.resource, key, |c.resource|);
  }

  lemma ReservedPrefixes()
    ensures forall k <- [PROTO, TIME_MODE, ENCODE_TIME, SYNC_AGE, BOOT_ID, DROPPED_SPANS, DROPPED_ITEMS] ::
              Ascii(LeafSize.RESERVED_PREFIX) <= Ascii(k)
  {
    forall k <- [PROTO, TIME_MODE, ENCODE_TIME, SYNC_AGE, BOOT_ID, DROPPED_SPANS, DROPPED_ITEMS]
      ensures Ascii(LeafSize.RESERVED_PREFIX) <= Ascii(k)
    {
      AsciiPrefix(LeafSize.RESERVED_PREFIX, k);
    }
  }

  /** What a receiver finds under a key in the Resource of a payload. */
  function Find(c: Config, sync: Option<Sync>, now: u64, counters: Counters, spans: seq<Span>, key: string)
    : Option<Value>
  {
    match Got(c, sync, now, counters, spans)
    case None => None
    case Some(r) => Lookup(r.resource, Ascii(key))
  }

  lemma FoundInReserved(c: Config, sync: Option<Sync>, now: u64, counters: Counters, spans: seq<Span>, key: string)
    requires LeafSize.ConfigValid(c) && Ascii(LeafSize.RESERVED_PREFIX) <= Ascii(key)
    ensures Find(c, sync, now, counters, spans, key) == Lookup(Reserved(c, sync, now, counters), Ascii(key))
  {
    hide ReadRequest, Request, Reserved, Lookup, Ascii, LeafSize.ConfigValid;
    RequestRoundTrip(BuildBatch(c, sync, now, counters, spans));
    LookupSum(c.resource, Reserved(c, sync, now, counters), Ascii(key));
    ConfiguredAreOthers(c, Ascii(key));
  }

  predicate IsInt(v: Option<Value>) { v.Some? && v.value.Int64? }

  /** The value of an integer attribute as a 64-bit word. */
  function WordOf(v: Option<Value>): int { if IsInt(v) then v.value.i % WORD else 0 }

  lemma FoundAt(c: Config, sync: Option<Sync>, now: u64, counters: Counters, spans: seq<Span>, k: nat, key: string)
    requires LeafSize.ConfigValid(c) && k < 7 && Ascii(key) == ReservedItems(c, sync, now, counters)[k].key
    requires key in [PROTO, TIME_MODE, ENCODE_TIME, SYNC_AGE, BOOT_ID, DROPPED_SPANS, DROPPED_ITEMS]
    ensures var v, x := Find(c, sync, now, counters, spans, key), ReservedItems(c, sync, now, counters)[k];
            && (x.present ==> IsInt(v) && WordOf(v) == x.value)
            && (!x.present ==> v == None)
  {
    hide Find, Reserved, Lookup, Ascii, ReservedItems, LeafSize.ConfigValid;
    ReservedPrefixes();
    FoundInReserved(c, sync, now, counters, spans, key);
    ReservedAt(c, sync, now, counters, k);
    Signed(ReservedItems(c, sync, now, counters)[k].value);
  }

  /**
   The reserved attributes in the bytes. A receiver finds the protocol version, the time mode in force, the
   boot id in its mode alone, the encode time whenever there is a clock (a wall time under a sync), the age of
   the sync exactly when there is one, and each drop count exactly when it is not zero.
   */
  lemma ReservedArrive(c: Config, sync: Option<Sync>, now: u64, counters: Counters, spans: seq<Span>)
    requires LeafSize.ConfigValid(c)
    ensures var at := k => Find(c, sync, now, counters, spans, k);
            && IsInt(at(PROTO)) && WordOf(at(PROTO)) == 1
            && IsInt(at(TIME_MODE))
            && WordOf(at(TIME_MODE)) == (if c.mode.BootRelative? then 2 else if Synced(c, sync) then 1 else 0)
            && (if c.mode.BootRelative? then IsInt(at(BOOT_ID)) && WordOf(at(BOOT_ID)) == c.bootId
                else at(BOOT_ID) == None)
    ensures var at := k => Find(c, sync, now, counters, spans, k);
            && (if c.hasClock then IsInt(at(ENCODE_TIME)) && TimeLaw(c, sync, WordOf(at(ENCODE_TIME)), now)
                else at(ENCODE_TIME) == None)
            && (if Synced(c, sync) then
                  IsInt(at(SYNC_AGE)) && WordOf(at(SYNC_AGE)) == (now - sync.value.leafNs) % WORD
                else at(SYNC_AGE) == None)
    ensures var at := k => Find(c, sync, now, counters, spans, k);
            var items := counters.attrs + counters.events;
            && (if counters.spans > 0 then
                  IsInt(at(DROPPED_SPANS)) && WordOf(at(DROPPED_SPANS)) == counters.spans
                else at(DROPPED_SPANS) == None)
            && (if items > 0 then IsInt(at(DROPPED_ITEMS)) && WordOf(at(DROPPED_ITEMS)) == items
                else at(DROPPED_ITEMS) == None)
  {
    hide Find, Ascii, Plus64, Offset, LeafSize.ConfigValid, IsInt, WordOf, TimeLaw;
    FoundAt(c, sync, now, counters, spans, 0, PROTO);
    FoundAt(c, sync, now, counters, spans, 1, TIME_MODE);
    FoundAt(c, sync, now, counters, spans, 2, ENCODE_TIME);
    FoundAt(c, sync, now, counters, spans, 3, SYNC_AGE);
    FoundAt(c, sync, now, counters, spans, 4, BOOT_ID);
    FoundAt(c, sync, now, counters, spans, 5, DROPPED_SPANS);
    FoundAt(c, sync, now, counters, spans, 6, DROPPED_ITEMS);
    OffsetKeepsLaw(c, sync, now);
  }

  /** A receiver recovers the wall time of the sync: encode time less sync age, whatever has wrapped. */
  lemma SyncIsRecoverable(c: Config, sync: Option<Sync>, now: u64, counters: Counters, spans: seq<Span>)
    requires LeafSize.ConfigValid(c) && Synced(c, sync)
    ensures var time := Find(c, sync, now, counters, spans, ENCODE_TIME);
            var age := Find(c, sync, now, counters, spans, SYNC_AGE);
            IsInt(time) && IsInt(age) && (WordOf(time) - WordOf(age)) % WORD == sync.value.unixNs
  {
    hide Find, IsInt, WordOf;
    ReservedArrive(c, sync, now, counters, spans);
    var time := WordOf(Find(c, sync, now, counters, spans, ENCODE_TIME));
    assert c.hasClock;
    WordIsWord(Find(c, sync, now, counters, spans, ENCODE_TIME));
    Recover(time, sync.value.unixNs, now, sync.value.leafNs);
  }

  lemma WordIsWord(v: Option<Value>)
    ensures 0 <= WordOf(v) < WORD
  {}

  lemma Recover(time: int, unix: u64, now: u64, leaf: u64)
    requires 0 <= time < WORD && (time - unix) % WORD == (now - leaf) % WORD
    ensures (time - (now - leaf) % WORD) % WORD == unix
  {
    Wrap(time - unix);
    Wrap(now - leaf);
    Wrap(time - (now - leaf) % WORD);
  }

  // ---------------------------------------------------------------- Runs

  /**
   From calls to bytes. In every run, the span that call i started and call e ended is read back from the
   bytes of the first successful encode after its end: with the identity its start asked for, and with the
   attributes, events and status that the calls on its handle gave it.
   */
  lemma CallsReachTheBytes(states: seq<State>, calls: seq<Done>, i: nat, e: nat, k: nat,
                           c: Config, sync: Option<Sync>, now: u64)
    returns (x: Span)
    requires Run(states, calls) && i < e < k < |calls| && IsStart(calls[i])
    requires calls[e].call.End? && calls[e].call.xspan == calls[i].handle && calls[e].result == Ok
    requires states[i].started !in Emitted(states[e].payloads)
    requires IsEncode(calls[k]) && forall q :: e < q < k ==> !IsEncode(calls[q])
    ensures calls[i].handle in states[e].spans && SameIdentity(x, states[e].spans[calls[i].handle])
    ensures BornOf(states[i], calls[i].call, x)
    ensures MadeBy(x, calls[i + 1..k], calls[i].handle, states[0].limits.maxEventAttrs)
    ensures forall h <- states[k].order :: h in states[k].spans
    ensures var got := Got(c, sync, now, states[k].counters, SpansOf(states[k], states[k].order));
            got.Some? && exists w :: w in got.value.spans && SentAs(w, x, c, sync)
  {
    hide Step, Initial, Emitted, BornOf, MadeBy, SentAs, Got, SameIdentity;
    var h := calls[i].handle;
    RunKeepsWaiting(states, calls, e, k);
    SpanIsWhatCallsMade(states, calls, i, e);
    SpanIsWhatCallsMade(states, calls, i, k);
    x := states[k].spans[h];
    IdentityStays(states, calls, e, k, h);
    assert SameIdentity(x, states[e].spans[h]) by { SameBothWays(x, states[e].spans[h]); }
    assert StepAt(states, calls, k);
    EncodeSends(states[k], calls[k], states[k + 1]);
    var spans := SpansOf(states[k], states[k].order);
    SpansArrive(c, sync, now, states[k].counters, spans);
    var q :| 0 <= q < |states[k].order| && states[k].order[q] == h;
    assert spans[q] == x;
    var w := Got(c, sync, now, states[k].counters, spans).value.spans[q];
    assert SentAs(w, x, c, sync);
  }

  lemma SameBothWays(x: Span, y: Span)
    requires SameIdentity(y, x)
    ensures SameIdentity(x, y)
  {}

  /** A call that started a span, the one that ended it, and the encode that sent it. */
  ghost predicate Sends(states: seq<State>, calls: seq<Done>, i: nat, e: nat, k: nat) {
    && Run(states, calls) && i < e < k < |calls| && IsStart(calls[i])
    && calls[e].call.End? && calls[e].call.xspan == calls[i].handle && calls[e].result == Ok
    && states[i].started !in Emitted(states[e].payloads)
    && IsEncode(calls[k]) && forall q :: e < q < k ==> !IsEncode(calls[q])
  }

  /** In these bytes there is a span with this id, in this trace and below this parent. */
  predicate InBytes(r: Option<Received>, trace: seq<byte>, id: seq<byte>, parent: Option<seq<byte>>) {
    r.Some? && exists w :: w in r.value.spans && w.traceId == trace && w.spanId == id && w.parentId == parent
  }

  ghost function GotAt(states: seq<State>, k: nat, c: Config, sync: Option<Sync>, now: u64): Option<Received>
    requires k < |states|
  {
    if forall h <- states[k].order :: h in states[k].spans
    then Got(c, sync, now, states[k].counters, SpansOf(states[k], states[k].order))
    else None
  }

  /**
   One trace. In every run, a span started by call p and a child started under its handle by call i, while the
   parent was still the span under that handle, come out of the payload bytes with one trace id, and the child
   names its parent, whichever payloads the two are in.
   */
  lemma FamilyInBytes(states: seq<State>, calls: seq<Done>, p: nat, ep: nat, kp: nat, i: nat, ei: nat, ki: nat,
                      c: Config, sync: Option<Sync>, nowp: u64, nowi: u64)
    returns (trace: seq<byte>, parent: seq<byte>, id: seq<byte>, grand: Option<seq<byte>>)
    requires Sends(states, calls, p, ep, kp) && Sends(states, calls, i, ei, ki) && p < i
    requires calls[i].call.Start? && calls[i].call.parent == Some(calls[p].handle)
    requires calls[p].handle in states[i].spans && states[i].spans[calls[p].handle].serial == states[p].started
    ensures InBytes(GotAt(states, kp, c, sync, nowp), trace, parent, grand)
    ensures InBytes(GotAt(states, ki, c, sync, nowi), trace, id, Some(parent))
    ensures id == calls[i].call.newSpan
  {
    hide Step, Initial, Emitted, MadeBy, SentAs, Got, SameIdentity;
    var x := CallsReachTheBytes(states, calls, p, ep, kp, c, sync, nowp);
    var y := CallsReachTheBytes(states, calls, i, ei, ki, c, sync, nowi);
    var h := calls[p].handle;
    SpanIsWhatCallsMade(states, calls, p, ep);
    if i <= ep { IdentityStays(states, calls, i, ep, h); } else { IdentityStays(states, calls, ep, i, h); }
    OneFamily(x, states[ep].spans[h], states[i].spans[h]);
    trace, parent, id := x.traceId, x.spanId, y.spanId;
    grand := if x.parentId.Some? then Some(x.parentId.value) else None;
    SentInBytes(GotAt(states, kp, c, sync, nowp), x, c, sync);
    SentInBytes(GotAt(states, ki, c, sync, nowi), y, c, sync);
  }

  lemma OneFamily(x: Span, e: Span, p: Span)
    requires SameIdentity(x, e) && (SameIdentity(p, e) || SameIdentity(e, p))
    ensures x.traceId == p.traceId && x.spanId == p.spanId
  {}

  lemma SentInBytes(r: Option<Received>, x: Span, c: Config, sync: Option<Sync>)
    requires r.Some? && exists w :: w in r.value.spans && SentAs(w, x, c, sync)
    ensures InBytes(r, x.traceId, x.spanId, if x.parentId.Some? then Some(x.parentId.value) else None)
  {
    var w :| w in r.value.spans && SentAs(w, x, c, sync);
    assert w.traceId == x.traceId;
  }
}
