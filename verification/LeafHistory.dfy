/**
 What a run of the leaf has to show for its calls: every span is what the calls on its handle made
 of it, the end order and the drop counts are those of the calls, and refusals have their reasons.
 The right-hand sides here are read off the list of calls alone.
 */
module LeafHistory {
  import opened Basics
  import opened RecordFormat
  import opened LeafSpec

  // ---------------------------------------------------------------- Attributes as a map with an order

  function Keys(attrs: seq<KV>): (r: seq<seq<byte>>)
    ensures |r| == |attrs| && forall i :: 0 <= i < |attrs| ==> r[i] == attrs[i].key
  {
    seq(|attrs|, i requires 0 <= i < |attrs| => attrs[i].key)
  }

  function Lookup(attrs: seq<KV>, key: seq<byte>): Option<Value> {
    var i := FirstKey(attrs, key);
    if i < |attrs| then Some(attrs[i].value) else None
  }

  function KeyOrder(keys: seq<seq<byte>>, key: seq<byte>): seq<seq<byte>> {
    if key in keys then keys else keys + [key]
  }

  lemma FirstKeyIs(attrs: seq<KV>, key: seq<byte>, i: nat)
    requires i <= |attrs| && (forall j :: 0 <= j < i ==> attrs[j].key != key) && (i < |attrs| ==> attrs[i].key == key)
    ensures FirstKey(attrs, key) == i
  {
    var f := FirstKey(attrs, key);
  }

  lemma SetAttrKeys(attrs: seq<KV>, kv: KV)
    ensures Keys(SetAttr(attrs, kv)) == KeyOrder(Keys(attrs), kv.key)
  {
    hide FirstKey;
    var i := FirstKey(attrs, kv.key);
    if i < |attrs| { assert Keys(attrs)[i] == kv.key; }
  }

  lemma SetAttrFirst(attrs: seq<KV>, kv: KV, key: seq<byte>)
    ensures var updated := SetAttr(attrs, kv);
            var i, j := FirstKey(attrs, key), FirstKey(updated, key);
            && |attrs| <= |updated|
            && (key == kv.key ==> j < |updated| && updated[j] == kv)
            && (key != kv.key && i < |attrs| ==> j == i && updated[j] == attrs[i])
            && (key != kv.key && i == |attrs| ==> j == |updated|)
  {
    hide FirstKey;
    var updated := SetAttr(attrs, kv);
    var i := FirstKey(attrs, key);
    FirstKeyIs(updated, key, if key == kv.key || i < |attrs| then i else |updated|);
  }

  /** Setting an attribute is a map update, and keys stay in the order they were first set. */
  lemma SetAttrIsUpdate(attrs: seq<KV>, kv: KV, key: seq<byte>)
    ensures Keys(SetAttr(attrs, kv)) == KeyOrder(Keys(attrs), kv.key)
    ensures Lookup(SetAttr(attrs, kv), key) == if key == kv.key then Some(kv.value) else Lookup(attrs, key)
  {
    hide FirstKey, SetAttr, Keys, KeyOrder;
    SetAttrKeys(attrs, kv);
    SetAttrFirst(attrs, kv, key);
  }

  // ---------------------------------------------------------------- What the calls say

  /** The span a call changes when it succeeds. */
  function Target(c: Call): Option<Handle> {
    match c
    case SetAttribute(h, _) => Some(h)
    case AddEvent(h, _, _, _) => Some(h)
    case SetStatus(h, _, _) => Some(h)
    case End(h, _) => Some(h)
    case _ => None
  }

  predicate Hits(d: Done, h: Handle) { d.result == Ok && Target(d.call) == Some(h) }

  /** The events added to h, in order, each with at most max of its attributes. */
  function EventsBy(calls: seq<Done>, h: Handle, max: nat): seq<Event> {
    if calls == [] then [] else
    var c := calls[|calls| - 1].call;
    EventsBy(calls[..|calls| - 1], h, max) +
    if Hits(calls[|calls| - 1], h) && c.AddEvent? then
      [Event(c.enow, c.ename, if |c.attrs| <= max then c.attrs else c.attrs[..max])]
    else []
  }

  /** The keys set on h, in the order they were first set. */
  function KeysBy(calls: seq<Done>, h: Handle): seq<seq<byte>> {
    if calls == [] then [] else
    var keys, c := KeysBy(calls[..|calls| - 1], h), calls[|calls| - 1].call;
    if Hits(calls[|calls| - 1], h) && c.SetAttribute? then KeyOrder(keys, c.kv.key) else keys
  }

  /** The value last set on h under a key. */
  function ValueBy(calls: seq<Done>, h: Handle, key: seq<byte>): Option<Value> {
    if calls == [] then None else
    var c := calls[|calls| - 1].call;
    if Hits(calls[|calls| - 1], h) && c.SetAttribute? && c.kv.key == key then Some(c.kv.value)
    else ValueBy(calls[..|calls| - 1], h, key)
  }

  datatype StatusValue = StatusValue(code: nat, message: seq<byte>)

  /** The status last set on h. */
  function StatusBy(calls: seq<Done>, h: Handle): StatusValue {
    if calls == [] then StatusValue(0, []) else
    var c := calls[|calls| - 1].call;
    if Hits(calls[|calls| - 1], h) && c.SetStatus? then StatusValue(c.code, c.message)
    else StatusBy(calls[..|calls| - 1], h)
  }

  /** When h was ended, if it was. */
  function EndBy(calls: seq<Done>, h: Handle): Option<u64> {
    if calls == [] then None else
    var c := calls[|calls| - 1].call;
    if Hits(calls[|calls| - 1], h) && c.End? then Some(c.xnow) else EndBy(calls[..|calls| - 1], h)
  }

  /** What never changes in a span. */
  predicate SameIdentity(x: Span, y: Span) {
    && x.serial == y.serial && x.traceId == y.traceId && x.spanId == y.spanId && x.parentId == y.parentId
    && x.kind == y.kind && x.start == y.start && x.name == y.name
  }

  ghost predicate SameAttrs(attrs: seq<KV>, calls: seq<Done>, h: Handle) {
    Keys(attrs) == KeysBy(calls, h) && forall key :: Lookup(attrs, key) == ValueBy(calls, h, key)
  }

  /** The rest of a span is what these calls made of it. */
  ghost predicate MadeBy(x: Span, calls: seq<Done>, h: Handle, max: nat) {
    && SameAttrs(x.attrs, calls, h)
    && x.events == EventsBy(calls, h, max)
    && StatusValue(x.statusCode, x.message) == StatusBy(calls, h)
    && (x.ended <==> EndBy(calls, h).Some?) && (x.ended ==> EndBy(calls, h) == Some(x.end))
  }

  // ---------------------------------------------------------------- One call

  /** What a call leaves of the span under h, if it leaves it there. */
  predicate Effect(x: Span, x': Span, d: Done, h: Handle, max: nat) {
    if !Hits(d, h) then x' == x else
    match d.call
    case SetAttribute(_, kv) => x' == x.(attrs := SetAttr(x.attrs, kv))
    case AddEvent(_, name, attrs, now) =>
      x' == x.(events := x.events + [Event(now, name, if |attrs| <= max then attrs else attrs[..max])])
    case SetStatus(_, code, message) => x' == x.(statusCode := code, message := message)
    case End(_, now) => x' == x.(ended := true, end := now)
    case _ => false
  }

  lemma StepEffect(s: State, d: Done, s': State, h: Handle)
    requires Step(s, d.call, d.result, d.handle, s') && h in s.spans
    requires h in s'.spans && s'.spans[h].serial == s.spans[h].serial
    ensures Effect(s.spans[h], s'.spans[h], d, h, s.limits.maxEventAttrs) && s'.limits == s.limits
  {
    hide SetAttr, Newborn, Refused, GenOf, SpansOf;
    if d.result != Ok { RefusedKeepsSpans(s, d.call); }
  }

  lemma EffectKeepsIdentity(x: Span, x': Span, d: Done, h: Handle, max: nat)
    requires Effect(x, x', d, h, max)
    ensures SameIdentity(x, x')
  {
    hide SetAttr;
  }

  lemma OneMoreCall(calls: seq<Done>, d: Done, h: Handle, key: seq<byte>)
    ensures var sets := Hits(d, h) && d.call.SetAttribute?;
            && KeysBy(calls + [d], h) == (if sets then KeyOrder(KeysBy(calls, h), d.call.kv.key) else KeysBy(calls, h))
            && ValueBy(calls + [d], h, key)
               == (if sets && d.call.kv.key == key then Some(d.call.kv.value) else ValueBy(calls, h, key))
  {
    hide Hits, KeyOrder;
    assert (calls + [d])[..|calls|] == calls;
  }

  lemma EffectOnAttrs(x: Span, x': Span, calls: seq<Done>, d: Done, h: Handle, max: nat)
    requires Effect(x, x', d, h, max) && SameAttrs(x.attrs, calls, h)
    ensures SameAttrs(x'.attrs, calls + [d], h)
  {
    hide Keys, Lookup, SetAttr, KeyOrder, KeysBy, ValueBy;
    var all := calls + [d];
    forall key
      ensures Lookup(x'.attrs, key) == ValueBy(all, h, key) && Keys(x'.attrs) == KeysBy(all, h)
    {
      OneMoreCall(calls, d, h, key);
      if Hits(d, h) && d.call.SetAttribute? { SetAttrIsUpdate(x.attrs, d.call.kv, key); }
    }
    assert Lookup(x'.attrs, []) == ValueBy(all, h, []);
  }

  lemma OneMoreEvent(calls: seq<Done>, d: Done, h: Handle, max: nat)
    ensures var c := d.call;
            EventsBy(calls + [d], h, max)
            == (if Hits(d, h) && c.AddEvent? then
                  EventsBy(calls, h, max)
                  + [Event(c.enow, c.ename, if |c.attrs| <= max then c.attrs else c.attrs[..max])]
                else EventsBy(calls, h, max))
  {
    hide Hits;
    assert (calls + [d])[..|calls|] == calls;
    assert EventsBy(calls, h, max) + [] == EventsBy(calls, h, max);
  }

  lemma OneMoreStatus(calls: seq<Done>, d: Done, h: Handle)
    ensures var c := d.call;
            && StatusBy(calls + [d], h)
               == (if Hits(d, h) && c.SetStatus? then StatusValue(c.code, c.message) else StatusBy(calls, h))
            && EndBy(calls + [d], h) == (if Hits(d, h) && c.End? then Some(c.xnow) else EndBy(calls, h))
  {
    hide Hits;
    assert (calls + [d])[..|calls|] == calls;
  }

  lemma EffectOnSpan(x: Span, x': Span, calls: seq<Done>, d: Done, h: Handle, max: nat)
    requires Effect(x, x', d, h, max) && MadeBy(x, calls, h, max)
    ensures MadeBy(x', calls + [d], h, max)
  {
    hide SameAttrs, SetAttr, EventsBy, StatusBy, EndBy;
    EffectOnAttrs(x, x', calls, d, h, max);
    OneMoreEvent(calls, d, h, max);
    OneMoreStatus(calls, d, h);
  }

  // ---------------------------------------------------------------- Spans over runs

  /** The span as its start call asked for it. */
  predicate BornOf(s: State, c: Call, x: Span) {
    match c
    case Start(name, kind, Some(p), _, id, now) =>
      && p in s.spans && x.traceId == s.spans[p].traceId && x.parentId == Some(s.spans[p].spanId)
      && x.spanId == id && x.name == name && x.kind == kind && x.start == now
    case Start(name, kind, None, trace, id, now) =>
      && x.traceId == trace && x.parentId == None
      && x.spanId == id && x.name == name && x.kind == kind && x.start == now
    case StartRemote(name, kind, trace, parent, id, now) =>
      && x.traceId == trace && x.parentId == Some(parent)
      && x.spanId == id && x.name == name && x.kind == kind && x.start == now
    case _ => false
  }

  lemma StartBirth(s: State, d: Done, s': State)
    requires Step(s, d.call, d.result, d.handle, s') && IsStart(d)
    ensures d.handle !in s.spans && d.handle in s'.spans
    ensures var x := s'.spans[d.handle];
            BornOf(s, d.call, x) && x.serial == s.started && MadeBy(x, [], d.handle, s.limits.maxEventAttrs)
    ensures s'.limits == s.limits
  {
    hide GenOf;
  }

  /** The span under h is still there at k if it is there, the same one, before and after. */
  lemma {:induction false} StaysInUse(states: seq<State>, calls: seq<Done>, a: nat, k: nat, b: nat, h: Handle)
    requires Run(states, calls) && a <= k <= b < |states|
    requires h in states[a].spans && h in states[b].spans && states[a].spans[h].serial == states[b].spans[h].serial
    ensures h in states[k].spans && states[k].spans[h].serial == states[a].spans[h].serial
  {
    hide Step, Initial, Emitted;
    var n := states[a].spans[h].serial;
    RunKeepsInv(states, calls, a);
    KeepsOn(states, calls, a, k, h, n);
    RunKeepsInv(states, calls, b);
    if n in Emitted(states[k].payloads) { RunKeepsEmitted(states, calls, k, b, n); }
  }

  lemma {:induction false} KeepsOn(states: seq<State>, calls: seq<Done>, a: nat, k: nat, h: Handle, n: nat)
    requires Run(states, calls) && a <= k < |states| && Keeps(states[a], h, n)
    ensures Keeps(states[k], h, n)
    decreases k
  {
    hide Inv, Step, Initial, Keeps;
    if a < k {
      KeepsOn(states, calls, a, k - 1, h, n);
      RunKeepsInv(states, calls, k - 1);
      assert StepAt(states, calls, k - 1);
      StepKeepsHandle(states[k - 1], calls[k - 1], states[k], h, n);
    }
  }

  /** Ids, parent, kind, start and name of a span stay as they are for as long as it is in use. */
  lemma {:induction false} IdentityStays(states: seq<State>, calls: seq<Done>, a: nat, b: nat, h: Handle)
    requires Run(states, calls) && a <= b < |states|
    requires h in states[a].spans && h in states[b].spans && states[a].spans[h].serial == states[b].spans[h].serial
    ensures SameIdentity(states[a].spans[h], states[b].spans[h])
    decreases b
  {
    hide Step, Initial, Inv, Effect;
    if a < b {
      StaysInUse(states, calls, a, b - 1, b, h);
      IdentityStays(states, calls, a, b - 1, h);
      assert StepAt(states, calls, b - 1);
      StepEffect(states[b - 1], calls[b - 1], states[b], h);
      var x, x' := states[b - 1].spans[h], states[b].spans[h];
      EffectKeepsIdentity(x, x', calls[b - 1], h, states[b - 1].limits.maxEventAttrs);
    }
  }

  lemma {:induction false} LimitsStay(states: seq<State>, calls: seq<Done>, i: nat)
    requires Run(states, calls) && i < |states|
    ensures states[i].limits == states[0].limits
    decreases i
  {
    hide Initial;
    if i > 0 {
      LimitsStay(states, calls, i - 1);
      assert StepAt(states, calls, i - 1);
      StepKeepsLimits(states[i - 1], calls[i - 1], states[i]);
    }
  }

  lemma StepKeepsLimits(s: State, d: Done, s': State)
    requires Step(s, d.call, d.result, d.handle, s')
    ensures s'.limits == s.limits
  {
    hide SetAttr, Newborn, Refused, GenOf, SpansOf, Kept;
    RefusedKeepsSpans(s, d.call);
  }

  /**
   Every span is what the calls made of it. In every run, the span that call i started is under its handle
   until it is emitted, with the identity the call asked for (the trace and span id of its parent among it),
   the attributes, events, status and end that the successful calls on the handle have given it since.
   */
  lemma {:induction false} SpanIsWhatCallsMade(states: seq<State>, calls: seq<Done>, i: nat, j: nat)
    requires Run(states, calls) && i < j < |states| && IsStart(calls[i])
    requires states[i].started !in Emitted(states[j].payloads)
    ensures var h := calls[i].handle;
            && h in states[j].spans && states[j].spans[h].serial == states[i].started
            && BornOf(states[i], calls[i].call, states[j].spans[h])
            && MadeBy(states[j].spans[h], calls[i + 1..j], h, states[0].limits.maxEventAttrs)
    decreases j
  {
    hide Step, Initial, Inv, Effect, MadeBy, BornOf, IsStart, Emitted;
    var h := calls[i].handle;
    assert StepAt(states, calls, i);
    StartBirth(states[i], calls[i], states[i + 1]);
    LimitsStay(states, calls, i);
    LimitsStay(states, calls, j - 1);
    RunKeepsHandle(states, calls, i, j);
    if j == i + 1 {
      assert calls[i + 1..j] == [];
    } else {
      if states[i].started in Emitted(states[j - 1].payloads) {
        RunKeepsEmitted(states, calls, j - 1, j, states[i].started);
      }
      SpanIsWhatCallsMade(states, calls, i, j - 1);
      assert StepAt(states, calls, j - 1);
      var x, x' := states[j - 1].spans[h], states[j].spans[h];
      var max := states[0].limits.maxEventAttrs;
      StepEffect(states[j - 1], calls[j - 1], states[j], h);
      EffectOnSpan(x, x', calls[i + 1..j - 1], calls[j - 1], h, max);
      assert calls[i + 1..j] == calls[i + 1..j - 1] + [calls[j - 1]];
      EffectKeepsIdentity(x, x', calls[j - 1], h, max);
      BirthStays(states[i], calls[i].call, x, x');
    }
  }

  lemma BirthStays(s: State, c: Call, x: Span, y: Span)
    requires BornOf(s, c, x) && SameIdentity(x, y)
    ensures BornOf(s, c, y)
  {}

  // ---------------------------------------------------------------- Every span in use is well formed

  predicate DistinctKeys(attrs: seq<KV>) { forall i, j :: 0 <= i < j < |attrs| ==> attrs[i].key != attrs[j].key }

  predicate KeysGiven(attrs: seq<KV>) { forall i :: 0 <= i < |attrs| ==> attrs[i].key != [] }

  predicate EventFits(e: Event, l: Limits) { |e.attrs| <= l.maxEventAttrs && KeysGiven(e.attrs) }

  predicate WellFormed(x: Span, l: Limits) {
    && 1 <= x.kind <= 5 && x.statusCode <= 2
    && |x.attrs| <= l.maxAttrs && DistinctKeys(x.attrs) && KeysGiven(x.attrs)
    && |x.events| <= l.maxEvents && forall i :: 0 <= i < |x.events| ==> EventFits(x.events[i], l)
  }

  predicate AllWellFormed(s: State) { forall h :: h in s.spans ==> WellFormed(s.spans[h], s.limits) }

  lemma SetAttrKeepsForm(attrs: seq<KV>, kv: KV)
    requires DistinctKeys(attrs) && KeysGiven(attrs) && kv.key != []
    ensures DistinctKeys(SetAttr(attrs, kv)) && KeysGiven(SetAttr(attrs, kv))
    ensures |SetAttr(attrs, kv)| == |attrs| + if FirstKey(attrs, kv.key) == |attrs| then 1 else 0
  {}

  lemma AttributeKeepsForm(s: State, d: Done, s': State)
    requires AllWellFormed(s) && Step(s, d.call, d.result, d.handle, s') && d.call.SetAttribute? && d.result == Ok
    ensures AllWellFormed(s')
  {
    hide DistinctKeys, KeysGiven, SetAttr, FirstKey, EventFits;
    SetAttrKeepsForm(s.spans[d.call.span].attrs, d.call.kv);
  }

  lemma EventKeepsForm(s: State, d: Done, s': State)
    requires AllWellFormed(s) && Step(s, d.call, d.result, d.handle, s') && d.call.AddEvent? && d.result == Ok
    ensures AllWellFormed(s')
  {
    hide DistinctKeys, SetAttr, FirstKey;
    var h := d.call.espan;
    var kept := Kept(d.call.attrs, s.limits.maxEventAttrs);
    forall i | 0 <= i < |kept|
      ensures kept[i].key != []
    {
      assert kept[i] == d.call.attrs[i] && d.call.attrs[i] in d.call.attrs;
    }
    assert WellFormed(s'.spans[h], s.limits);
  }

  lemma StepKeepsForm(s: State, d: Done, s': State)
    requires AllWellFormed(s) && Step(s, d.call, d.result, d.handle, s')
    ensures AllWellFormed(s')
  {
    if d.result == Ok && d.call.SetAttribute? {
      AttributeKeepsForm(s, d, s');
    } else if d.result == Ok && d.call.AddEvent? {
      EventKeepsForm(s, d, s');
    } else {
      hide DistinctKeys, KeysGiven, SetAttr, FirstKey, EventFits, Refused, GenOf, SpansOf;
      RefusedKeepsSpans(s, d.call);
      NothingIsWellFormed();
    }
  }

  lemma NothingIsWellFormed()
    ensures DistinctKeys([]) && KeysGiven([])
  {}

  /** In every state of every run each span keeps the caps and the argument rules, and no key twice. */
  lemma {:induction false} SpansAreWellFormed(states: seq<State>, calls: seq<Done>, i: nat)
    requires Run(states, calls) && i < |states|
    ensures AllWellFormed(states[i])
    decreases i
  {
    hide Step, WellFormed;
    if i > 0 {
      SpansAreWellFormed(states, calls, i - 1);
      assert StepAt(states, calls, i - 1);
      StepKeepsForm(states[i - 1], calls[i - 1], states[i]);
    }
  }

  // ---------------------------------------------------------------- End order

  /** The spans ended since the last successful encode, in the order of the calls. */
  function EndedSince(calls: seq<Done>): seq<Handle> {
    if calls == [] then [] else
    var d := calls[|calls| - 1];
    if IsEncode(d) then []
    else EndedSince(calls[..|calls| - 1]) + if d.result == Ok && d.call.End? then [d.call.xspan] else []
  }

  lemma {:induction false} OrderIsEndOrder(states: seq<State>, calls: seq<Done>, i: nat)
    requires Run(states, calls) && i < |states|
    ensures states[i].order == EndedSince(calls[..i])
    decreases i
  {
    hide Step, EndedSince;
    if i == 0 {
      assert calls[..0] == [];
      NothingEnded();
    } else {
      OrderIsEndOrder(states, calls, i - 1);
      assert StepAt(states, calls, i - 1);
      StepOrder(states[i - 1], calls[i - 1], states[i], calls[..i - 1]);
      assert calls[..i] == calls[..i - 1] + [calls[i - 1]];
    }
  }

  lemma NothingEnded()
    ensures EndedSince([]) == []
  {}

  lemma StepOrder(s: State, d: Done, s': State, calls: seq<Done>)
    requires Step(s, d.call, d.result, d.handle, s') && s.order == EndedSince(calls)
    ensures s'.order == EndedSince(calls + [d])
  {
    hide Step, IsEncode;
    OrderAfter(s, d, s');
    assert (calls + [d])[..|calls|] == calls;
    assert s.order + [] == s.order;
  }

  lemma OrderAfter(s: State, d: Done, s': State)
    requires Step(s, d.call, d.result, d.handle, s')
    ensures IsEncode(d) ==> s'.order == []
    ensures !IsEncode(d) && d.result == Ok && d.call.End? ==> s'.order == s.order + [d.call.xspan]
    ensures !IsEncode(d) && !(d.result == Ok && d.call.End?) ==> s'.order == s.order
  {
    hide SetAttr, Newborn, Refused, GenOf, SpansOf, Kept, FirstKey;
    if d.result != Ok { RefusedKeepsSpans(s, d.call); }
  }

  // ---------------------------------------------------------------- Drops

  predicate Refuses(d: Done) { d.result == ErrLimit || d.result == ErrNoSpace }

  /** What one call drops: what it was refused, and the event attributes over the cap. */
  function DropOf(d: Done, max: nat): Drops {
    match d.call
    case Start(_, _, _, _, _, _) => Drops(if Refuses(d) then 1 else 0, 0, 0)
    case StartRemote(_, _, _, _, _, _) => Drops(if Refuses(d) then 1 else 0, 0, 0)
    case SetAttribute(_, _) => Drops(0, if Refuses(d) then 1 else 0, 0)
    case AddEvent(_, _, attrs, _) =>
      Drops(0, if d.result == Ok && |attrs| > max then |attrs| - max else 0, if Refuses(d) then 1 else 0)
    case _ => Drops(0, 0, 0)
  }

  function Plus(a: Drops, b: Drops): Drops { Drops(a.spans + b.spans, a.attrs + b.attrs, a.events + b.events) }

  function DropsBy(calls: seq<Done>, max: nat): Drops {
    if calls == [] then Drops(0, 0, 0) else Plus(DropsBy(calls[..|calls| - 1], max), DropOf(calls[|calls| - 1], max))
  }

  /** The drops since the last successful encode. */
  function PendingBy(calls: seq<Done>, max: nat): Drops {
    if calls == [] || IsEncode(calls[|calls| - 1]) then Drops(0, 0, 0)
    else Plus(PendingBy(calls[..|calls| - 1], max), DropOf(calls[|calls| - 1], max))
  }

  /** The three counters, each modulo 2^32. */
  function Low32(d: Drops): Counters {
    Counters(d.spans % 0x1_0000_0000, d.attrs % 0x1_0000_0000, d.events % 0x1_0000_0000)
  }

  lemma AddLow(n: nat, k: nat)
    ensures Add32(n % 0x1_0000_0000, k) == (n + k) % 0x1_0000_0000
  {}

  lemma StepDrops(s: State, d: Done, s': State)
    requires Step(s, d.call, d.result, d.handle, s') && !IsEncode(d)
    ensures var k := DropOf(d, s.limits.maxEventAttrs);
            && s'.drops == Plus(s.drops, k)
            && s'.counters == Counters(Add32(s.counters.spans, k.spans), Add32(s.counters.attrs, k.attrs),
                                       Add32(s.counters.events, k.events))
  {
    hide SetAttr, Newborn, GenOf, SpansOf;
  }

  /**
   Drops by the calls. In every run the drops ever counted are one per refused start, attribute or event and
   one per event attribute over the cap; each pending counter is what has come since the last successful
   encode, modulo 2^32.
   */
  lemma {:induction false} DropsAreTheRefusals(states: seq<State>, calls: seq<Done>, i: nat)
    requires Run(states, calls) && i < |states|
    ensures states[i].drops == DropsBy(calls[..i], states[0].limits.maxEventAttrs)
    ensures states[i].counters == Low32(PendingBy(calls[..i], states[0].limits.maxEventAttrs))
    decreases i
  {
    hide Step, DropOf, Add32;
    var max := states[0].limits.maxEventAttrs;
    if i == 0 {
      assert calls[..0] == [];
    } else {
      DropsAreTheRefusals(states, calls, i - 1);
      LimitsStay(states, calls, i - 1);
      var d, before := calls[i - 1], calls[..i - 1];
      assert calls[..i][..i - 1] == before;
      assert StepAt(states, calls, i - 1);
      if IsEncode(d) {
        EncodeClears(states[i - 1], d, states[i], max);
      } else {
        StepDrops(states[i - 1], d, states[i]);
        var p, k := PendingBy(before, max), DropOf(d, max);
        AddLow(p.spans, k.spans);
        AddLow(p.attrs, k.attrs);
        AddLow(p.events, k.events);
      }
    }
  }

  lemma EncodeClears(s: State, d: Done, s': State, max: nat)
    requires Step(s, d.call, d.result, d.handle, s') && IsEncode(d)
    ensures s'.drops == s.drops == Plus(s.drops, DropOf(d, max)) && s'.counters == Counters(0, 0, 0)
  {
    hide SpansOf;
  }

  // ---------------------------------------------------------------- Refusals

  predicate OpenIn(s: State, h: Handle) { h in s.spans && !s.spans[h].ended }

  /** Each error has its reason, and whatever has a reason is refused for the first one that applies. */
  lemma ErrorsExplained(s: State, c: Call, r: Status, h: Handle, s': State)
    requires Step(s, c, r, h, s') && !c.Encode?
    ensures r == ErrArg <==>
              || (c.Start? && !(1 <= c.kind <= 5))
              || (c.StartRemote? && (|| !(1 <= c.rkind <= 5) || (forall i :: 0 <= i < 16 ==> c.traceId[i] == 0)
                                     || (forall i :: 0 <= i < 8 ==> c.parentId[i] == 0)))
              || (c.SetAttribute? && c.kv.key == [])
              || (c.AddEvent? && exists i :: 0 <= i < |c.attrs| && c.attrs[i].key == [])
              || (c.SetStatus? && c.code > 2)
    ensures r == ErrState <==>
              && r != ErrArg
              && (|| (c.Start? && c.parent.Some? && c.parent.value !in s.spans)
                  || (Target(c).Some? && !OpenIn(s, Target(c).value)))
    ensures r == ErrLimit <==>
              && r != ErrArg && r != ErrState
              && (|| (&& c.SetAttribute? && |s.spans[c.span].attrs| >= s.limits.maxAttrs
                      && c.kv.key !in Keys(s.spans[c.span].attrs))
                  || (c.AddEvent? && |s.spans[c.espan].events| >= s.limits.maxEvents))
    ensures r == ErrNoSpace ==> !c.End?
    ensures r in {Ok, ErrArg, ErrState, ErrLimit, ErrNoSpace}
  {
    hide Newborn, GenOf, SetAttr, Refused, Kept;
    if c.AddEvent? { SomeKeyMissing(c.attrs); }
    if c.SetAttribute? && OpenIn(s, c.span) { KeyIsNew(s.spans[c.span].attrs, c.kv.key); }
  }

  lemma SomeKeyMissing(attrs: seq<KV>)
    ensures (exists kv :: kv in attrs && !KVValid(kv)) <==> exists i :: 0 <= i < |attrs| && attrs[i].key == []
  {
    if kv :| kv in attrs && !KVValid(kv) {
      var i :| 0 <= i < |attrs| && attrs[i] == kv;
      assert attrs[i].key == [];
    }
    if i :| 0 <= i < |attrs| && attrs[i].key == [] {
      assert attrs[i] in attrs && !KVValid(attrs[i]);
    }
  }

  lemma KeyIsNew(attrs: seq<KV>, key: seq<byte>)
    ensures FirstKey(attrs, key) == |attrs| <==> key !in Keys(attrs)
  {
    var i := FirstKey(attrs, key);
    if i < |attrs| { assert Keys(attrs)[i] == key; }
  }
}
