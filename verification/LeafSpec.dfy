/**
 What the leaf promises, without a buffer: a map from handle to span, the ended spans in end
 order, and drop counters. Each public call is one step; the theorems are about every run.
 */
module LeafSpec {
  import opened Basics
  import opened RecordFormat

  type Handle = u32

  /** The number of generations in use: 1 to 0xffff, 0 is skipped. */
  const GENERATIONS := 0xffff

  /** Generations are dealt in turn, so the n-th span started gets this one. */
  function GenOf(n: nat): u16 { 1 + n % GENERATIONS }

  function MakeHandle(gen: u16, slot: u16): Handle { gen * 0x1_0000 + slot }

  datatype Span = Span(
    serial: nat,             // the n-th span this leaf started
    traceId: Id16,
    spanId: Id8,
    parentId: Option<Id8>,
    kind: byte,
    start: u64,
    end: u64,
    ended: bool,
    name: seq<byte>,
    attrs: seq<KV>,          // in first-set order
    events: seq<Event>,      // in add order
    statusCode: byte,
    message: seq<byte>)

  datatype Limits = Limits(maxAttrs: u16, maxEvents: u16, maxEventAttrs: u16)

  /** Counters are 32 bits wide and wrap. */
  datatype Counters = Counters(spans: u32, attrs: u32, events: u32)

  const NO_DROPS := Counters(0, 0, 0)

  function Add32(x: u32, n: nat): u32 { (x + n) % 0x1_0000_0000 }

  /** One successful encode: the spans in it, and the drops it reports. */
  datatype Payload = Payload(spans: seq<Span>, droppedSpans: u32, droppedItems: nat)

  datatype State = State(
    limits: Limits,
    spans: map<Handle, Span>,
    order: seq<Handle>,       // ended spans, in end order
    started: nat,             // spans started so far
    counters: Counters,
    payloads: seq<Payload>,   // every successful encode so far
    drops: Drops)             // every drop so far, for the accounting below

  /** All drops ever counted. */
  datatype Drops = Drops(spans: nat, attrs: nat, events: nat)

  datatype Status = Ok | ErrArg | ErrState | ErrNoSpace | ErrLimit | ErrBufferSmall | ErrEncode

  datatype Call =
    | Start(name: seq<byte>, kind: byte, parent: Option<Handle>, newTrace: Id16, newSpan: Id8, now: u64)
    | StartRemote(rname: seq<byte>, rkind: byte, traceId: Id16, parentId: Id8, rnewSpan: Id8, rnow: u64)
    | SetAttribute(span: Handle, kv: KV)
    | AddEvent(espan: Handle, ename: seq<byte>, attrs: seq<KV>, enow: u64)
    | SetStatus(sspan: Handle, code: byte, message: seq<byte>)
    | End(xspan: Handle, xnow: u64)
    | Encode(backend: Status)

  // ---------------------------------------------------------------- The effect of a call that succeeds

  /** Where the first attribute with this key stands, or the end. */
  function FirstKey(attrs: seq<KV>, key: seq<byte>): (i: nat)
    ensures i <= |attrs|
    ensures i < |attrs| ==> attrs[i].key == key
    ensures forall j :: 0 <= j < i ==> attrs[j].key != key
  {
    if attrs == [] || attrs[0].key == key then 0 else 1 + FirstKey(attrs[1..], key)
  }

  /** A key that is already there keeps its place and gets the new value; a new key goes last. */
  function SetAttr(attrs: seq<KV>, kv: KV): seq<KV> {
    var i := FirstKey(attrs, kv.key);
    if i < |attrs| then attrs[i := kv] else attrs + [kv]
  }

  function Kept(attrs: seq<KV>, max: u16): seq<KV> {
    if |attrs| <= max then attrs else attrs[..max]
  }

  predicate OpenAt(s: State, h: Handle) { h in s.spans && !s.spans[h].ended }

  /** A new span under a handle that no span in use has. */
  predicate Started(s: State, s': State, h: Handle, x: Span) {
    && h !in s.spans && h / 0x1_0000 == GenOf(s.started)
    && x.serial == s.started && !x.ended
    && s' == s.(spans := s.spans[h := x], started := s.started + 1)
  }

  function NewSpan(s: State, name: seq<byte>, kind: byte, trace: Id16, id: Id8, parent: Option<Id8>, now: u64): Span {
    Span(s.started, trace, id, parent, kind, now, 0, false, name, [], [], 0, [])
  }

  predicate ValidKind(kind: byte) { 1 <= kind <= 5 }

  predicate KVValid(kv: KV) { kv.key != [] }

  predicate AllZero(b: seq<byte>) { forall i :: 0 <= i < |b| ==> b[i] == 0 }

  /** Arguments the call refuses before it looks at anything else. */
  predicate BadArgs(c: Call) {
    match c
    case Start(_, kind, _, _, _, _) => !ValidKind(kind)
    case StartRemote(_, kind, trace, parent, _, _) => !ValidKind(kind) || AllZero(trace) || AllZero(parent)
    case SetAttribute(_, kv) => !KVValid(kv)
    case AddEvent(_, _, attrs, _) => exists kv :: kv in attrs && !KVValid(kv)
    case SetStatus(_, code, _) => code > 2
    case End(_, _) => false
    case Encode(_) => false
  }

  /** The handle a call names does not lead to a span it can use. */
  predicate BadHandle(s: State, c: Call) {
    match c
    case Start(_, _, parent, _, _, _) => parent.Some? && parent.value !in s.spans
    case StartRemote(_, _, _, _, _, _) => false
    case SetAttribute(h, _) => !OpenAt(s, h)
    case AddEvent(h, _, _, _) => !OpenAt(s, h)
    case SetStatus(h, _, _) => !OpenAt(s, h)
    case End(h, _) => !OpenAt(s, h)
    case Encode(_) => false
  }

  /** A per-span cap refuses the item. */
  predicate OverLimit(s: State, c: Call)
    requires !BadHandle(s, c)
  {
    match c
    case SetAttribute(h, kv) =>
      FirstKey(s.spans[h].attrs, kv.key) == |s.spans[h].attrs| && |s.spans[h].attrs| >= s.limits.maxAttrs
    case AddEvent(h, _, _, _) => |s.spans[h].events| >= s.limits.maxEvents
    case _ => false
  }

  function Drop(s: State, spans: nat, attrs: nat, events: nat): State {
    s.(counters := Counters(Add32(s.counters.spans, spans), Add32(s.counters.attrs, attrs),
                            Add32(s.counters.events, events)),
       drops := Drops(s.drops.spans + spans, s.drops.attrs + attrs, s.drops.events + events))
  }

  /** What a refused item costs: one drop of its kind. A status message is not counted. */
  function Refused(s: State, c: Call): State {
    match c
    case Start(_, _, _, _, _, _) => Drop(s, 1, 0, 0)
    case StartRemote(_, _, _, _, _, _) => Drop(s, 1, 0, 0)
    case SetAttribute(_, _) => Drop(s, 0, 1, 0)
    case AddEvent(_, _, _, _) => Drop(s, 0, 0, 1)
    case _ => s
  }

  function SpansOf(s: State, order: seq<Handle>): (r: seq<Span>)
    requires forall h <- order :: h in s.spans
    ensures |r| == |order|
  {
    seq(|order|, i requires 0 <= i < |order| => s.spans[order[i]])
  }

  /** Every ended span leaves, in end order, with the drops counted since the last encode. */
  predicate Encoded(s: State, s': State) {
    && (forall h <- s.order :: h in s.spans)
    && s' == s.(spans := map h | h in s.spans && h !in s.order :: s.spans[h],
                order := [], counters := NO_DROPS,
                payloads := s.payloads + [Payload(SpansOf(s, s.order), s.counters.spans,
                                                  s.counters.attrs + s.counters.events)])
  }

  /** The span a start call creates. */
  function Newborn(s: State, c: Call): Span
    requires (c.Start? || c.StartRemote?) && !BadHandle(s, c)
  {
    match c
    case Start(name, kind, Some(p), _, newSpan, now) =>
      NewSpan(s, name, kind, s.spans[p].traceId, newSpan, Some(s.spans[p].spanId), now)
    case Start(name, kind, None, newTrace, newSpan, now) =>
      NewSpan(s, name, kind, newTrace, newSpan, None, now)
    case StartRemote(name, kind, trace, parent, newSpan, now) =>
      NewSpan(s, name, kind, trace, newSpan, Some(parent), now)
  }

  /** The effect of a call that returns Ok; `h` is the handle a start call gives out. */
  predicate Succeeds(s: State, c: Call, h: Handle, s': State)
    requires !BadHandle(s, c)
  {
    match c
    case Start(_, _, _, _, _, _) => Started(s, s', h, Newborn(s, c))
    case StartRemote(_, _, _, _, _, _) => Started(s, s', h, Newborn(s, c))
    case SetAttribute(x, kv) =>
      s' == s.(spans := s.spans[x := s.spans[x].(attrs := SetAttr(s.spans[x].attrs, kv))])
    case AddEvent(x, name, attrs, now) =>
      var kept := Kept(attrs, s.limits.maxEventAttrs);
      s' == Drop(s.(spans := s.spans[x := s.spans[x].(events := s.spans[x].events + [Event(now, name, kept)])]),
                 0, |attrs| - |kept|, 0)
    case SetStatus(x, code, message) =>
      s' == s.(spans := s.spans[x := s.spans[x].(statusCode := code, message := message)])
    case End(x, now) =>
      s' == s.(spans := s.spans[x := s.spans[x].(ended := true, end := now)], order := s.order + [x])
    case Encode(_) => Encoded(s, s')
  }

  /** One call and its result. Whether there is space is the buffer's business; all else is decided here. */
  predicate Step(s: State, c: Call, r: Status, h: Handle, s': State) {
    if BadArgs(c) then r == ErrArg && s' == s
    else if BadHandle(s, c) then r == ErrState && s' == s
    else if c.Encode? && c.backend != Ok then r == c.backend && s' == s
    else if OverLimit(s, c) then r == ErrLimit && s' == Refused(s, c)
    else if r == ErrNoSpace then !c.End? && !c.Encode? && s' == Refused(s, c)
    else r == Ok && Succeeds(s, c, h, s')
  }

  // ---------------------------------------------------------------- Invariant

  /** Serial numbers of all spans ever emitted, payload after payload. */
  function Emitted(payloads: seq<Payload>): seq<nat> {
    if payloads == [] then [] else Emitted(payloads[..|payloads| - 1]) + Serials(payloads[|payloads| - 1].spans)
  }

  function Serials(spans: seq<Span>): (r: seq<nat>)
    ensures |r| == |spans|
  {
    seq(|spans|, i requires 0 <= i < |spans| => spans[i].serial)
  }

  predicate NoDup<T(==)>(s: seq<T>) { forall i, j :: 0 <= i < j < |s| ==> s[i] != s[j] }

  /** Each span in use has its own serial number, and a handle made from it. */
  ghost predicate SerialsOk(s: State) {
    && (forall h :: h in s.spans ==> s.spans[h].serial < s.started && h / 0x1_0000 == GenOf(s.spans[h].serial))
    && (forall h, k :: h in s.spans && k in s.spans && s.spans[h].serial == s.spans[k].serial ==> h == k)
  }

  /** The end order lists exactly the ended spans, each once. */
  ghost predicate OrderOk(s: State) {
    && NoDup(s.order)
    && (forall h :: h in s.order <==> h in s.spans && s.spans[h].ended)
  }

  /** Every span ever started is in use or has been emitted, never both, and was emitted at most once. */
  ghost predicate EmissionOk(s: State) {
    && NoDup(Emitted(s.payloads))
    && (forall n :: n in Emitted(s.payloads) ==> n < s.started)
    && (forall h :: h in s.spans ==> s.spans[h].serial !in Emitted(s.payloads))
    && (forall n :: 0 <= n < s.started && n !in Emitted(s.payloads) ==> InUse(s, n))
  }

  ghost predicate InUse(s: State, n: nat) { exists h :: h in s.spans && s.spans[h].serial == n }

  ghost predicate Inv(s: State) { SerialsOk(s) && OrderOk(s) && EmissionOk(s) }

  predicate Initial(s: State) {
    s == State(s.limits, map[], [], 0, NO_DROPS, [], Drops(0, 0, 0))
  }

  lemma InitialInv(s: State)
    requires Initial(s)
    ensures Inv(s)
  {}

  lemma StartedKeepsEmission(s: State, s': State, h: Handle, x: Span)
    requires SerialsOk(s) && EmissionOk(s) && Started(s, s', h, x)
    ensures EmissionOk(s')
  {
    hide Emitted, NoDup, GenOf;
    assert InUse(s', s.started) by { assert s'.spans[h].serial == s.started; }
    forall n | 0 <= n < s.started && n !in Emitted(s'.payloads)
      ensures InUse(s', n)
    {
      assert InUse(s, n);
      var k :| k in s.spans && s.spans[k].serial == n;
      assert k in s'.spans && s'.spans[k].serial == n;
    }
  }

  lemma StartedKeepsOrder(s: State, s': State, h: Handle, x: Span)
    requires OrderOk(s) && Started(s, s', h, x)
    ensures OrderOk(s')
  {
    hide NoDup, GenOf;
  }

  lemma StartedKeepsSerials(s: State, s': State, h: Handle, x: Span)
    requires SerialsOk(s) && Started(s, s', h, x)
    ensures SerialsOk(s')
  {
    hide GenOf;
  }

  lemma StartedKeepsInv(s: State, s': State, h: Handle, x: Span)
    requires Inv(s) && Started(s, s', h, x)
    ensures Inv(s')
  {
    hide SerialsOk, OrderOk, EmissionOk, Started;
    StartedKeepsSerials(s, s', h, x);
    StartedKeepsOrder(s, s', h, x);
    StartedKeepsEmission(s, s', h, x);
  }

  /** A call that rewrites one span, keeping its identity. */
  lemma RewriteKeepsInv(s: State, s': State, h: Handle, x: Span)
    requires Inv(s) && h in s.spans && x.serial == s.spans[h].serial
    requires s'.spans == s.spans[h := x] && s'.started == s.started && s'.payloads == s.payloads
    requires OrderOk(s')
    ensures Inv(s')
  {
    forall n | 0 <= n < s'.started && n !in Emitted(s'.payloads)
      ensures InUse(s', n)
    {
      assert InUse(s, n);
      var k :| k in s.spans && s.spans[k].serial == n;
      assert k in s'.spans && s'.spans[k].serial == n;
    }
  }

  lemma EncodedSerials(s: State, s': State)
    requires Inv(s) && Encoded(s, s')
    ensures Emitted(s'.payloads) == Emitted(s.payloads) + Serials(SpansOf(s, s.order))
  {
    assert s'.payloads[..|s'.payloads| - 1] == s.payloads;
  }

  lemma EncodedSent(s: State, s': State, n: nat)
    requires Inv(s) && Encoded(s, s')
    ensures n in Serials(SpansOf(s, s.order)) ==> exists h :: h in s.order && h in s.spans && s.spans[h].serial == n
  {
    hide Inv;
    var sent := Serials(SpansOf(s, s.order));
    if n in sent {
      var i :| 0 <= i < |sent| && sent[i] == n;
      assert s.order[i] in s.order;
    }
  }

  lemma SentSerials(s: State, s': State, i: nat)
    requires Encoded(s, s') && i < |s.order|
    ensures s.order[i] in s.spans && Serials(SpansOf(s, s.order))[i] == s.spans[s.order[i]].serial
  {}

  lemma SentDistinct(s: State, s': State)
    requires Inv(s) && Encoded(s, s')
    ensures NoDup(Serials(SpansOf(s, s.order)))
  {
    hide Emitted, EmissionOk, SpansOf;
    var sent := Serials(SpansOf(s, s.order));
    forall i, j | 0 <= i < j < |sent|
      ensures sent[i] != sent[j]
    {
      SentSerials(s, s', i);
      SentSerials(s, s', j);
    }
  }

  lemma NoDupConcat(a: seq<nat>, b: seq<nat>)
    requires NoDup(a) && NoDup(b) && forall i :: 0 <= i < |b| ==> b[i] !in a
    ensures NoDup(a + b)
  {
    var all := a + b;
    forall i, j | 0 <= i < j < |all|
      ensures all[i] != all[j]
    {
      if |a| <= j { assert all[j] == b[j - |a|]; }
      if |a| <= i { assert all[i] == b[i - |a|]; }
    }
  }

  lemma SentOnce(s: State, s': State)
    requires Inv(s) && Encoded(s, s')
    ensures NoDup(Emitted(s'.payloads))
  {
    hide Emitted, SpansOf, NoDup, SerialsOk, OrderOk;
    EncodedSerials(s, s');
    SentDistinct(s, s');
    var was, sent := Emitted(s.payloads), Serials(SpansOf(s, s.order));
    forall i | 0 <= i < |sent|
      ensures sent[i] !in was
    {
      SentSerials(s, s', i);
    }
    NoDupConcat(was, sent);
  }

  lemma EncodedKeepsEmission(s: State, s': State)
    requires Inv(s) && Encoded(s, s')
    ensures EmissionOk(s')
  {
    hide Emitted, Serials, SpansOf, NoDup;
    EncodedSerials(s, s');
    SentOnce(s, s');
    forall n | n in Emitted(s'.payloads)
      ensures n < s'.started
    {
      EncodedSent(s, s', n);
    }
    forall h | h in s'.spans
      ensures s'.spans[h].serial !in Emitted(s'.payloads)
    {
      EncodedSent(s, s', s'.spans[h].serial);
    }
    forall n | 0 <= n < s'.started && n !in Emitted(s'.payloads)
      ensures InUse(s', n)
    {
      assert n !in Emitted(s.payloads) && InUse(s, n);
      var k :| k in s.spans && s.spans[k].serial == n;
      if k in s.order { OrderedIsEmitted(s, s', k); }
      assert k in s'.spans && s'.spans[k].serial == n;
    }
  }

  lemma EncodedKeepsInv(s: State, s': State)
    requires Inv(s) && Encoded(s, s')
    ensures Inv(s')
  {
    hide EmissionOk, Emitted, SpansOf;
    EncodedKeepsEmission(s, s');
  }

  lemma OrderedIsEmitted(s: State, s': State, h: Handle)
    requires Inv(s) && Encoded(s, s') && h in s.order
    ensures s.spans[h].serial in Emitted(s'.payloads)
  {
    EncodedSerials(s, s');
    var i :| 0 <= i < |s.order| && s.order[i] == h;
    assert Serials(SpansOf(s, s.order))[i] == s.spans[h].serial;
  }

  /** Every call, whatever it returns, keeps the invariant. */
  lemma StepKeepsInv(s: State, c: Call, r: Status, h: Handle, s': State)
    requires Inv(s) && Step(s, c, r, h, s')
    ensures Inv(s')
  {
    hide SerialsOk, EmissionOk, Encoded, SetAttr, Newborn;
    if r == Ok {
      match c {
        case Start(_, _, _, _, _, _) => StartedKeepsInv(s, s', h, Newborn(s, c));
        case StartRemote(_, _, _, _, _, _) => StartedKeepsInv(s, s', h, Newborn(s, c));
        case SetAttribute(x, kv) => RewriteKeepsInv(s, s', x, s'.spans[x]);
        case AddEvent(x, _, _, _) => RewriteKeepsInv(s, s', x, s'.spans[x]);
        case SetStatus(x, _, _) => RewriteKeepsInv(s, s', x, s'.spans[x]);
        case End(x, _) => RewriteKeepsInv(s, s', x, s'.spans[x]);
        case Encode(_) => EncodedKeepsInv(s, s');
      }
    } else if s' != s {
      SameSpansSameInv(s, s');
    }
  }

  lemma SameSpansSameInv(s: State, s': State)
    requires Inv(s) && s'.spans == s.spans && s'.order == s.order && s'.started == s.started
    requires s'.payloads == s.payloads
    ensures Inv(s')
  {
    forall n | 0 <= n < s'.started && n !in Emitted(s'.payloads)
      ensures InUse(s', n)
    {
      assert InUse(s, n);
    }
  }

  // ---------------------------------------------------------------- Runs

  /** What one call did: its arguments, its result and the handle it gave out, if any. */
  datatype Done = Done(call: Call, result: Status, handle: Handle)

  /** A run: the states before, between and after a sequence of calls. */
  ghost predicate Run(states: seq<State>, calls: seq<Done>) {
    && |states| == |calls| + 1
    && Initial(states[0])
    && forall i :: 0 <= i < |calls| ==> StepAt(states, calls, i)
  }

  ghost predicate StepAt(states: seq<State>, calls: seq<Done>, i: nat)
    requires i + 1 < |states| && i < |calls|
  {
    Step(states[i], calls[i].call, calls[i].result, calls[i].handle, states[i + 1])
  }

  lemma {:induction false} RunKeepsInv(states: seq<State>, calls: seq<Done>, i: nat)
    requires Run(states, calls) && i < |states|
    ensures Inv(states[i])
    decreases i
  {
    hide Inv, Step, Initial;
    if i == 0 {
      InitialInv(states[0]);
    } else {
      RunKeepsInv(states, calls, i - 1);
      assert StepAt(states, calls, i - 1);
      var d := calls[i - 1];
      StepKeepsInv(states[i - 1], d.call, d.result, d.handle, states[i]);
    }
  }

  predicate IsStart(d: Done) { (d.call.Start? || d.call.StartRemote?) && d.result == Ok }

  /** The span with serial number n, while it has not been emitted, is the one handle h leads to. */
  predicate Keeps(s: State, h: Handle, n: nat) {
    n < s.started && (n !in Emitted(s.payloads) ==> h in s.spans && s.spans[h].serial == n)
  }

  lemma StartKeeps(s: State, d: Done, s': State)
    requires Inv(s) && IsStart(d) && Step(s, d.call, d.result, d.handle, s')
    ensures Keeps(s', d.handle, s.started)
  {
    hide Inv, Emitted;
  }

  lemma RefusedKeepsSpans(s: State, c: Call)
    ensures var s' := Refused(s, c);
            && s'.spans == s.spans && s'.order == s.order && s'.started == s.started
            && s'.payloads == s.payloads && s'.limits == s.limits
  {}

  /** A call that fails changes no span and no order, only the drop counters if it dropped something. */
  lemma ErrorKeepsSpans(s: State, c: Call, r: Status, h: Handle, s': State)
    requires Step(s, c, r, h, s') && r != Ok
    ensures s' == s.(counters := s'.counters, drops := s'.drops)
    ensures s' == s || (r == ErrLimit || r == ErrNoSpace)
  {
    hide Drop, SetAttr, Newborn, Kept;
    RefusedOnlyCounts(s, c);
  }

  lemma RefusedOnlyCounts(s: State, c: Call)
    ensures Refused(s, c) == s.(counters := Refused(s, c).counters, drops := Refused(s, c).drops)
  {}

  lemma EncodeKeepsHandle(s: State, s': State, h: Handle, n: nat)
    requires Inv(s) && Encoded(s, s') && Keeps(s, h, n)
    ensures Keeps(s', h, n)
  {
    hide Inv, Emitted, SpansOf;
    EncodedSerials(s, s');
    if n !in Emitted(s.payloads) && h in s.order { OrderedIsEmitted(s, s', h); }
  }

  lemma StepKeepsHandle(s: State, d: Done, s': State, h: Handle, n: nat)
    requires Inv(s) && Step(s, d.call, d.result, d.handle, s') && Keeps(s, h, n)
    ensures Keeps(s', h, n)
  {
    hide SerialsOk, OrderOk, SetAttr, Newborn, Emitted, EmissionOk, Kept, Refused;
    if d.call.Encode? && d.result == Ok {
      EncodeKeepsHandle(s, s', h, n);
    } else if d.result != Ok {
      RefusedKeepsSpans(s, d.call);
    }
  }

  lemma {:induction false} RunKeepsHandle(states: seq<State>, calls: seq<Done>, i: nat, j: nat)
    requires Run(states, calls) && i < j < |states| && IsStart(calls[i])
    ensures Keeps(states[j], calls[i].handle, states[i].started)
    decreases j
  {
    hide Inv, Step, Initial, Keeps, IsStart;
    RunKeepsInv(states, calls, j - 1);
    assert StepAt(states, calls, j - 1);
    if j == i + 1 {
      StartKeeps(states[i], calls[i], states[j]);
    } else {
      RunKeepsHandle(states, calls, i, j - 1);
      StepKeepsHandle(states[j - 1], calls[j - 1], states[j], calls[i].handle, states[i].started);
    }
  }

  lemma SameGeneration(n: nat, m: nat)
    requires GenOf(n) == GenOf(m) && n < m
    ensures m >= n + GENERATIONS
  {
    assert n == GENERATIONS * (n / GENERATIONS) + n % GENERATIONS;
    assert m == GENERATIONS * (m / GENERATIONS) + m % GENERATIONS;
  }

  /**
   Handle safety. In every run, the handle a start call gave out leads to the very span it was given
   out for until that span has been emitted; from then on it leads to nothing, unless at least 65535
   further spans have been started since.
   */
  lemma HandleSafety(states: seq<State>, calls: seq<Done>, i: nat, j: nat)
    requires Run(states, calls) && i < j < |states| && IsStart(calls[i])
    ensures var s, h, n := states[j], calls[i].handle, states[i].started;
            && (n !in Emitted(s.payloads) ==> h in s.spans && s.spans[h].serial == n)
            && (n in Emitted(s.payloads) ==> h !in s.spans || s.started > n + 65535)
  {
    hide Step, Initial;
    RunKeepsInv(states, calls, j);
    RunKeepsHandle(states, calls, i, j);
    var s, h, n := states[j], calls[i].handle, states[i].started;
    if n in Emitted(s.payloads) && h in s.spans {
      StartGeneration(states, calls, i);
      var m := s.spans[h].serial;
      assert GenOf(m) == GenOf(n) && m != n;
      RunOrder(states, calls, i, j, h, n);
      SameGeneration(n, m);
    }
  }

  lemma StartGeneration(states: seq<State>, calls: seq<Done>, i: nat)
    requires Run(states, calls) && i < |calls| && IsStart(calls[i])
    ensures calls[i].handle / 0x1_0000 == GenOf(states[i].started)
  {
    hide GenOf;
    assert StepAt(states, calls, i);
  }

  /** After the n-th span was started under handle h, whatever h leads to is that span or a later one. */
  predicate NotOlder(s: State, h: Handle, n: nat) { h in s.spans ==> n <= s.spans[h].serial }

  lemma {:induction false} RunOrder(states: seq<State>, calls: seq<Done>, i: nat, j: nat, h: Handle, n: nat)
    requires Run(states, calls) && i < j < |states| && IsStart(calls[i])
    requires h == calls[i].handle && n == states[i].started
    ensures NotOlder(states[j], h, n) && n < states[j].started
    decreases j
  {
    hide Inv, Initial, Step, NotOlder;
    assert StepAt(states, calls, j - 1);
    if j > i + 1 {
      RunOrder(states, calls, i, j - 1, h, n);
      StepNotOlder(states[j - 1], calls[j - 1], states[j], h, n);
    } else {
      StartNotOlder(states[i], calls[i], states[j]);
    }
  }

  lemma StartNotOlder(s: State, d: Done, s': State)
    requires Step(s, d.call, d.result, d.handle, s') && IsStart(d)
    ensures NotOlder(s', d.handle, s.started) && s.started < s'.started
  {
    hide Newborn, GenOf;
    StartSerial(s, d.call);
  }

  lemma StepNotOlder(s: State, d: Done, s': State, h: Handle, n: nat)
    requires Step(s, d.call, d.result, d.handle, s') && NotOlder(s, h, n) && n < s.started
    ensures NotOlder(s', h, n) && n < s'.started
  {
    hide SetAttr, Newborn, Kept, Refused, GenOf, SpansOf;
    if d.result != Ok { RefusedKeepsSpans(s, d.call); }
    if IsStart(d) { StartSerial(s, d.call); }
  }

  lemma StartSerial(s: State, c: Call)
    requires (c.Start? || c.StartRemote?) && !BadHandle(s, c)
    ensures Newborn(s, c).serial == s.started
  {}

  // ---------------------------------------------------------------- Exactly-once emission

  predicate IsEncode(d: Done) { d.call.Encode? && d.result == Ok }

  /** An ended span, waiting to be encoded. */
  predicate Waiting(s: State, h: Handle, x: Span) {
    h in s.spans && s.spans[h] == x && x.ended && h in s.order
  }

  lemma EndWaits(s: State, d: Done, s': State)
    requires Inv(s) && d.call.End? && d.result == Ok && Step(s, d.call, d.result, d.handle, s')
    ensures d.call.xspan in s'.spans && Waiting(s', d.call.xspan, s'.spans[d.call.xspan])
    ensures s'.payloads == s.payloads
  {
    hide Inv;
    assert s'.order[|s.order|] == d.call.xspan;
  }

  /** No call but a successful encode can touch an ended span, or emit anything. */
  lemma StepKeepsWaiting(s: State, d: Done, s': State, h: Handle, x: Span)
    requires Step(s, d.call, d.result, d.handle, s') && Waiting(s, h, x) && !IsEncode(d)
    ensures Waiting(s', h, x) && s'.payloads == s.payloads
  {
    hide SetAttr, Newborn, Kept, Refused;
    if d.result != Ok { RefusedKeepsSpans(s, d.call); }
  }

  lemma {:induction false} RunKeepsWaiting(states: seq<State>, calls: seq<Done>, i: nat, k: nat)
    requires Run(states, calls) && i < k < |states| && calls[i].call.End? && calls[i].result == Ok
    requires forall j :: i < j < k ==> !IsEncode(calls[j])
    ensures calls[i].call.xspan in states[i + 1].spans
    ensures Waiting(states[k], calls[i].call.xspan, states[i + 1].spans[calls[i].call.xspan])
    ensures states[k].payloads == states[i].payloads
    decreases k
  {
    hide Step, Inv, Waiting, Initial;
    assert StepAt(states, calls, i) && StepAt(states, calls, k - 1);
    RunKeepsInv(states, calls, i);
    EndWaits(states[i], calls[i], states[i + 1]);
    if k > i + 1 {
      RunKeepsWaiting(states, calls, i, k - 1);
      var h := calls[i].call.xspan;
      StepKeepsWaiting(states[k - 1], calls[k - 1], states[k], h, states[i + 1].spans[h]);
    }
  }

  lemma EncodeEmits(s: State, d: Done, s': State, h: Handle, x: Span)
    requires Inv(s) && IsEncode(d) && Step(s, d.call, d.result, d.handle, s') && Waiting(s, h, x)
    ensures |s'.payloads| == |s.payloads| + 1 && s'.payloads[..|s.payloads|] == s.payloads
    ensures x in s'.payloads[|s.payloads|].spans
    ensures x.serial !in Emitted(s.payloads) && x.serial in Emitted(s'.payloads)
  {
    hide SerialsOk, OrderOk, Emitted;
    OrderedIsEmitted(s, s', h);
    var i :| 0 <= i < |s.order| && s.order[i] == h;
    assert SpansOf(s, s.order)[i] == x;
  }

  lemma StepKeepsEmitted(s: State, d: Done, s': State, n: nat)
    requires Inv(s) && Step(s, d.call, d.result, d.handle, s') && n in Emitted(s.payloads)
    ensures n in Emitted(s'.payloads)
  {
    hide SetAttr, Newborn, Kept, Refused, Inv, Emitted;
    if d.result != Ok { RefusedKeepsSpans(s, d.call); }
    if IsEncode(d) { EncodedSerials(s, s'); }
  }

  lemma {:induction false} RunKeepsEmitted(states: seq<State>, calls: seq<Done>, i: nat, j: nat, n: nat)
    requires Run(states, calls) && i <= j < |states| && n in Emitted(states[i].payloads)
    ensures n in Emitted(states[j].payloads)
    decreases j
  {
    hide Step, Inv, Initial, Emitted;
    if i < j {
      RunKeepsEmitted(states, calls, i, j - 1, n);
      RunKeepsInv(states, calls, j - 1);
      assert StepAt(states, calls, j - 1);
      StepKeepsEmitted(states[j - 1], calls[j - 1], states[j], n);
    }
  }

  /**
   Exactly-once emission. In every run, a span ended by call i is in the payload of the first successful
   encode after it (call k), exactly as it was left; no payload before k has it, and in no later state
   does it occur more than once among all spans emitted.
   */
  lemma EmittedExactlyOnce(states: seq<State>, calls: seq<Done>, i: nat, k: nat, j: nat) returns (x: Span)
    requires Run(states, calls) && i < k < j < |states|
    requires calls[i].call.End? && calls[i].result == Ok && IsEncode(calls[k])
    requires forall q :: i < q < k ==> !IsEncode(calls[q])
    ensures calls[i].call.xspan in states[i + 1].spans && x == states[i + 1].spans[calls[i].call.xspan]
    ensures x.ended && x.serial !in Emitted(states[k].payloads)
    ensures |states[k + 1].payloads| == |states[k].payloads| + 1
    ensures x in states[k + 1].payloads[|states[k].payloads|].spans
    ensures x.serial in Emitted(states[j].payloads) && NoDup(Emitted(states[j].payloads))
  {
    hide Step, Initial, Emitted, SerialsOk, OrderOk;
    RunKeepsWaiting(states, calls, i, k);
    RunKeepsInv(states, calls, k);
    RunKeepsInv(states, calls, j);
    assert StepAt(states, calls, k);
    var h := calls[i].call.xspan;
    x := states[i + 1].spans[h];
    EncodeEmits(states[k], calls[k], states[k + 1], h, x);
    RunKeepsEmitted(states, calls, k + 1, j, x.serial);
  }

  // ---------------------------------------------------------------- Drop accounting

  function ReportedSpans(payloads: seq<Payload>): nat {
    if payloads == [] then 0 else ReportedSpans(payloads[..|payloads| - 1]) + payloads[|payloads| - 1].droppedSpans
  }

  function ReportedItems(payloads: seq<Payload>): nat {
    if payloads == [] then 0 else ReportedItems(payloads[..|payloads| - 1]) + payloads[|payloads| - 1].droppedItems
  }

  /** total is what was reported and is pending, give or take wraps of a 32-bit counter. */
  ghost predicate Accounted(seen: nat, total: nat) {
    exists wraps: nat :: Wrapped(seen, total, wraps)
  }

  predicate Wrapped(seen: nat, total: nat, wraps: nat) { total == seen + wraps * 0x1_0000_0000 }

  ghost predicate DropsOk(s: State) {
    && Accounted(ReportedSpans(s.payloads) + s.counters.spans, s.drops.spans)
    && Accounted(ReportedItems(s.payloads) + s.counters.attrs + s.counters.events, s.drops.attrs + s.drops.events)
  }

  lemma CountOn(rest: nat, x: u32, n: nat, total: nat)
    requires Accounted(rest + x, total)
    ensures Accounted(rest + Add32(x, n), total + n)
  {
    var w: nat :| Wrapped(rest + x, total, w);
    assert x + n == Add32(x, n) + (x + n) / 0x1_0000_0000 * 0x1_0000_0000;
    assert Wrapped(rest + Add32(x, n), total + n, w + (x + n) / 0x1_0000_0000);
  }

  lemma DropKeepsAccount(s: State, spans: nat, attrs: nat, events: nat)
    requires DropsOk(s)
    ensures DropsOk(Drop(s, spans, attrs, events))
  {
    hide Accounted, Add32;
    CountOn(ReportedSpans(s.payloads), s.counters.spans, spans, s.drops.spans);
    var items := ReportedItems(s.payloads);
    CountOn(items + s.counters.events, s.counters.attrs, attrs, s.drops.attrs + s.drops.events);
    CountOn(items + Add32(s.counters.attrs, attrs), s.counters.events, events, s.drops.attrs + attrs + s.drops.events);
  }

  lemma SameAccount(s: State, s': State)
    requires DropsOk(s) && s'.payloads == s.payloads && s'.counters == s.counters && s'.drops == s.drops
    ensures DropsOk(s')
  {
    hide Accounted;
  }

  lemma RefusedKeepsAccount(s: State, c: Call)
    requires DropsOk(s)
    ensures DropsOk(Refused(s, c))
  {
    hide DropsOk, Drop;
    match c
    case Start(_, _, _, _, _, _) => DropKeepsAccount(s, 1, 0, 0);
    case StartRemote(_, _, _, _, _, _) => DropKeepsAccount(s, 1, 0, 0);
    case SetAttribute(_, _) => DropKeepsAccount(s, 0, 1, 0);
    case AddEvent(_, _, _, _) => DropKeepsAccount(s, 0, 0, 1);
    case _ =>
  }

  lemma EncodedKeepsAccount(s: State, s': State)
    requires DropsOk(s) && Encoded(s, s')
    ensures DropsOk(s')
  {
    hide Accounted, SpansOf;
    assert s'.payloads[..|s'.payloads| - 1] == s.payloads;
  }

  lemma EventKeepsAccount(s: State, c: Call, h: Handle, s': State)
    requires DropsOk(s) && c.AddEvent? && !BadHandle(s, c) && Succeeds(s, c, h, s')
    ensures DropsOk(s')
  {
    hide DropsOk, Drop, Kept;
    var x, kept := s.spans[c.espan], Kept(c.attrs, s.limits.maxEventAttrs);
    var added := s.(spans := s.spans[c.espan := x.(events := x.events + [Event(c.enow, c.ename, kept)])]);
    SameAccount(s, added);
    KeptAtMost(c.attrs, s.limits.maxEventAttrs);
    DropKeepsAccount(added, 0, |c.attrs| - |kept|, 0);
  }

  lemma KeptAtMost(attrs: seq<KV>, max: u16)
    ensures |Kept(attrs, max)| <= |attrs|
  {}

  lemma StepKeepsAccount(s: State, c: Call, r: Status, h: Handle, s': State)
    requires DropsOk(s) && Step(s, c, r, h, s')
    ensures DropsOk(s')
  {
    hide DropsOk, Drop, SetAttr, Newborn, SpansOf, Refused, Encoded, Kept, GenOf;
    if r != Ok {
      RefusedKeepsAccount(s, c);
    } else if c.AddEvent? {
      EventKeepsAccount(s, c, h, s');
    } else if c.Encode? {
      EncodedKeepsAccount(s, s');
    } else {
      SameAccount(s, s');
    }
  }

  lemma {:induction false} RunKeepsAccount(states: seq<State>, calls: seq<Done>, i: nat)
    requires Run(states, calls) && i < |states|
    ensures DropsOk(states[i])
    decreases i
  {
    hide Step, DropsOk;
    if i == 0 {
      InitialAccount(states[0]);
    } else {
      RunKeepsAccount(states, calls, i - 1);
      assert StepAt(states, calls, i - 1);
      var d := calls[i - 1];
      StepKeepsAccount(states[i - 1], d.call, d.result, d.handle, states[i]);
    }
  }

  lemma NothingCounted()
    ensures Accounted(0, 0)
  {
    assert Wrapped(0, 0, 0);
  }

  lemma InitialAccount(s: State)
    requires Initial(s)
    ensures DropsOk(s)
  {
    assert ReportedSpans(s.payloads) == 0 && ReportedItems(s.payloads) == 0;
    NothingCounted();
  }

  /**
   Drop accounting. In every run, the drops reported in successful payloads plus the pending counters are
   all the drops counted, up to whole wraps of the 32-bit counters; so with fewer than 2^32 drops of a kind
   they are exactly those.
   */
  lemma DropsAreReported(states: seq<State>, calls: seq<Done>, i: nat)
    requires Run(states, calls) && i < |states|
    ensures var s := states[i];
            var spans := ReportedSpans(s.payloads) + s.counters.spans;
            var items := ReportedItems(s.payloads) + s.counters.attrs + s.counters.events;
            && Accounted(spans, s.drops.spans) && Accounted(items, s.drops.attrs + s.drops.events)
            && (s.drops.spans < 0x1_0000_0000 ==> spans == s.drops.spans)
            && (s.drops.attrs + s.drops.events < 0x1_0000_0000 ==> items == s.drops.attrs + s.drops.events)
  {
    hide Run, Accounted;
    RunKeepsAccount(states, calls, i);
    var s := states[i];
    NoWrap(ReportedSpans(s.payloads) + s.counters.spans, s.drops.spans);
    NoWrap(ReportedItems(s.payloads) + s.counters.attrs + s.counters.events, s.drops.attrs + s.drops.events);
  }

  lemma NoWrap(seen: nat, total: nat)
    requires Accounted(seen, total)
    ensures total < 0x1_0000_0000 ==> seen == total
  {
    var w: nat :| Wrapped(seen, total, w);
  }
}
