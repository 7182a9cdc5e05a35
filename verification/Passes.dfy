/**
 The three passes of the compactor, apart from the loops that run them: what each pass has
 established after any number of steps, and that together they keep every span.
 */
module Passes {
  import opened Basics
  import opened RecordFormat
  import opened Layout
  import opened Compaction
  import opened Chains

  const MAX_BUFFER := 0xffff_fff0

  lemma UsedIsZero(stack: seq<Chunk>, i: nat)
    requires i <= |stack| && WfStack(stack)
    ensures Used(stack, i) <= 0 <==> i == 0
  {
    hide WfStack;
    UsedGrows(stack, 0, i);
  }

  /** Chunk i after pass 1: its new offset if it is live, and the chunk below it. */
  predicate IsPlanned(c: Chunk, was: seq<Chunk>, flags: seq<bool>, top: nat, i: nat)
    requires i < |was| == |flags|
  {
    && SameButRefs(was[i], c)
    && c.hdr.next == was[i].hdr.next
    && c.hdr.fwd == (if flags[i] then NewOff(was, flags, top, i) else NONE32)
    && c.hdr.below == (if i + 1 < |was| then Off(was, top, i + 1) else NONE32)
  }

  /** Pass 1 has visited the chunks from i on, that is, the lower ones. */
  ghost predicate PlannedFrom(stack: seq<Chunk>, was: seq<Chunk>, flags: seq<bool>, top: nat, i: nat) {
    && |stack| == |was| == |flags| && i <= |was|
    && (forall j :: 0 <= j < i ==> stack[j] == was[j])
    && (forall j :: i <= j < |was| ==> IsPlanned(stack[j], was, flags, top, j))
  }

  lemma PlanOne(stack: seq<Chunk>, was: seq<Chunk>, flags: seq<bool>, top: nat, i: nat, c: Chunk)
    requires i < |was| && PlannedFrom(stack, was, flags, top, i + 1) && IsPlanned(c, was, flags, top, i)
    ensures PlannedFrom(stack[i := c], was, flags, top, i)
  {
    hide IsPlanned;
  }

  lemma NonePlanned(was: seq<Chunk>, flags: seq<bool>, top: nat)
    requires |was| == |flags|
    ensures PlannedFrom(was, was, flags, top, |was|)
  {}

  lemma AllPlanned(stack: seq<Chunk>, was: seq<Chunk>, flags: seq<bool>, top: nat)
    requires PlannedFrom(stack, was, flags, top, 0)
    ensures |stack| == |was| == |flags|
    ensures forall j :: 0 <= j < |was| ==> IsPlanned(stack[j], was, flags, top, j)
  {}

  /** The offsets one step of pass 1 works with. */
  lemma PlanOffsets(stack: seq<Chunk>, was: seq<Chunk>, flags: seq<bool>, top: nat, i: nat)
    requires i < |was| && PlannedFrom(stack, was, flags, top, i + 1) && WfStack(was) && Used(was, |was|) <= top
    ensures |stack| == |was| && stack[i] == was[i] && WfChunk(was[i])
    ensures 0 <= Off(stack, top, i) == Off(was, top, i) == top - Used(was, i + 1)
    ensures Used(was, i + 1) == Used(was, i) + was[i].hdr.size
    ensures LiveUsed(was, flags, i + 1) <= top
    ensures LiveUsed(was, flags, i + 1) == LiveUsed(was, flags, i) + if flags[i] then was[i].hdr.size else 0
  {
    hide IsPlanned;
    UsedSame(stack, was, i + 1);
    UsedGrows(was, i + 1, |was|);
    LiveUsedGrows(was, flags, i + 1, i + 1);
  }

  /** Everything pass 2 relies on: the stack `was` was planned into `stack`, and the lists are sound. */
  ghost predicate ReadyToFix(slots: seq<SpanRec>, stack: seq<Chunk>, was: seq<Chunk>, flags: seq<bool>, top: nat,
                             chains: seq<Chain>)
  {
    && |stack| == |was| == |flags| && flags == LiveFlags(slots, was)
    && WfStack(was) && Used(was, |was|) <= top <= MAX_BUFFER
    && LinksOk(slots, was, top, chains)
    && LiveReached(slots, was, chains)
    && forall j :: 0 <= j < |was| ==> IsPlanned(stack[j], was, flags, top, j)
  }

  /** A chunk that pass 2 has handled, or not yet: only its `next` may differ from the planned one. */
  predicate OnlyNext(planned: Chunk, c: Chunk) {
    c == planned.(hdr := planned.hdr.(next := c.hdr.next))
  }

  ghost predicate FixedFrom(stack: seq<Chunk>, planned: seq<Chunk>, was: seq<Chunk>, flags: seq<bool>, top: nat,
                            chains: seq<Chain>, i: nat)
  {
    && |stack| == |planned| == |was| == |flags| && i <= |was|
    && (forall j :: 0 <= j < |was| ==> OnlyNext(planned[j], stack[j]))
    && (forall j :: 0 <= j < i ==> stack[j] == planned[j])
    && (forall s, k :: 0 <= s < |chains| && 0 <= k < |chains[s]| && i <= chains[s][k] < |was| ==>
          stack[chains[s][k]].hdr.next == NewRefAt(was, flags, top, chains[s], k + 1))
  }

  lemma ReadyLinks(slots: seq<SpanRec>, stack: seq<Chunk>, was: seq<Chunk>, flags: seq<bool>, top: nat,
                   chains: seq<Chain>)
    requires ReadyToFix(slots, stack, was, flags, top, chains)
    ensures LinksOk(slots, was, top, chains) && |chains| == |slots|
    ensures |stack| == |was| == |flags| && flags == LiveFlags(slots, was)
    ensures WfStack(was) && Used(was, |was|) <= top <= MAX_BUFFER
    ensures forall j :: 0 <= j < |was| ==> OnlyNext(stack[j], stack[j])
  {
    hide ChainOk, LiveReached, IsPlanned, Used, WfStack;
  }

  /** A planned chunk, with or without its new `next`. */
  lemma PlannedAt(slots: seq<SpanRec>, stack: seq<Chunk>, planned: seq<Chunk>, was: seq<Chunk>, flags: seq<bool>,
                  top: nat, chains: seq<Chain>, j: nat)
    requires ReadyToFix(slots, planned, was, flags, top, chains) && j < |was|
    requires |stack| == |was| && OnlyNext(planned[j], stack[j])
    ensures |was| == |flags| && stack[j].hdr.size == was[j].hdr.size
    ensures stack[j].hdr.fwd == if flags[j] then NewOff(was, flags, top, j) else NONE32
  {
    hide LinksOk, LiveReached, NewOff, Used, WfStack, Off;
    assert IsPlanned(planned[j], was, flags, top, j);
  }

  lemma PlannedOff(slots: seq<SpanRec>, stack: seq<Chunk>, planned: seq<Chunk>, was: seq<Chunk>, flags: seq<bool>,
                   top: nat, chains: seq<Chain>, i: nat)
    requires ReadyToFix(slots, planned, was, flags, top, chains) && i < |was|
    requires |stack| == |was| && forall j :: 0 <= j < |was| ==> OnlyNext(planned[j], stack[j])
    ensures Off(stack, top, i) == Off(was, top, i)
  {
    hide ReadyToFix, Used;
    forall j | 0 <= j < i + 1
      ensures stack[j].hdr.size == was[j].hdr.size
    {
      PlannedAt(slots, stack, planned, was, flags, top, chains, j);
    }
    UsedSame(stack, was, i + 1);
  }

  /** What reading the planned chunk behind a reference gives. */
  lemma ForwardTarget(slots: seq<SpanRec>, stack: seq<Chunk>, planned: seq<Chunk>, was: seq<Chunk>, flags: seq<bool>,
                      top: nat, chains: seq<Chain>, s: nat, k: int)
    requires ReadyToFix(slots, planned, was, flags, top, chains) && s < |chains|
    requires |stack| == |was| && forall j :: 0 <= j < |was| ==> OnlyNext(planned[j], stack[j])
    ensures |was| == |flags|
    ensures 0 <= k < |chains[s]| ==>
              var i := chains[s][k];
              && i < |stack| && 0 <= RefAt(was, top, chains[s], k) == Off(stack, top, i) < NONE32
              && stack[i].hdr.fwd == NewRefAt(was, flags, top, chains[s], k)
    ensures !(0 <= k < |chains[s]|) ==>
              RefAt(was, top, chains[s], k) == NONE32 == NewRefAt(was, flags, top, chains[s], k)
  {
    hide ReadyToFix, NewOff, Off, Used, LinksOk, ChainOk, WfStack, LiveFlags;
    ReadyLinks(slots, planned, was, flags, top, chains);
    if 0 <= k < |chains[s]| {
      var i := chains[s][k];
      ChainAtSlot(slots, was, top, chains, s);
      ChainIsLive(slots, was, top, chains[s], s, k);
      PlannedAt(slots, stack, planned, was, flags, top, chains, i);
      PlannedOff(slots, stack, planned, was, flags, top, chains, i);
      OffsetInBuffer(was, top, i);
    }
  }

  lemma ChainAtSlot(slots: seq<SpanRec>, stack: seq<Chunk>, top: nat, chains: seq<Chain>, s: nat)
    requires LinksOk(slots, stack, top, chains) && s < |slots|
    ensures |chains| == |slots| && ChainOk(slots[s], stack, top, chains[s], s)
  {
    hide ChainOk;
  }

  lemma OffsetInBuffer(stack: seq<Chunk>, top: nat, i: nat)
    requires i < |stack| && WfStack(stack) && Used(stack, |stack|) <= top <= MAX_BUFFER
    ensures 0 <= Off(stack, top, i) < NONE32
  {
    hide WfStack, Used;
    OffsetBounds(stack, top, i);
  }

  lemma RefInside(stack: seq<Chunk>, top: nat, c: Chain, k: nat)
    requires k < |c| && c[k] < |stack|
    ensures RefAt(stack, top, c, k) == Off(stack, top, c[k])
  {}

  /** Each chunk is on one list only, in one place. */
  lemma OnePlace(slots: seq<SpanRec>, was: seq<Chunk>, top: nat, chains: seq<Chain>, s: nat, k: nat, s': nat, k': nat)
    requires LinksOk(slots, was, top, chains)
    requires s < |chains| && k < |chains[s]| && s' < |chains| && k' < |chains[s']|
    requires chains[s][k] == chains[s'][k']
    ensures s == s' && k == k'
  {
    hide RefAt;
    assert ChainOk(slots[s], was, top, chains[s], s) && ChainOk(slots[s'], was, top, chains[s'], s');
  }

  /** Where a live chunk stands: on its owner's list. */
  lemma PlaceOf(slots: seq<SpanRec>, stack: seq<Chunk>, was: seq<Chunk>, flags: seq<bool>, top: nat,
                chains: seq<Chain>, i: nat)
    returns (s: nat, k: nat)
    requires ReadyToFix(slots, stack, was, flags, top, chains) && i < |was| && flags[i]
    ensures s < |chains| && k < |chains[s]| && chains[s][k] == i
    ensures was[i].hdr.next == RefAt(was, top, chains[s], k + 1)
  {
    hide RefAt, IsPlanned, LinksOk;
    assert Reached(was[i].hdr, chains, i);
    s := was[i].hdr.owner;
    k :| 0 <= k < |chains[s]| && chains[s][k] == i;
    LinkAt(slots, was, top, chains, s, k);
  }

  lemma LinkAt(slots: seq<SpanRec>, stack: seq<Chunk>, top: nat, chains: seq<Chain>, s: nat, k: nat)
    requires LinksOk(slots, stack, top, chains) && s < |chains| && k < |chains[s]|
    ensures chains[s][k] < |stack|
    ensures stack[chains[s][k]].hdr.next == RefAt(stack, top, chains[s], k + 1)
  {
    hide RefAt;
    assert ChainOk(slots[s], stack, top, chains[s], s);
  }

  lemma FixLive(slots: seq<SpanRec>, stack: seq<Chunk>, planned: seq<Chunk>, was: seq<Chunk>, flags: seq<bool>,
                top: nat, chains: seq<Chain>, i: nat, s: nat, k: nat, c: Chunk)
    requires LinksOk(slots, was, top, chains)
    requires i < |was| && FixedFrom(stack, planned, was, flags, top, chains, i + 1)
    requires s < |chains| && k < |chains[s]| && chains[s][k] == i
    requires OnlyNext(stack[i], c) && c.hdr.next == NewRefAt(was, flags, top, chains[s], k + 1)
    ensures FixedFrom(stack[i := c], planned, was, flags, top, chains, i)
  {
    hide NewRefAt, LinksOk;
    forall s', k' | 0 <= s' < |chains| && 0 <= k' < |chains[s']| && i <= chains[s'][k'] < |was|
      ensures stack[i := c][chains[s'][k']].hdr.next == NewRefAt(was, flags, top, chains[s'], k' + 1)
    {
      if chains[s'][k'] == i { OnePlace(slots, was, top, chains, s, k, s', k'); }
    }
  }

  lemma FixDead(slots: seq<SpanRec>, stack: seq<Chunk>, planned: seq<Chunk>, was: seq<Chunk>, flags: seq<bool>,
                top: nat, chains: seq<Chain>, i: nat)
    requires LinksOk(slots, was, top, chains) && flags == LiveFlags(slots, was)
    requires i < |was| && FixedFrom(stack, planned, was, flags, top, chains, i + 1) && !flags[i]
    ensures FixedFrom(stack, planned, was, flags, top, chains, i)
  {
    hide NewRefAt, ChainOk, LiveFlags;
    forall s', k' | 0 <= s' < |chains| && 0 <= k' < |chains[s']| && i <= chains[s'][k'] < |was|
      ensures stack[chains[s'][k']].hdr.next == NewRefAt(was, flags, top, chains[s'], k' + 1)
    {
      ChainIsLive(slots, was, top, chains[s'], s', k');
    }
  }

  lemma NoneFixed(planned: seq<Chunk>, was: seq<Chunk>, flags: seq<bool>, top: nat, chains: seq<Chain>)
    requires |planned| == |was| == |flags|
    ensures FixedFrom(planned, planned, was, flags, top, chains, |was|)
  {}

  /** The offsets one step of pass 2 works with. */
  lemma FixOffsets(slots: seq<SpanRec>, stack: seq<Chunk>, planned: seq<Chunk>, was: seq<Chunk>, flags: seq<bool>,
                   top: nat, chains: seq<Chain>, i: nat)
    requires ReadyToFix(slots, planned, was, flags, top, chains)
    requires i < |was| && FixedFrom(stack, planned, was, flags, top, chains, i + 1)
    ensures |stack| == |was| && stack[i] == planned[i] && IsPlanned(stack[i], was, flags, top, i)
    ensures forall j :: 0 <= j < |was| ==> OnlyNext(planned[j], stack[j])
    ensures 0 <= Off(stack, top, i) == top - Used(was, i + 1)
    ensures Used(was, i + 1) == Used(was, i) + was[i].hdr.size
    ensures stack[i].hdr.size == was[i].hdr.size && stack[i].hdr.used <= |stack[i].payload|
    ensures stack[i].hdr.fwd != NONE32 <==> flags[i]
  {
    hide LinksOk, LiveReached, NewRefAt, Used, LiveUsed, LiveFlags;
    assert IsPlanned(planned[i], was, flags, top, i);
    assert WfChunk(was[i]);
    hide WfStack;
    forall j | 0 <= j < i + 1
      ensures stack[j].hdr.size == was[j].hdr.size
    {
      assert IsPlanned(planned[j], was, flags, top, j);
    }
    UsedSame(stack, was, i + 1);
    OffsetBounds(was, top, i);
    UsedStep(was, flags, i);
  }

  lemma PlannedUsed(slots: seq<SpanRec>, stack: seq<Chunk>, was: seq<Chunk>, flags: seq<bool>, top: nat,
                    chains: seq<Chain>)
    requires ReadyToFix(slots, stack, was, flags, top, chains)
    ensures |stack| == |was| == |flags| && WfStack(was) && Used(stack, |stack|) == Used(was, |was|)
  {
    hide LinksOk, LiveReached, Used, WfStack;
    forall j | 0 <= j < |was|
      ensures stack[j].hdr.size == was[j].hdr.size
    {
      assert IsPlanned(stack[j], was, flags, top, j);
    }
    UsedSame(stack, was, |was|);
  }

  ghost predicate SlotsForwarded(slots0: seq<SpanRec>, slots: seq<SpanRec>, was: seq<Chunk>, flags: seq<bool>, top: nat,
                                 chains: seq<Chain>, n: nat)
    requires |was| == |flags|
  {
    && |slots| == |slots0| == |chains| && n <= |slots|
    && (forall t :: 0 <= t < n ==> ForwardedRec(slots0[t], slots[t], was, flags, top, chains[t]))
    && (forall t :: n <= t < |slots| ==> slots[t] == slots0[t])
  }

  lemma SlotRefs(slots: seq<SpanRec>, stack: seq<Chunk>, top: nat, chains: seq<Chain>, s: nat)
    requires LinksOk(slots, stack, top, chains) && s < |slots| && slots[s].state != SLOT_FREE
    ensures slots[s].head == RefAt(stack, top, chains[s], 0)
    ensures slots[s].tail == RefAt(stack, top, chains[s], |chains[s]| - 1)
  {
    hide RefAt, Linked, Distinct;
  }

  lemma NoneForwarded(slots: seq<SpanRec>, was: seq<Chunk>, flags: seq<bool>, top: nat, chains: seq<Chain>)
    requires |was| == |flags| && |slots| == |chains|
    ensures SlotsForwarded(slots, slots, was, flags, top, chains, 0)
  {}

  lemma SlotNotYetForwarded(slots0: seq<SpanRec>, slots: seq<SpanRec>, was: seq<Chunk>, flags: seq<bool>, top: nat,
                            chains: seq<Chain>, n: nat)
    requires |was| == |flags| && n < |slots| && SlotsForwarded(slots0, slots, was, flags, top, chains, n)
    ensures |slots| == |slots0| == |chains| && slots[n] == slots0[n]
  {
    hide ForwardedRec;
  }

  lemma SlotsDone(slots0: seq<SpanRec>, slots: seq<SpanRec>, r: SpanRec, was: seq<Chunk>, flags: seq<bool>, top: nat,
                  chains: seq<Chain>, n: nat)
    requires |was| == |flags| && n < |slots| && SlotsForwarded(slots0, slots, was, flags, top, chains, n)
    requires ForwardedRec(slots0[n], r, was, flags, top, chains[n])
    ensures SlotsForwarded(slots0, slots[n := r], was, flags, top, chains, n + 1)
  {
    hide ForwardedRec;
  }

  /** What pass 3 reads in chunk i: whether and where to move it, and which chunk is next. */
  ghost predicate HasPlan(stack: seq<Chunk>, flags: seq<bool>, top: nat, i: nat)
    requires i < |stack| == |flags|
  {
    && stack[i].hdr.fwd == (if flags[i] then NewOff(stack, flags, top, i) else NONE32)
    && stack[i].hdr.below == (if i + 1 < |stack| then Off(stack, top, i + 1) else NONE32)
  }

  lemma PlanAt(stack: seq<Chunk>, flags: seq<bool>, top: nat, k: nat)
    requires |stack| == |flags| && WfStack(stack) && Used(stack, |stack|) <= top <= MAX_BUFFER
    requires k < |stack| && HasPlan(stack, flags, top, k)
    ensures stack[k].hdr.below == if k + 1 < |stack| then Off(stack, top, k + 1) else NONE32
    ensures flags[k] <==> stack[k].hdr.fwd != NONE32
    ensures flags[k] ==> stack[k].hdr.fwd == NewOff(stack, flags, top, k)
    ensures k + 1 < |stack| ==> Off(stack, top, k + 1) < NONE32
    ensures stack[k].hdr.size == |ChunkBytes(stack[k])|
  {
    assert WfChunk(stack[k]);
    hide Used, LiveUsed, WfStack, ChunkBytes;
  }

  lemma MoveKeepsResource(stack: seq<Chunk>, flags: seq<bool>, top: nat, k: nat)
    requires |stack| == |flags| && WfStack(stack) && Used(stack, |stack|) <= top
    requires k < |stack| && flags[k]
    ensures 0 <= NewOff(stack, flags, top, k) && NewOff(stack, flags, top, k) + stack[k].hdr.size <= top
  {
    hide Used, LiveUsed, WfStack, NewOff;
    MoveRoom(stack, flags, top, k);
  }

  lemma NothingMoved(m: seq<byte>, slots: seq<SpanRec>, stack: seq<Chunk>, flags: seq<bool>, top: nat)
    requires Holds(m, slots, stack, top) && |flags| == |stack|
    ensures Moving(m, m, stack, flags, top, 0)
  {
    hide HoldsSlots, WfStack;
  }

  lemma SurvivorsLength(stack: seq<Chunk>, flags: seq<bool>)
    requires |stack| == |flags|
    ensures |Survivors(stack, flags, |stack|)| == Rank(flags, |flags|)
  {}

  lemma GetReady(slots: seq<SpanRec>, stack: seq<Chunk>, was: seq<Chunk>, flags: seq<bool>, top: nat,
                 chains: seq<Chain>)
    requires |stack| == |was| && flags == LiveFlags(slots, was)
    requires WfStack(was) && Used(was, |was|) <= top <= MAX_BUFFER
    requires LinksOk(slots, was, top, chains) && LiveReached(slots, was, chains)
    requires forall j :: 0 <= j < |was| ==> IsPlanned(stack[j], was, flags, top, j)
    ensures ReadyToFix(slots, stack, was, flags, top, chains)
  {
    hide LinksOk, LiveReached, WfStack, Used, LiveFlags, IsPlanned;
  }

  lemma LiveBytesIs(slots: seq<SpanRec>, stack: seq<Chunk>)
    ensures LiveBytes(slots, stack) == LiveUsed(stack, LiveFlags(slots, stack), |stack|)
  {}

  lemma FixedRefs(slots0: seq<SpanRec>, fixed: seq<Chunk>, planned: seq<Chunk>, was: seq<Chunk>, flags: seq<bool>,
                  top: nat, chains: seq<Chain>)
    requires ReadyToFix(slots0, planned, was, flags, top, chains)
    requires FixedFrom(fixed, planned, was, flags, top, chains, 0)
    ensures |fixed| == |was| == |flags|
    ensures forall j :: 0 <= j < |was| ==> SameButRefs(was[j], fixed[j])
  {
    hide LinksOk, LiveReached, NewRefAt, Used, LiveUsed, WfStack;
    forall j | 0 <= j < |was|
      ensures SameButRefs(was[j], fixed[j])
    {
      assert IsPlanned(planned[j], was, flags, top, j) && OnlyNext(planned[j], fixed[j]);
    }
  }

  /** Pass 2 leaves the plan of pass 1 in place. */
  lemma FixKeepsPlan(slots0: seq<SpanRec>, fixed: seq<Chunk>, planned: seq<Chunk>, was: seq<Chunk>, flags: seq<bool>,
                     top: nat, chains: seq<Chain>)
    requires ReadyToFix(slots0, planned, was, flags, top, chains)
    requires FixedFrom(fixed, planned, was, flags, top, chains, 0)
    ensures |fixed| == |was| == |flags|
    ensures forall i :: 0 <= i < |fixed| ==> HasPlan(fixed, flags, top, i)
    ensures LiveUsed(fixed, flags, |fixed|) == LiveUsed(was, flags, |was|)
    ensures fixed != [] ==> Off(fixed, top, 0) == Off(was, top, 0)
  {
    hide ReadyToFix, FixedFrom, Used, LiveUsed;
    FixedRefs(slots0, fixed, planned, was, flags, top, chains);
    LiveUsedSame(fixed, was, flags, |was|);
    if |was| > 0 { UsedSame(fixed, was, 1); }
    forall i | 0 <= i < |fixed|
      ensures HasPlan(fixed, flags, top, i)
    {
      SameNewOff(was, fixed, flags, top, i);
      if i + 1 < |was| { UsedSame(fixed, was, i + 2); }
      PlanStays(slots0, fixed, planned, was, flags, top, chains, i);
    }
  }

  lemma PlanStays(slots0: seq<SpanRec>, fixed: seq<Chunk>, planned: seq<Chunk>, was: seq<Chunk>, flags: seq<bool>,
                  top: nat, chains: seq<Chain>, i: nat)
    requires ReadyToFix(slots0, planned, was, flags, top, chains)
    requires FixedFrom(fixed, planned, was, flags, top, chains, 0) && i < |was|
    ensures |fixed| == |was| == |flags|
    ensures fixed[i].hdr.fwd == if flags[i] then NewOff(was, flags, top, i) else NONE32
    ensures fixed[i].hdr.below == if i + 1 < |was| then Off(was, top, i + 1) else NONE32
  {
    hide LinksOk, LiveReached, NewRefAt, Used, LiveUsed, WfStack, LiveFlags;
    assert IsPlanned(planned[i], was, flags, top, i) && OnlyNext(planned[i], fixed[i]);
  }

  // ---------------------------------------------------------------- The same spans

  /** Two records that may differ only in where their list is stored. */
  predicate SameRec(r: SpanRec, r': SpanRec) {
    r' == r.(head := r'.head, tail := r'.tail)
  }

  /** Nothing a reader of the spans can see has changed. */
  ghost predicate SameSpans(slots: seq<SpanRec>, stack: seq<Chunk>, chains: seq<Chain>,
                            slots': seq<SpanRec>, stack': seq<Chunk>, chains': seq<Chain>) {
    && |slots| == |slots'| && |chains| == |chains'| == |slots|
    && forall s :: 0 <= s < |slots| ==>
         SameRec(slots[s], slots'[s]) && RawItems(stack', chains'[s]) == RawItems(stack, chains[s])
  }

  lemma FixedChain(slots0: seq<SpanRec>, slots: seq<SpanRec>, fixed: seq<Chunk>, planned: seq<Chunk>, was: seq<Chunk>,
                   flags: seq<bool>, top: nat, chains: seq<Chain>, s: nat)
    requires ReadyToFix(slots0, planned, was, flags, top, chains)
    requires FixedFrom(fixed, planned, was, flags, top, chains, 0) && |was| == |flags|
    requires |slots| == |slots0| && SlotsForwarded(slots0, slots, was, flags, top, chains, |slots|) && s < |slots|
    ensures |fixed| == |flags| && |chains| == |slots|
    ensures forall k :: 0 <= k < |chains[s]| ==> chains[s][k] < |flags|
    ensures ChainOk(slots[s], Survivors(fixed, flags, |fixed|), top, Renumber(chains[s], flags), s)
    ensures RawItems(Survivors(fixed, flags, |fixed|), Renumber(chains[s], flags)) == RawItems(was, chains[s])
    ensures SameRec(slots0[s], slots[s])
  {
    hide Used, LiveUsed, WfStack, LiveFlags, ChainOk, NewRefAt, LiveReached, Survivors, IsPlanned, Renumber, RawItems;
    FixedRefs(slots0, fixed, planned, was, flags, top, chains);
    assert ForwardedRec(slots0[s], slots[s], was, flags, top, chains[s]);
    assert ForwardedChain(was, fixed, flags, top, chains[s]);
    CompactedChain(slots0, was, fixed, flags, top, chains[s], s, slots[s]);
  }

  lemma FixedChains(slots0: seq<SpanRec>, slots: seq<SpanRec>, fixed: seq<Chunk>, planned: seq<Chunk>, was: seq<Chunk>,
                    flags: seq<bool>, top: nat, chains: seq<Chain>)
    requires ReadyToFix(slots0, planned, was, flags, top, chains)
    requires FixedFrom(fixed, planned, was, flags, top, chains, 0) && |was| == |flags|
    requires |slots| == |slots0| && SlotsForwarded(slots0, slots, was, flags, top, chains, |slots|)
    ensures |fixed| == |flags| && |chains| == |slots|
    ensures forall s, k :: 0 <= s < |chains| && 0 <= k < |chains[s]| ==> chains[s][k] < |flags|
    ensures var packed, chains' := Survivors(fixed, flags, |fixed|), RenumberAll(chains, flags);
            && LinksOk(slots, packed, top, chains')
            && NoLeak(packed, chains', |packed|)
            && SameSpans(slots0, was, chains, slots, packed, chains')
            && LiveBytes(slots, packed) == Used(packed, |packed|) == LiveUsed(was, flags, |was|)
  {
    hide ReadyToFix, FixedFrom, SlotsForwarded, ChainOk, Survivors, RawItems, LiveBytes, Rank, Renumber, Used,
      LiveUsed, LiveFlags, SameRec;
    FixedRefs(slots0, fixed, planned, was, flags, top, chains);
    ReadyLinks(slots0, planned, was, flags, top, chains);
    IndicesInRange(slots0, was, top, chains);
    var packed := Survivors(fixed, flags, |fixed|);
    var chains' := RenumberAll(chains, flags);
    forall s | 0 <= s < |slots|
      ensures ChainOk(slots[s], packed, top, chains'[s], s)
      ensures SameRec(slots0[s], slots[s]) && RawItems(packed, chains'[s]) == RawItems(was, chains[s])
    {
      FixedChain(slots0, slots, fixed, planned, was, flags, top, chains, s);
    }
    FixedReach(slots0, fixed, planned, was, flags, top, chains, chains');
    AllSurvivorsLive(slots0, slots, fixed, planned, was, flags, top, chains);
  }

  lemma FixedReach(slots0: seq<SpanRec>, fixed: seq<Chunk>, planned: seq<Chunk>, was: seq<Chunk>,
                   flags: seq<bool>, top: nat, chains: seq<Chain>, chains': seq<Chain>)
    requires ReadyToFix(slots0, planned, was, flags, top, chains)
    requires FixedFrom(fixed, planned, was, flags, top, chains, 0) && |fixed| == |was| == |flags|
    requires forall s, k :: 0 <= s < |chains| && 0 <= k < |chains[s]| ==> chains[s][k] < |flags|
    requires chains' == RenumberAll(chains, flags)
    ensures NoLeak(Survivors(fixed, flags, |fixed|), chains', |Survivors(fixed, flags, |fixed|)|)
  {
    hide FixedFrom, Survivors, Rank, RenumberAll, Used, LiveUsed, LiveFlags, LinksOk, WfStack, IsPlanned, Reached;
    FixedRefs(slots0, fixed, planned, was, flags, top, chains);
    var packed := Survivors(fixed, flags, |fixed|);
    SurvivorsLength(fixed, flags);
    forall r | 0 <= r < |packed|
      ensures Reached(packed[r].hdr, chains', r)
    {
      SurvivorIsReached(slots0, was, fixed, flags, chains, chains', r);
    }
  }

  lemma {:induction false} AllLiveUsed(stack: seq<Chunk>, flags: seq<bool>, k: nat)
    requires k <= |stack| == |flags| && forall i :: 0 <= i < k ==> flags[i]
    ensures LiveUsed(stack, flags, k) == Used(stack, k)
  {
    if k > 0 { AllLiveUsed(stack, flags, k - 1); }
  }

  lemma SurvivorIsLive(slots0: seq<SpanRec>, slots: seq<SpanRec>, fixed: seq<Chunk>, planned: seq<Chunk>,
                       was: seq<Chunk>, flags: seq<bool>, top: nat, chains: seq<Chain>, r: nat)
    requires ReadyToFix(slots0, planned, was, flags, top, chains)
    requires FixedFrom(fixed, planned, was, flags, top, chains, 0) && |fixed| == |was| == |flags|
    requires |slots| == |slots0| && SlotsForwarded(slots0, slots, was, flags, top, chains, |slots|)
    requires r < |Survivors(fixed, flags, |fixed|)|
    ensures LiveHdr(slots, Survivors(fixed, flags, |fixed|)[r].hdr)
  {
    hide FixedFrom, Survivors, Rank, Used, LiveUsed, LinksOk, WfStack, IsPlanned, LiveReached;
    FixedRefs(slots0, fixed, planned, was, flags, top, chains);
    SurvivorsLength(fixed, flags);
    var i := SurvivorFrom(fixed, flags, r, |fixed|);
    SurvivorAt(fixed, flags, i);
    assert SameButRefs(was[i], fixed[i]);
    assert LiveHdr(slots0, was[i].hdr);
    assert ForwardedRec(slots0[was[i].hdr.owner], slots[was[i].hdr.owner], was, flags, top, chains[was[i].hdr.owner]);
  }

  /** Right after a compaction nothing more can be reclaimed. */
  lemma AllSurvivorsLive(slots0: seq<SpanRec>, slots: seq<SpanRec>, fixed: seq<Chunk>, planned: seq<Chunk>,
                         was: seq<Chunk>, flags: seq<bool>, top: nat, chains: seq<Chain>)
    requires ReadyToFix(slots0, planned, was, flags, top, chains)
    requires FixedFrom(fixed, planned, was, flags, top, chains, 0) && |fixed| == |was| == |flags|
    requires |slots| == |slots0| && SlotsForwarded(slots0, slots, was, flags, top, chains, |slots|)
    ensures var packed := Survivors(fixed, flags, |fixed|);
            LiveBytes(slots, packed) == Used(packed, |packed|) == LiveUsed(was, flags, |was|)
  {
    hide ReadyToFix, FixedFrom, SlotsForwarded, Survivors, Rank, LiveHdr, Used, LiveUsed;
    var packed := Survivors(fixed, flags, |fixed|);
    forall r | 0 <= r < |packed|
      ensures LiveFlags(slots, packed)[r]
    {
      SurvivorIsLive(slots0, slots, fixed, planned, was, flags, top, chains, r);
    }
    AllLiveUsed(packed, LiveFlags(slots, packed), |packed|);
    SurvivorsUsed(fixed, flags);
    SurvivorsLength(fixed, flags);
    FixKeepsPlan(slots0, fixed, planned, was, flags, top, chains);
  }
}
