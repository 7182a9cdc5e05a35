/**
 The export worker: producers, flushers, a shutdown and one worker thread around a queue, one mutex
 and one condition variable. Every critical section is one step, and so is what the worker does with
 the lock released; a run is any interleaving of steps.
 */
module ExportWorker {

  datatype Config = Config(maxQueueSize: nat, maxQueuedSpans: nat)

  datatype Batch = Batch(id: nat, spans: nat)

  datatype ExportResult = Success | Dropped | AlreadyShutDown

  /** Where the worker is: in its wait, out with a drain, back to take the lock, past its loop, gone. */
  datatype Worker = Waiting | Processing | Relocking | Leaving | Gone

  /** A ForceFlush or the winning Shutdown, between its ticket and its verdict. */
  datatype Waiter = Waiter(ticket: nat, seen: nat)

  datatype State = State(
    queue: seq<Batch>,
    queuedSpans: nat,
    flushSeq: nat,
    flushDoneSeq: nat,
    shutdown: bool,
    worker: Worker,
    inFlight: seq<Batch>,
    waiters: map<nat, Waiter>,
    // history
    asked: nat,                  // how many batches had been accepted when the last ticket was taken
    accepted: seq<Batch>,        // every batch Export took, in order
    processed: seq<Batch>,       // every batch that has been through FanOutAndProcess, in order
    offeredSpans: nat,
    droppedFull: nat,            // spans dropped with reason QueueFull
    droppedShutdown: nat)        // spans dropped with reason PostShutdown

  function SpanSum(bs: seq<Batch>): nat {
    if bs == [] then 0 else SpanSum(bs[..|bs| - 1]) + bs[|bs| - 1].spans
  }

  predicate Initial(s: State) {
    s == State([], 0, 0, 0, false, Waiting, [], map[], 0, [], [], 0, 0, 0)
  }

  // ---------------------------------------------------------------- Critical sections

  predicate QueueFull(c: Config, s: State, b: Batch) {
    |s.queue| >= c.maxQueueSize || s.queuedSpans + b.spans > c.maxQueuedSpans
  }

  /** EnqueueLocked */
  function Enqueue(c: Config, s: State, b: Batch): State {
    var o := s.(offeredSpans := s.offeredSpans + b.spans);
    if s.shutdown then o.(droppedShutdown := s.droppedShutdown + b.spans)
    else if QueueFull(c, s, b) then o.(droppedFull := s.droppedFull + b.spans)
    else o.(queue := s.queue + [b], queuedSpans := s.queuedSpans + b.spans, accepted := s.accepted + [b])
  }

  /** ExportGroup: all its batches under one lock. */
  function EnqueueAll(c: Config, s: State, bs: seq<Batch>): State {
    if bs == [] then s else Enqueue(c, EnqueueAll(c, s, bs[..|bs| - 1]), bs[|bs| - 1])
  }

  /** The condition the worker waits for. */
  predicate Awake(s: State) { s.queue != [] || s.flushSeq > s.flushDoneSeq || s.shutdown }

  /** Under the lock, at the top of the drain loop: take everything and let go of the lock. */
  function Take(s: State): State {
    s.(inFlight := s.queue, queue := [], queuedSpans := 0, worker := Processing)
  }

  /** Under the lock, the queue empty: report flushes done, then go around or leave. */
  function Settle(s: State): State {
    s.(flushDoneSeq := if s.flushSeq > s.flushDoneSeq then s.flushSeq else s.flushDoneSeq,
       worker := if s.shutdown then Leaving else Waiting)
  }

  function TakeOrSettle(s: State): State { if s.queue != [] then Take(s) else Settle(s) }

  /** The lock of ForceFlush's first block, and of the winning Shutdown's. */
  function TakeTicket(s: State, f: nat): State {
    s.(flushSeq := s.flushSeq + 1, waiters := s.waiters[f := Waiter(s.flushSeq + 1, |s.accepted|)],
       asked := |s.accepted|)
  }

  datatype Action =
    | Export(b: Batch)
    | ExportGroup(bs: seq<Batch>)
    | ForceFlush(f: nat)
    | Shutdown(g: nat)
    | SecondShutdown
    | Completed(w: nat)
    | TimedOut(t: nat)
    | Wake
    | Processed
    | Relock
    | Leave

  /** One step of one thread. */
  predicate Next(c: Config, s: State, a: Action, s': State) {
    match a
    case Export(b) => s' == Enqueue(c, s, b)
    case ExportGroup(bs) => s' == EnqueueAll(c, s, bs)
    case ForceFlush(f) => f !in s.waiters && s' == TakeTicket(s, f)
    case Shutdown(f) => f !in s.waiters && !s.shutdown && s' == TakeTicket(s, f).(shutdown := true)
    case SecondShutdown => s.shutdown && s' == s
    // The wait of a flusher ends well when everything asked for so far is done, its own ticket included.
    case Completed(f) => f in s.waiters && s.flushDoneSeq >= s.flushSeq && s' == s.(waiters := s.waiters - {f})
    case TimedOut(f) => f in s.waiters && s' == s.(waiters := s.waiters - {f})
    case Wake => s.worker == Waiting && Awake(s) && s' == TakeOrSettle(s)
    case Processed => s.worker == Processing
                      && s' == s.(processed := s.processed + s.inFlight, inFlight := [], worker := Relocking)
    case Relock => s.worker == Relocking && s' == TakeOrSettle(s)
    case Leave => s.worker == Leaving && s' == s.(flushDoneSeq := s.flushSeq, worker := Gone)
  }

  // ---------------------------------------------------------------- Invariant

  /** A waiter whose ticket is done has had everything accepted before it processed. */
  predicate WaiterOk(s: State, w: Waiter) {
    && w.ticket <= s.flushSeq && w.seen <= |s.accepted|
    && (w.ticket <= s.flushDoneSeq ==> w.seen <= |s.processed|)
  }

  ghost predicate Inv(c: Config, s: State) {
    // every accepted batch is processed, in flight or queued, once, and in order
    && s.accepted == s.processed + s.inFlight + s.queue
    // the running totals are right and both limits hold
    && s.queuedSpans == SpanSum(s.queue) <= c.maxQueuedSpans && |s.queue| <= c.maxQueueSize
    && s.offeredSpans == SpanSum(s.accepted) + s.droppedFull + s.droppedShutdown
    && (!s.shutdown ==> s.droppedShutdown == 0)
    // the worker
    && s.flushDoneSeq <= s.flushSeq
    && s.asked <= |s.accepted| && (s.flushDoneSeq == s.flushSeq ==> s.asked <= |s.processed|)
    && (s.worker != Processing ==> s.inFlight == [])
    && (s.worker == Leaving || s.worker == Gone ==> s.shutdown && s.queue == [])
    // the flushers
    && forall f :: f in s.waiters ==> WaiterOk(s, s.waiters[f])
  }

  lemma InitialInv(c: Config, s: State)
    requires Initial(s)
    ensures Inv(c, s)
  {}

  lemma SumAppend(bs: seq<Batch>, b: Batch)
    ensures SpanSum(bs + [b]) == SpanSum(bs) + b.spans
  {
    assert (bs + [b])[..|bs|] == bs;
  }

  lemma EnqueueKeepsInv(c: Config, s: State, b: Batch)
    requires Inv(c, s)
    ensures Inv(c, Enqueue(c, s, b))
    ensures Enqueue(c, s, b).waiters == s.waiters
  {
    hide SpanSum;
    var s' := Enqueue(c, s, b);
    SumAppend(s.queue, b);
    SumAppend(s.accepted, b);
    if s'.accepted != s.accepted {
      assert s.processed + s.inFlight + (s.queue + [b]) == s.processed + s.inFlight + s.queue + [b];
    }
  }

  lemma {:induction false} EnqueueAllKeepsInv(c: Config, s: State, bs: seq<Batch>)
    requires Inv(c, s)
    ensures Inv(c, EnqueueAll(c, s, bs))
  {
    if bs != [] {
      EnqueueAllKeepsInv(c, s, bs[..|bs| - 1]);
      EnqueueKeepsInv(c, EnqueueAll(c, s, bs[..|bs| - 1]), bs[|bs| - 1]);
    }
  }

  lemma TakeOrSettleKeepsInv(c: Config, s: State)
    requires Inv(c, s) && (s.worker == Waiting || s.worker == Relocking)
    ensures Inv(c, TakeOrSettle(s))
  {
    assert s.processed + s.inFlight == s.processed;
    assert s.queue == [] ==> s.accepted == s.processed;
    assert s.processed + s.queue + [] == s.processed + s.queue;
  }

  lemma ProcessedKeepsInv(c: Config, s: State)
    requires Inv(c, s) && s.worker == Processing
    ensures Inv(c, s.(processed := s.processed + s.inFlight, inFlight := [], worker := Relocking))
  {
    assert s.processed + s.inFlight + [] + s.queue == s.processed + s.inFlight + s.queue;
  }

  lemma LeaveKeepsInv(c: Config, s: State)
    requires Inv(c, s) && s.worker == Leaving
    ensures Inv(c, s.(flushDoneSeq := s.flushSeq, worker := Gone))
  {
    assert s.accepted == s.processed + [] + [] == s.processed;
  }

  lemma TicketKeepsInv(c: Config, s: State, f: nat)
    requires Inv(c, s)
    ensures Inv(c, TakeTicket(s, f)) && Inv(c, TakeTicket(s, f).(shutdown := true))
  {
    hide SpanSum;
  }

  lemma VerdictKeepsInv(c: Config, s: State, f: nat)
    requires Inv(c, s)
    ensures Inv(c, s.(waiters := s.waiters - {f}))
  {
    hide SpanSum;
  }

  /** Every step of every thread keeps the invariant. */
  lemma NextKeepsInv(c: Config, s: State, a: Action, s': State)
    requires Inv(c, s) && Next(c, s, a, s')
    ensures Inv(c, s')
  {
    hide Inv, Enqueue, EnqueueAll, TakeOrSettle, TakeTicket;
    match a {
      case Export(b) => EnqueueKeepsInv(c, s, b);
      case ExportGroup(bs) => EnqueueAllKeepsInv(c, s, bs);
      case ForceFlush(f) => TicketKeepsInv(c, s, f);
      case Shutdown(f) => TicketKeepsInv(c, s, f);
      case SecondShutdown =>
      case Completed(f) => VerdictKeepsInv(c, s, f);
      case TimedOut(f) => VerdictKeepsInv(c, s, f);
      case Wake => TakeOrSettleKeepsInv(c, s);
      case Processed => ProcessedKeepsInv(c, s);
      case Relock => TakeOrSettleKeepsInv(c, s);
      case Leave => LeaveKeepsInv(c, s);
    }
  }

  // ---------------------------------------------------------------- Runs

  ghost predicate Run(c: Config, states: seq<State>, actions: seq<Action>) {
    && |states| == |actions| + 1
    && Initial(states[0])
    && forall i :: 0 <= i < |actions| ==> Stepped(c, states, actions, i)
  }

  ghost predicate Stepped(c: Config, states: seq<State>, actions: seq<Action>, i: nat)
    requires i + 1 < |states| && i < |actions|
  {
    Next(c, states[i], actions[i], states[i + 1])
  }

  lemma {:induction false} RunKeepsInv(c: Config, states: seq<State>, actions: seq<Action>, i: nat)
    requires Run(c, states, actions) && i < |states|
    ensures Inv(c, states[i])
    decreases i
  {
    hide Inv, Next;
    if i == 0 {
      InitialInv(c, states[0]);
    } else {
      RunKeepsInv(c, states, actions, i - 1);
      assert Stepped(c, states, actions, i - 1);
      NextKeepsInv(c, states[i - 1], actions[i - 1], states[i]);
    }
  }

  predicate TakesTicket(a: Action, f: nat) { a == ForceFlush(f) || a == Shutdown(f) }

  /** f is the same waiter from its ticket until its verdict. */
  lemma {:induction false} WaiterStays(c: Config, states: seq<State>, actions: seq<Action>, i: nat, j: nat, f: nat)
    requires Run(c, states, actions) && i < j < |states| && TakesTicket(actions[i], f)
    requires forall k :: i < k < j ==> actions[k] != Completed(f) && actions[k] != TimedOut(f)
    ensures f in states[j].waiters && states[j].waiters[f] == Waiter(states[i].flushSeq + 1, |states[i].accepted|)
    decreases j
  {
    hide Inv, Initial, SpanSum;
    assert Stepped(c, states, actions, j - 1);
    if j > i + 1 {
      WaiterStays(c, states, actions, i, j - 1, f);
      StepKeepsWaiter(c, states[j - 1], actions[j - 1], states[j], f);
    }
  }

  lemma StepKeepsWaiter(c: Config, s: State, a: Action, s': State, f: nat)
    requires Next(c, s, a, s') && f in s.waiters && a != Completed(f) && a != TimedOut(f)
    ensures f in s'.waiters && s'.waiters[f] == s.waiters[f]
  {
    if a.ExportGroup? { EnqueueAllKeepsWaiters(c, s, a.bs); }
  }

  lemma {:induction false} EnqueueAllKeepsWaiters(c: Config, s: State, bs: seq<Batch>)
    ensures EnqueueAll(c, s, bs).waiters == s.waiters
  {
    if bs != [] { EnqueueAllKeepsWaiters(c, s, bs[..|bs| - 1]); }
  }

  lemma {:induction false} AcceptedGrows(c: Config, states: seq<State>, actions: seq<Action>, i: nat, j: nat)
    requires Run(c, states, actions) && i <= j < |states|
    ensures states[i].accepted <= states[j].accepted
    decreases j
  {
    hide Inv, Initial, SpanSum;
    if i < j {
      AcceptedGrows(c, states, actions, i, j - 1);
      assert Stepped(c, states, actions, j - 1);
      if actions[j - 1].ExportGroup? { EnqueueAllGrows(c, states[j - 1], actions[j - 1].bs); }
    }
  }

  lemma {:induction false} EnqueueAllGrows(c: Config, s: State, bs: seq<Batch>)
    ensures s.accepted <= EnqueueAll(c, s, bs).accepted
  {
    if bs != [] { EnqueueAllGrows(c, s, bs[..|bs| - 1]); }
  }

  lemma {:induction false} AskedGrows(c: Config, states: seq<State>, actions: seq<Action>, t: nat, j: nat, g: nat)
    requires Run(c, states, actions) && t < j < |states| && TakesTicket(actions[t], g)
    ensures |states[t].accepted| <= states[j].asked
    decreases j
  {
    hide Inv, Initial, SpanSum;
    assert Stepped(c, states, actions, j - 1);
    if j > t + 1 {
      AskedGrows(c, states, actions, t, j - 1, g);
      AcceptedGrows(c, states, actions, t, j - 1);
      StepKeepsAsked(c, states[j - 1], actions[j - 1], states[j]);
    }
  }

  lemma StepKeepsAsked(c: Config, s: State, a: Action, s': State)
    requires Next(c, s, a, s')
    ensures s'.asked == s.asked || s'.asked == |s.accepted|
  {
    if a.ExportGroup? { EnqueueAllKeepsFlush(c, s, a.bs); }
  }

  /**
   Flush safety. In every interleaving, when a ForceFlush or the winning Shutdown reports Completed at step j,
   every batch accepted before its own ticket has been processed; and because it waits for all that has been
   asked for, so has every batch accepted before any ticket taken by then.
   */
  lemma CompletedMeansProcessed(c: Config, states: seq<State>, actions: seq<Action>, t: nat, j: nat, f: nat, g: nat)
    requires Run(c, states, actions) && t < j < |actions| && TakesTicket(actions[t], g) && actions[j] == Completed(f)
    ensures states[t].accepted <= states[j].processed
  {
    hide Initial, SpanSum;
    RunKeepsInv(c, states, actions, j);
    AcceptedGrows(c, states, actions, t, j);
    AskedGrows(c, states, actions, t, j, g);
    assert Stepped(c, states, actions, j);
    var s := states[j];
    assert s.accepted[..|states[t].accepted|] == states[t].accepted;
    assert s.accepted[..|s.processed|] == s.processed;
  }

  /** Only a call that took a ticket reports Completed. */
  lemma {:induction false} CompletedHasTicket(c: Config, states: seq<State>, actions: seq<Action>, j: nat, f: nat)
    requires Run(c, states, actions) && j < |states| && f in states[j].waiters
    ensures exists t :: 0 <= t < j && TakesTicket(actions[t], f)
    decreases j
  {
    hide Inv, SpanSum;
    if j > 0 {
      assert Stepped(c, states, actions, j - 1);
      if f in states[j - 1].waiters {
        CompletedHasTicket(c, states, actions, j - 1, f);
        var t :| 0 <= t < j - 1 && TakesTicket(actions[t], f);
        assert 0 <= t < j && TakesTicket(actions[t], f);
      } else {
        if actions[j - 1].ExportGroup? { EnqueueAllKeepsWaiters(c, states[j - 1], actions[j - 1].bs); }
        assert TakesTicket(actions[j - 1], f);
      }
    }
  }

  // ---------------------------------------------------------------- Flushes are granted

  predicate MayComplete(c: Config, s: State, f: nat) { f in s.waiters && s.flushDoneSeq >= s.flushSeq }

  /** A waiter may complete exactly when such a step exists. */
  lemma CompletesWhen(c: Config, s: State, f: nat)
    ensures MayComplete(c, s, f) <==> exists t :: Next(c, s, Completed(f), t)
  {
    if MayComplete(c, s, f) { assert Next(c, s, Completed(f), s.(waiters := s.waiters - {f})); }
  }

  /** The steps in which the worker finds the queue drained, or leaves. */
  predicate FindsDrained(s: State, a: Action) { ((a.Wake? || a.Relock?) && s.queue == []) || a.Leave? }

  /** Once the worker finds the queue drained, every flush asked for is done and every waiter may complete. */
  lemma DrainedGrantsFlushes(c: Config, s: State, a: Action, s': State)
    requires Inv(c, s) && Next(c, s, a, s') && FindsDrained(s, a)
    ensures s'.flushDoneSeq == s'.flushSeq
    ensures forall f :: f in s.waiters ==> exists t :: Next(c, s', Completed(f), t)
  {
    hide SpanSum;
    forall f | f in s.waiters
      ensures exists t :: Next(c, s', Completed(f), t)
    {
      CompletesWhen(c, s', f);
    }
  }

  lemma StepKeepsDone(c: Config, s: State, a: Action, s': State)
    requires Inv(c, s) && Next(c, s, a, s') && !a.ForceFlush? && !a.Shutdown?
    ensures s'.flushSeq == s.flushSeq && s'.flushDoneSeq >= s.flushDoneSeq
  {
    hide SpanSum;
    if a.ExportGroup? { EnqueueAllKeepsFlush(c, s, a.bs); }
  }

  /** A flush whose ticket is followed by such a step may complete from then on, until another ticket is taken. */
  lemma {:induction false} FlushIsGranted(c: Config, states: seq<State>, actions: seq<Action>, i: nat, k: nat,
                                          j: nat, f: nat)
    requires Run(c, states, actions) && i < k < j < |states| && TakesTicket(actions[i], f)
    requires FindsDrained(states[k], actions[k])
    requires forall q :: i < q < j ==> actions[q] != Completed(f) && actions[q] != TimedOut(f)
    requires forall q :: k < q < j ==> !actions[q].ForceFlush? && !actions[q].Shutdown?
    ensures exists t :: Next(c, states[j], Completed(f), t)
    ensures states[j].flushDoneSeq == states[j].flushSeq
    decreases j
  {
    hide Inv, Initial, Next, FindsDrained;
    WaiterStays(c, states, actions, i, j, f);
    RunKeepsInv(c, states, actions, j - 1);
    RunKeepsInv(c, states, actions, j);
    assert Stepped(c, states, actions, j - 1);
    if j == k + 1 {
      DrainedGrantsFlushes(c, states[k], actions[k], states[j]);
    } else {
      FlushIsGranted(c, states, actions, i, k, j - 1, f);
      StepKeepsDone(c, states[j - 1], actions[j - 1], states[j]);
      DoneAtMost(c, states[j]);
    }
    CompletesWhen(c, states[j], f);
  }

  lemma DoneAtMost(c: Config, s: State)
    requires Inv(c, s)
    ensures s.flushDoneSeq <= s.flushSeq
  {}

  predicate ByWorker(a: Action) { a.Wake? || a.Processed? || a.Relock? || a.Leave? }

  /** While the worker lives it can always move when there is a batch, a pending flush or a shutdown. */
  lemma WorkerCanMove(c: Config, s: State)
    requires s.worker != Gone
    requires s.worker == Waiting ==> s.queue != [] || s.flushSeq > s.flushDoneSeq || s.shutdown
    ensures exists a, t :: ByWorker(a) && Next(c, s, a, t)
  {
    if s.worker == Waiting {
      assert ByWorker(Wake) && Next(c, s, Wake, TakeOrSettle(s));
    } else if s.worker == Processing {
      var t := s.(processed := s.processed + s.inFlight, inFlight := [], worker := Relocking);
      assert ByWorker(Processed) && Next(c, s, Processed, t);
    } else if s.worker == Relocking {
      assert ByWorker(Relock) && Next(c, s, Relock, TakeOrSettle(s));
    } else {
      assert ByWorker(Leave) && Next(c, s, Leave, s.(flushDoneSeq := s.flushSeq, worker := Gone));
    }
  }

  // ---------------------------------------------------------------- Refusals and their reasons

  /** After a shutdown nothing is taken and every refusal is put down to it; before, none is. */
  lemma DropReasons(c: Config, s: State, a: Action, s': State)
    requires Next(c, s, a, s')
    ensures s.shutdown ==> s'.accepted == s.accepted && s'.droppedFull == s.droppedFull && s'.shutdown
    ensures !s.shutdown ==> s'.droppedShutdown == s.droppedShutdown
  {
    hide QueueFull;
    if a.ExportGroup? { GroupReasons(c, s, a.bs); }
  }

  lemma {:induction false} GroupReasons(c: Config, s: State, bs: seq<Batch>)
    ensures var s' := EnqueueAll(c, s, bs);
            && s'.shutdown == s.shutdown
            && (s.shutdown ==> s'.accepted == s.accepted && s'.droppedFull == s.droppedFull)
            && (!s.shutdown ==> s'.droppedShutdown == s.droppedShutdown)
  {
    hide QueueFull;
    if bs != [] { GroupReasons(c, s, bs[..|bs| - 1]); }
  }

  /** Before a shutdown, a group that fits both limits is queued whole and in order. */
  lemma {:induction false} GroupInOrder(c: Config, s: State, bs: seq<Batch>)
    requires !s.shutdown && |s.queue| + |bs| <= c.maxQueueSize && s.queuedSpans + SpanSum(bs) <= c.maxQueuedSpans
    ensures var s' := EnqueueAll(c, s, bs);
            && s'.queue == s.queue + bs && s'.accepted == s.accepted + bs
            && s'.queuedSpans == s.queuedSpans + SpanSum(bs) && !s'.shutdown
  {
    if bs == [] {
      assert s.queue + bs == s.queue && s.accepted + bs == s.accepted;
    } else {
      var init, b := bs[..|bs| - 1], bs[|bs| - 1];
      GroupInOrder(c, s, init);
      assert s.queue + bs == s.queue + init + [b] && s.accepted + bs == s.accepted + init + [b];
    }
  }

  /** The flush counter is only raised with the queue empty and nothing in flight. */
  lemma DoneOnlyWhenDrained(c: Config, s: State, a: Action, s': State)
    requires Inv(c, s) && Next(c, s, a, s') && s'.flushDoneSeq != s.flushDoneSeq
    ensures s.queue == [] && s.inFlight == [] && s.processed == s.accepted
    ensures s'.processed == s'.accepted
  {
    if a.ExportGroup? { EnqueueAllKeepsFlush(c, s, a.bs); }
    assert s.processed + [] + [] == s.processed;
  }

  lemma {:induction false} EnqueueAllKeepsFlush(c: Config, s: State, bs: seq<Batch>)
    ensures var s' := EnqueueAll(c, s, bs);
            s'.flushDoneSeq == s.flushDoneSeq && s'.flushSeq == s.flushSeq && s'.asked == s.asked
  {
    if bs != [] { EnqueueAllKeepsFlush(c, s, bs[..|bs| - 1]); }
  }

  lemma {:induction false} SumConcat(a: seq<Batch>, b: seq<Batch>)
    ensures SpanSum(a + b) == SpanSum(a) + SpanSum(b)
    decreases b
  {
    if b == [] {
      assert a + b == a;
    } else {
      assert (a + b)[..|a + b| - 1] == a + b[..|b| - 1];
      SumConcat(a, b[..|b| - 1]);
    }
  }

  /**
   Span conservation. In every reachable state each offered span is processed, in flight, queued, or
   dropped for one of the two reasons; and once the worker is gone nothing is left behind.
   */
  lemma SpansAreConserved(c: Config, states: seq<State>, actions: seq<Action>, i: nat)
    requires Run(c, states, actions) && i < |states|
    ensures var s := states[i];
            && s.offeredSpans == SpanSum(s.processed) + SpanSum(s.inFlight) + s.queuedSpans
                                 + s.droppedFull + s.droppedShutdown
            && s.queuedSpans == SpanSum(s.queue) <= c.maxQueuedSpans && |s.queue| <= c.maxQueueSize
            && (!s.shutdown ==> s.droppedShutdown == 0)
            && (s.worker == Gone ==> s.queue == [] && s.inFlight == [] && s.processed == s.accepted)
  {
    hide Run, SpanSum;
    RunKeepsInv(c, states, actions, i);
    var s := states[i];
    SumConcat(s.processed + s.inFlight, s.queue);
    SumConcat(s.processed, s.inFlight);
    assert s.processed + [] + [] == s.processed;
  }

  lemma {:induction false} NonEmptySum(bs: seq<Batch>)
    requires forall i :: 0 <= i < |bs| ==> bs[i].spans >= 1
    ensures |bs| <= SpanSum(bs)
  {
    if bs != [] { NonEmptySum(bs[..|bs| - 1]); }
  }

  /**
   With the two limits equal and no empty batch, the limit on batches never refuses what the span budget
   would take: whatever is refused for lack of room is refused by the budget.
   */
  lemma BatchLimitNeverBindsFirst(c: Config, s: State, b: Batch)
    requires Inv(c, s) && c.maxQueueSize == c.maxQueuedSpans && b.spans >= 1
    requires forall i :: 0 <= i < |s.queue| ==> s.queue[i].spans >= 1
    ensures QueueFull(c, s, b) <==> s.queuedSpans + b.spans > c.maxQueuedSpans
  {
    NonEmptySum(s.queue);
  }

  /** What a step offers to the queue. */
  function Offered(a: Action): seq<Batch> {
    match a case Export(b) => [b] case ExportGroup(bs) => bs case _ => []
  }

  predicate NoneEmpty(bs: seq<Batch>) { forall i :: 0 <= i < |bs| ==> bs[i].spans >= 1 }

  lemma {:induction false} QueueStaysNonEmpty(c: Config, states: seq<State>, actions: seq<Action>, i: nat)
    requires Run(c, states, actions) && i < |states|
    requires forall k :: 0 <= k < i ==> NoneEmpty(Offered(actions[k]))
    ensures NoneEmpty(states[i].queue)
    decreases i
  {
    hide Initial, SpanSum;
    if i == 0 {
      assert states[0].queue == [] by { InitialQueue(states[0]); }
    } else {
      QueueStaysNonEmpty(c, states, actions, i - 1);
      assert Stepped(c, states, actions, i - 1);
      var a := actions[i - 1];
      assert NoneEmpty(Offered(a));
      if a.ExportGroup? { GroupStaysNonEmpty(c, states[i - 1], a.bs); }
    }
  }

  lemma InitialQueue(s: State)
    requires Initial(s)
    ensures s.queue == []
  {}

  lemma {:induction false} GroupStaysNonEmpty(c: Config, s: State, bs: seq<Batch>)
    requires NoneEmpty(s.queue) && NoneEmpty(bs)
    ensures NoneEmpty(EnqueueAll(c, s, bs).queue)
  {
    if bs != [] { GroupStaysNonEmpty(c, s, bs[..|bs| - 1]); }
  }

  /** So in every run that offers no empty batch, Export refuses for lack of room only by the span budget. */
  lemma BudgetDecides(c: Config, states: seq<State>, actions: seq<Action>, i: nat, b: Batch)
    requires Run(c, states, actions) && i < |states| && c.maxQueueSize == c.maxQueuedSpans && b.spans >= 1
    requires forall k :: 0 <= k < i ==> NoneEmpty(Offered(actions[k]))
    ensures QueueFull(c, states[i], b) <==> states[i].queuedSpans + b.spans > c.maxQueuedSpans
  {
    hide Run, Inv, QueueFull;
    QueueStaysNonEmpty(c, states, actions, i);
    RunKeepsInv(c, states, actions, i);
    BatchLimitNeverBindsFirst(c, states[i], b);
  }

  /** Empty batches are the exception: one Export of one fills the queue while the span budget is untouched. */
  lemma EmptyBatchesCanFillTheQueue(c: Config, s: State, s': State, b: Batch)
    requires c.maxQueueSize == c.maxQueuedSpans == 1
    requires Initial(s) && s' == Enqueue(c, s, Batch(0, 0)) && b == Batch(1, 1)
    ensures Run(c, [s, s'], [Export(Batch(0, 0))])
    ensures QueueFull(c, s', b) && s'.queuedSpans + b.spans <= c.maxQueuedSpans
    ensures Enqueue(c, s', b).droppedFull == 1
  {
    hide Run, Initial, Enqueue, Next;
    FirstIsQueued(c, s, Batch(0, 0));
    ExportIsStep(c, s, Batch(0, 0));
    OneStepRun(c, s, Export(Batch(0, 0)), s');
    FullDrops(c, s', b);
  }

  lemma FirstIsQueued(c: Config, s: State, b: Batch)
    requires Initial(s) && c.maxQueueSize > 0 && b.spans <= c.maxQueuedSpans
    ensures var s' := Enqueue(c, s, b);
            |s'.queue| == 1 && s'.queuedSpans == b.spans && !s'.shutdown && s'.droppedFull == 0
  {}

  lemma ExportIsStep(c: Config, s: State, b: Batch)
    ensures Next(c, s, Export(b), Enqueue(c, s, b))
  {
    hide Enqueue;
  }

  lemma FullDrops(c: Config, s: State, b: Batch)
    requires !s.shutdown && QueueFull(c, s, b)
    ensures Enqueue(c, s, b).droppedFull == s.droppedFull + b.spans
  {}

  lemma OneStepRun(c: Config, s: State, a: Action, s': State)
    requires Initial(s) && Next(c, s, a, s')
    ensures Run(c, [s, s'], [a])
  {
    hide Next, Initial;
    var states, actions := [s, s'], [a];
    assert Stepped(c, states, actions, 0);
  }

  // ---------------------------------------------------------------- The critical sections, in place

  lemma MoveFront(out: seq<Batch>, queue: seq<Batch>)
    requires queue != []
    ensures out + [queue[0]] + queue[1..] == out + queue
  {}

  /** The guarded fields of the exporter; every method is called with the mutex held. */
  class Exporter {
    const config: Config
    var queue: seq<Batch>
    var queuedSpans: nat
    var flushSeq: nat
    var flushDoneSeq: nat
    var shutdown: bool
    // what no critical section but its own touches
    ghost var worker: Worker
    ghost var inFlight: seq<Batch>
    ghost var waiters: map<nat, Waiter>
    ghost var asked: nat
    ghost var accepted: seq<Batch>
    ghost var processed: seq<Batch>
    // the diagnostics sink's counters
    var offeredSpans: nat
    var droppedFull: nat
    var droppedShutdown: nat

    ghost function View(): State
      reads this
    {
      State(queue, queuedSpans, flushSeq, flushDoneSeq, shutdown, worker, inFlight, waiters, asked,
            accepted, processed, offeredSpans, droppedFull, droppedShutdown)
    }

    constructor (config: Config)
      ensures this.config == config && Initial(View())
    {
      this.config := config;
      queue, queuedSpans, flushSeq, flushDoneSeq, shutdown := [], 0, 0, 0, false;
      worker, inFlight, waiters, asked, accepted, processed := Waiting, [], map[], 0, [], [];
      offeredSpans, droppedFull, droppedShutdown := 0, 0, 0;
    }

    method EnqueueLocked(b: Batch) returns (r: ExportResult)
      modifies this
      ensures View() == Enqueue(config, old(View()), b)
      ensures r == AlreadyShutDown <==> old(shutdown)
      ensures r == Success <==> accepted == old(accepted) + [b]
    {
      offeredSpans := offeredSpans + b.spans;
      if shutdown {
        droppedShutdown := droppedShutdown + b.spans;
        return AlreadyShutDown;
      }
      if |queue| >= config.maxQueueSize || queuedSpans + b.spans > config.maxQueuedSpans {
        droppedFull := droppedFull + b.spans;
        return Dropped;
      }
      queue := queue + [b];
      queuedSpans := queuedSpans + b.spans;
      accepted := accepted + [b];
      r := Success;
    }

    method ExportGroup(bs: seq<Batch>) returns (queued: bool)
      modifies this
      ensures View() == EnqueueAll(config, old(View()), bs)
      ensures queued <==> accepted != old(accepted)
    {
      queued := false;
      var i := 0;
      assert bs[..0] == [];
      while i < |bs|
        invariant 0 <= i <= |bs|
        invariant View() == EnqueueAll(config, old(View()), bs[..i])
        invariant |accepted| >= |old(accepted)| && (queued <==> |accepted| > |old(accepted)|)
        invariant !queued ==> accepted == old(accepted)
      {
        assert bs[..i + 1][..i] == bs[..i];
        var r := EnqueueLocked(bs[i]);
        queued := r == Success || queued;
        i := i + 1;
      }
      assert bs[..|bs|] == bs;
    }

    /** The first block of ForceFlush. */
    method BeginFlush(ghost f: nat)
      modifies this
      ensures View() == TakeTicket(old(View()), f)
    {
      waiters := waiters[f := Waiter(flushSeq + 1, |accepted|)];
      asked := |accepted|;
      flushSeq := flushSeq + 1;
    }

    /** The first block of Shutdown; false means another shutdown came first. */
    method BeginShutdown(ghost f: nat) returns (first: bool)
      modifies this
      ensures first <==> !old(shutdown)
      ensures View() == if first then TakeTicket(old(View()), f).(shutdown := true) else old(View())
    {
      if shutdown {
        return false;
      }
      shutdown := true;
      BeginFlush(f);
      first := true;
    }

    /** The top of DrainQueue's loop: the whole queue moves out, and the whole budget is free again. */
    method TakeQueue() returns (batches: seq<Batch>)
      modifies this
      ensures batches == old(queue) && View() == Take(old(View()))
    {
      batches := [];
      while |queue| > 0
        invariant batches + queue == old(queue)
        invariant View() == old(View()).(queue := queue)
        decreases |queue|
      {
        var front := queue[0];
        MoveFront(batches, queue);
        batches := batches + [front];
        queue := queue[1..];
      }
      queuedSpans := 0;
      inFlight, worker := batches, Processing;
    }

    /** WorkerLoop after a drain: report flushes done, and say whether to leave. */
    method AfterDrain() returns (leave: bool)
      requires queue == []
      modifies this
      ensures View() == Settle(old(View())) && leave == shutdown
    {
      if flushSeq > flushDoneSeq {
        flushDoneSeq := flushSeq;
      }
      leave := shutdown;
      worker := if shutdown then Leaving else Waiting;
    }
  }
}
