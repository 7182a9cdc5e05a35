/**
 A whole life of a leaf on a caller's byte buffer: init, then any calls. What it does is a run of
 LeafSpec, so every theorem about runs is a theorem about the buffer.
 */
module LeafRun {
  import opened Basics
  import opened RecordFormat
  import opened LeafSpec
  import LeafSize
  import Protobuf
  import L = Leaf

  /** One public call. */
  method Perform(leaf: L.Leaf, call: Call) returns (done: Done)
    requires leaf.Valid()
    modifies leaf, leaf.store, leaf.store.buf
    ensures leaf.Valid() && done.call == call
    ensures Step(old(leaf.Abs()), call, done.result, done.handle, leaf.Abs())
  {
    hide L.Leaf.Valid, L.Leaf.Abs, Step;
    var r: Status, h: Handle := Ok, 0;
    match call {
      case Start(name, kind, parent, newTrace, newSpan, now) =>
        r, h := leaf.Start(name, kind, parent, newTrace, newSpan, now);
      case StartRemote(name, kind, trace, parent, newSpan, now) =>
        r, h := leaf.StartRemote(name, kind, trace, parent, newSpan, now);
      case SetAttribute(span, kv) =>
        r := leaf.SetAttribute(span, kv);
        h := span;
      case AddEvent(span, name, attrs, now) =>
        r := leaf.AddEvent(span, name, attrs, now);
        h := span;
      case SetStatus(span, code, message) =>
        r := leaf.SetStatus(span, code, message);
        h := span;
      case End(span, now) =>
        r := leaf.End(span, now);
        h := span;
      case Encode(backend) =>
        var batch;
        r, batch := leaf.Encode(backend);
    }
    done := Done(call, r, h);
  }

  lemma RunExtends(states: seq<State>, done: seq<Done>, d: Done, s: State)
    requires Run(states, done) && Step(states[|states| - 1], d.call, d.result, d.handle, s)
    ensures Run(states + [s], done + [d])
  {
    hide Step, Initial;
    var states', done' := states + [s], done + [d];
    forall i | 0 <= i < |done'|
      ensures StepAt(states', done', i)
    {
      if i < |done| { assert StepAt(states, done, i); }
    }
  }

  /**
   Init and any sequence of calls on a byte buffer: a run of the abstract leaf from its initial state,
   with the Resource still readable and the size bound still good at the end.
   */
  method Live(c: Protobuf.Config, caps: Limits, buf: array<byte>, calls: seq<Call>)
    returns (ok: bool, done: seq<Done>, ghost states: seq<State>, bound: nat)
    modifies buf
    ensures ok <==> LeafSize.ConfigValid(c) && LeafSize.PersistentSize(c) <= LeafSize.Usable(buf.Length)
    ensures ok ==> Run(states, done) && |done| == |calls| && forall i :: 0 <= i < |calls| ==> done[i].call == calls[i]
    ensures ok ==> forall h <- states[|calls|].order :: h in states[|calls|].spans
    ensures ok ==> bound == Protobuf.Bound(c, SpansOf(states[|calls|], states[|calls|].order)) < 0x2_0000_0200
    ensures ok ==>
              forall sync, now: u64, counters ::
                |Protobuf.Request(Protobuf.BuildBatch(c, sync, now, counters,
                                                      SpansOf(states[|calls|], states[|calls|].order)))| <= bound
  {
    hide L.Leaf.Valid, L.Leaf.Abs, Run, Step, Initial, LeafSize.ResourceIs, Protobuf.Bound, Protobuf.Request,
      Protobuf.BuildBatch;
    var r, leaf := LeafSize.Init(c, caps, buf);
    ok, done, states, bound := leaf != null, [], [], 0;
    if leaf != null {
      states := [leaf.Abs()];
      RunStarts(leaf.Abs());
      ghost var store := leaf.store;
      for i := 0 to |calls|
        invariant leaf.Valid() && fresh(leaf) && fresh(leaf.store) && leaf.store.buf == buf && leaf.store == store
        invariant Run(states, done) && |done| == i && |states| == i + 1 && states[i] == leaf.Abs()
        invariant forall j :: 0 <= j < i ==> done[j].call == calls[j]
      {
        var d := Perform(leaf, calls[i]);
        RunExtends(states, done, d, leaf.Abs());
        done := done + [d];
        states := states + [leaf.Abs()];
      }
      bound := LeafSize.EncodedSize(leaf, c);
    }
  }

  lemma RunStarts(s: State)
    requires Initial(s)
    ensures Run([s], [])
  {}
}
