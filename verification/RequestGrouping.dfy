/**
 How the export worker joins drained batches into requests: consecutive batches, as many as the
 span and byte limits allow. The greedy choice is a partition, within the limits, and no other
 in-order grouping under the same limits needs fewer requests.
 */
module RequestGrouping {

  /** One request: count batches of a drain, from first on. */
  datatype Range = Range(first: nat, count: nat) {
    function End(): nat { first + count }
  }

  /** maxBytes 0 means no byte limit. */
  datatype Limits = Limits(maxSpans: nat, maxBytes: nat)

  function Sum(xs: seq<nat>, i: nat, j: nat): (n: nat)
    requires i <= j <= |xs|
    decreases j
  {
    if i == j then 0 else Sum(xs, i, j - 1) + xs[j - 1]
  }

  lemma {:induction false} SumGrows(xs: seq<nat>, i: nat, j: nat, i': nat, j': nat)
    requires i' <= i <= j <= j' <= |xs|
    ensures Sum(xs, i, j) <= Sum(xs, i', j')
    decreases j' - i'
  {
    if j < j' {
      SumGrows(xs, i, j, i', j' - 1);
    } else if i' < i {
      SumGrows(xs, i, j, i' + 1, j);
      SumSplit(xs, i', i' + 1, j);
    }
  }

  lemma {:induction false} SumSplit(xs: seq<nat>, i: nat, k: nat, j: nat)
    requires i <= k <= j <= |xs|
    ensures Sum(xs, i, j) == Sum(xs, i, k) + Sum(xs, k, j)
    decreases j
  {
    if k < j { SumSplit(xs, i, k, j - 1); }
  }

  /** The batches [i, j) fit one request by the limits. */
  predicate Within(spans: seq<nat>, bytes: seq<nat>, m: Limits, i: nat, j: nat)
    requires i <= j <= |spans| == |bytes|
  {
    Sum(spans, i, j) <= m.maxSpans && (m.maxBytes != 0 ==> Sum(bytes, i, j) <= m.maxBytes)
  }

  /** A request is one batch, whatever its size, or several that fit together. */
  predicate Sendable(spans: seq<nat>, bytes: seq<nat>, m: Limits, r: Range)
    requires r.End() <= |spans| == |bytes|
  {
    r.count > 0 && (r.count == 1 || Within(spans, bytes, m, r.first, r.End()))
  }

  /** Non-empty ranges, back to back, that cover exactly the first n batches. */
  ghost predicate Partition(rs: seq<Range>, n: nat) {
    && (forall k :: 0 <= k < |rs| ==> rs[k].count > 0 && rs[k].End() <= n)
    && (forall k :: 0 <= k < |rs| - 1 ==> rs[k].End() == rs[k + 1].first)
    && (rs == [] ==> n == 0)
    && (rs != [] ==> rs[0].first == 0 && rs[|rs| - 1].End() == n)
  }

  /** An in-order grouping of the drain into requests that may be sent. */
  ghost predicate Grouping(rs: seq<Range>, spans: seq<nat>, bytes: seq<nat>, m: Limits)
    requires |spans| == |bytes|
  {
    Partition(rs, |spans|) && forall k :: 0 <= k < |rs| ==> Sendable(spans, bytes, m, rs[k])
  }

  /** No request but the last could take the next batch as well. */
  ghost predicate Full(rs: seq<Range>, spans: seq<nat>, bytes: seq<nat>, m: Limits)
    requires |spans| == |bytes|
  {
    forall k :: 0 <= k < |rs| - 1 && rs[k].End() < |spans| ==> !Within(spans, bytes, m, rs[k].first, rs[k].End() + 1)
  }

  /** A request of several batches keeps both limits, spelled out. */
  ghost predicate WithinBoth(rs: seq<Range>, spans: seq<nat>, bytes: seq<nat>, m: Limits)
    requires |spans| == |bytes|
  {
    forall k :: 0 <= k < |rs| && rs[k].count > 1 ==>
      && rs[k].End() <= |spans|
      && Sum(spans, rs[k].first, rs[k].End()) <= m.maxSpans
      && (m.maxBytes == 0 || Sum(bytes, rs[k].first, rs[k].End()) <= m.maxBytes)
  }

  /** The next batch would take a request that is not the last past one of the limits, spelled out. */
  ghost predicate NoneCouldGrow(rs: seq<Range>, spans: seq<nat>, bytes: seq<nat>, m: Limits)
    requires |spans| == |bytes|
  {
    forall k :: 0 <= k < |rs| - 1 && rs[k].End() < |spans| ==>
      || Sum(spans, rs[k].first, rs[k].End() + 1) > m.maxSpans
      || (m.maxBytes != 0 && Sum(bytes, rs[k].first, rs[k].End() + 1) > m.maxBytes)
  }

  lemma LimitsSpelled(rs: seq<Range>, spans: seq<nat>, bytes: seq<nat>, m: Limits)
    requires |spans| == |bytes| && Grouping(rs, spans, bytes, m) && Full(rs, spans, bytes, m)
    ensures WithinBoth(rs, spans, bytes, m) && NoneCouldGrow(rs, spans, bytes, m)
  {
    hide Sum;
  }

  /** What the loop has built after i batches. */
  ghost predicate Built(rs: seq<Range>, spans: seq<nat>, bytes: seq<nat>, m: Limits, i: nat)
    requires |spans| == |bytes|
  {
    && i <= |spans| && Partition(rs, i) && Full(rs, spans, bytes, m)
    && forall k :: 0 <= k < |rs| ==> Sendable(spans, bytes, m, rs[k])
  }

  method GroupIntoRequests(spans: seq<nat>, bytes: seq<nat>, m: Limits) returns (requests: seq<Range>)
    requires |spans| == |bytes|
    ensures Grouping(requests, spans, bytes, m)
    ensures Full(requests, spans, bytes, m)
    ensures WithinBoth(requests, spans, bytes, m) && NoneCouldGrow(requests, spans, bytes, m)
    ensures forall other :: Grouping(other, spans, bytes, m) ==> |requests| <= |other|
    ensures SumCounts(requests) == |spans|
  {
    hide Built, Full, WithinBoth, NoneCouldGrow;
    requests := [];
    StartEmpty(spans, bytes, m);
    var spansIn, bytesIn := 0, 0;
    var i := 0;
    while i < |spans|
      invariant 0 <= i <= |spans| && Built(requests, spans, bytes, m, i)
      invariant requests != [] ==> requests[|requests| - 1].End() == i
      invariant requests != [] ==> spansIn == Sum(spans, requests[|requests| - 1].first, i)
      invariant requests != [] ==> bytesIn == Sum(bytes, requests[|requests| - 1].first, i)
    {
      var overSpans := spansIn + spans[i] > m.maxSpans;
      var overBytes := m.maxBytes != 0 && bytesIn + bytes[i] > m.maxBytes;
      if |requests| == 0 || overSpans || overBytes {
        OpenRange(requests, spans, bytes, m, i);
        requests := requests + [Range(i, 1)];
        spansIn, bytesIn := spans[i], bytes[i];
      } else {
        var last := requests[|requests| - 1];
        GrowRange(requests, spans, bytes, m, i);
        requests := requests[|requests| - 1 := Range(last.first, last.count + 1)];
        spansIn, bytesIn := spansIn + spans[i], bytesIn + bytes[i];
      }
      i := i + 1;
    }
    BuiltAll(requests, spans, bytes, m);
    LimitsSpelled(requests, spans, bytes, m);
    forall other | Grouping(other, spans, bytes, m)
      ensures |requests| <= |other|
    {
      GreedyIsOptimal(requests, other, spans, bytes, m);
    }
    CountsAddUp(requests, |spans|);
  }

  lemma StartEmpty(spans: seq<nat>, bytes: seq<nat>, m: Limits)
    requires |spans| == |bytes|
    ensures Built([], spans, bytes, m, 0)
  {}

  lemma BuiltAll(rs: seq<Range>, spans: seq<nat>, bytes: seq<nat>, m: Limits)
    requires |spans| == |bytes| && Built(rs, spans, bytes, m, |spans|)
    ensures Grouping(rs, spans, bytes, m) && Full(rs, spans, bytes, m)
  {
    hide Full, Partition, Sendable;
  }

  lemma OpenRange(rs: seq<Range>, spans: seq<nat>, bytes: seq<nat>, m: Limits, i: nat)
    requires |spans| == |bytes| && i < |spans| && Built(rs, spans, bytes, m, i)
    requires rs != [] ==> rs[|rs| - 1].End() == i && !Within(spans, bytes, m, rs[|rs| - 1].first, i + 1)
    ensures Built(rs + [Range(i, 1)], spans, bytes, m, i + 1)
  {
    hide Within, Sum;
    var rs' := rs + [Range(i, 1)];
    forall k | 0 <= k < |rs'|
      ensures rs'[k].count > 0 && rs'[k].End() <= i + 1 && Sendable(spans, bytes, m, rs'[k])
    {
      if k < |rs| { assert rs'[k] == rs[k]; }
    }
    assert forall k :: 0 <= k < |rs| ==> rs'[k] == rs[k];
  }

  lemma GrowRange(rs: seq<Range>, spans: seq<nat>, bytes: seq<nat>, m: Limits, i: nat)
    requires |spans| == |bytes| && i < |spans| && Built(rs, spans, bytes, m, i) && rs != []
    requires rs[|rs| - 1].End() == i && Within(spans, bytes, m, rs[|rs| - 1].first, i + 1)
    ensures var last := rs[|rs| - 1];
            Built(rs[|rs| - 1 := Range(last.first, last.count + 1)], spans, bytes, m, i + 1)
  {
    hide Within;
    var n := |rs| - 1;
    var rs' := rs[n := Range(rs[n].first, rs[n].count + 1)];
    forall k | 0 <= k < |rs'|
      ensures rs'[k].count > 0 && rs'[k].End() <= i + 1 && Sendable(spans, bytes, m, rs'[k])
    {
      if k < n { assert rs'[k] == rs[k]; }
    }
    assert forall k :: 0 <= k < n ==> rs'[k] == rs[k];
    assert forall k :: 0 <= k < |rs| ==> rs'[k].first == rs[k].first;
  }

  /** Where the k-th request starts; past the end, where the drain ends. */
  function StartOf(rs: seq<Range>, n: nat, k: nat): nat
    requires k <= |rs|
  {
    if k < |rs| then rs[k].first else n
  }

  /** Several consecutive batches of a request that may be sent fit the limits too. */
  lemma PartFits(spans: seq<nat>, bytes: seq<nat>, m: Limits, r: Range, i: nat, j: nat)
    requires r.End() <= |spans| == |bytes| && Sendable(spans, bytes, m, r)
    requires r.first <= i && i + 1 < j <= r.End()
    ensures Within(spans, bytes, m, i, j)
  {
    SumGrows(spans, i, j, r.first, r.End());
    SumGrows(bytes, i, j, r.first, r.End());
  }

  /** The greedy grouping is never behind: its k-th request starts no earlier than any other grouping's. */
  lemma {:induction false} GreedyStaysAhead(rs: seq<Range>, other: seq<Range>, spans: seq<nat>, bytes: seq<nat>,
                                            m: Limits, k: nat)
    requires |spans| == |bytes| && Grouping(rs, spans, bytes, m) && Full(rs, spans, bytes, m)
    requires Grouping(other, spans, bytes, m) && k <= |other| && k < |rs|
    ensures StartOf(other, |spans|, k) <= rs[k].first
    decreases k
  {
    if k > 0 {
      GreedyStaysAhead(rs, other, spans, bytes, m, k - 1);
      var o, g := other[k - 1], rs[k - 1];
      assert StartOf(other, |spans|, k) == o.End() && rs[k].first == g.End();
      // If the other grouping's range ended later, it would hold the greedy one and the next batch as well.
      if g.End() < o.End() { PartFits(spans, bytes, m, o, g.first, g.End() + 1); }
    }
  }

  lemma GreedyIsOptimal(rs: seq<Range>, other: seq<Range>, spans: seq<nat>, bytes: seq<nat>, m: Limits)
    requires |spans| == |bytes| && Grouping(rs, spans, bytes, m) && Full(rs, spans, bytes, m)
    requires Grouping(other, spans, bytes, m)
    ensures |rs| <= |other|
  {
    if |other| < |rs| {
      GreedyStaysAhead(rs, other, spans, bytes, m, |other|);
    }
  }

  /** The counts Settle is given, one per request. */
  function SumCounts(rs: seq<Range>): nat {
    if rs == [] then 0 else SumCounts(rs[..|rs| - 1]) + rs[|rs| - 1].count
  }

  lemma {:induction false} RangesInOrder(rs: seq<Range>, n: nat, j: nat, k: nat)
    requires Partition(rs, n) && j < k < |rs|
    ensures rs[j].End() <= rs[k].first
    decreases k
  {
    if j < k - 1 { RangesInOrder(rs, n, j, k - 1); }
  }

  lemma {:induction false} CountsAddUp(rs: seq<Range>, n: nat)
    requires Partition(rs, n)
    ensures SumCounts(rs) == n
    decreases rs
  {
    if |rs| == 1 {
      assert rs[..0] == [];
    } else if |rs| > 1 {
      var init := rs[..|rs| - 1];
      forall k | 0 <= k < |init|
        ensures init[k].End() <= rs[|rs| - 1].first
      {
        RangesInOrder(rs, n, k, |rs| - 1);
      }
      assert Partition(init, rs[|rs| - 1].first);
      CountsAddUp(init, rs[|rs| - 1].first);
    }
  }
}
