/**
 What compaction does to the chunk stack, apart from the bytes: the live chunks survive in
 their order, packed against `top`, and each knows its new offset before anything moves.
 */
module Compaction {
  import opened Basics
  import opened RecordFormat
  import opened Layout

  /** chunk_live */
  predicate LiveHdr(slots: seq<SpanRec>, h: ChunkHdr) {
    h.kind != CHUNK_DEAD && h.owner < |slots| && slots[h.owner].state != SLOT_FREE
  }

  function LiveFlags(slots: seq<SpanRec>, stack: seq<Chunk>): (f: seq<bool>)
    ensures |f| == |stack|
    ensures forall i :: 0 <= i < |stack| ==> f[i] == LiveHdr(slots, stack[i].hdr)
  {
    seq(|stack|, i requires 0 <= i < |stack| => LiveHdr(slots, stack[i].hdr))
  }

  /** How many of the first k chunks survive: the new index of chunk k, if it does. */
  function Rank(flags: seq<bool>, k: nat): (r: nat)
    requires k <= |flags|
    ensures r <= k
  {
    if k == 0 then 0 else Rank(flags, k - 1) + if flags[k - 1] then 1 else 0
  }

  /** Bytes of the live chunks among the first k. */
  function LiveUsed(stack: seq<Chunk>, flags: seq<bool>, k: nat): (n: nat)
    requires k <= |stack| == |flags|
  {
    if k == 0 then 0 else LiveUsed(stack, flags, k - 1) + if flags[k - 1] then stack[k - 1].hdr.size else 0
  }

  function Survivors(stack: seq<Chunk>, flags: seq<bool>, k: nat): (r: seq<Chunk>)
    requires k <= |stack| == |flags|
    ensures |r| == Rank(flags, k)
  {
    if k == 0 then [] else
    if flags[k - 1] then Survivors(stack, flags, k - 1) + [stack[k - 1]] else Survivors(stack, flags, k - 1)
  }

  /** The offset a live chunk moves to. */
  function NewOff(stack: seq<Chunk>, flags: seq<bool>, top: nat, i: nat): int
    requires i < |stack| == |flags|
  {
    top - LiveUsed(stack, flags, i + 1)
  }

  lemma {:induction false} RankGrows(flags: seq<bool>, i: nat, j: nat)
    requires i <= j <= |flags|
    ensures Rank(flags, i) <= Rank(flags, j)
    ensures i < j && flags[i] ==> Rank(flags, i) < Rank(flags, j)
    decreases j
  {
    if i < j { RankGrows(flags, i, j - 1); }
  }

  /** No chunk moves down, and what lies between two positions is enough for what moves there. */
  lemma {:induction false} LiveUsedGrows(stack: seq<Chunk>, flags: seq<bool>, i: nat, j: nat)
    requires i <= j <= |stack| == |flags|
    ensures LiveUsed(stack, flags, i) <= LiveUsed(stack, flags, j)
    ensures LiveUsed(stack, flags, i) <= Used(stack, i)
    ensures i < j && flags[i] ==> LiveUsed(stack, flags, i) + stack[i].hdr.size <= LiveUsed(stack, flags, j)
    decreases j, i
  {
    if i < j {
      LiveUsedGrows(stack, flags, i, j - 1);
    } else if i > 0 {
      LiveUsedGrows(stack, flags, i - 1, i - 1);
    }
  }

  lemma {:induction false} SurvivorsPrefix(stack: seq<Chunk>, flags: seq<bool>, k: nat, n: nat)
    requires k <= n <= |stack| == |flags|
    ensures Rank(flags, k) <= Rank(flags, n)
    ensures Survivors(stack, flags, n)[..Rank(flags, k)] == Survivors(stack, flags, k)
    decreases n
  {
    RankGrows(flags, k, n);
    if k < n {
      SurvivorsPrefix(stack, flags, k, n - 1);
    }
  }

  /** A live chunk is found at its rank. */
  lemma SurvivorAt(stack: seq<Chunk>, flags: seq<bool>, i: nat)
    requires i < |stack| == |flags| && flags[i]
    ensures Rank(flags, i) < Rank(flags, |flags|)
    ensures Survivors(stack, flags, |stack|)[Rank(flags, i)] == stack[i]
  {
    RankGrows(flags, i, |flags|);
    SurvivorsPrefix(stack, flags, i + 1, |stack|);
    var all := Survivors(stack, flags, |stack|);
    assert all[Rank(flags, i)] == all[..Rank(flags, i + 1)][Rank(flags, i)];
  }

  /** Every survivor was a live chunk. */
  lemma {:induction false} SurvivorFrom(stack: seq<Chunk>, flags: seq<bool>, r: nat, k: nat) returns (i: nat)
    requires k <= |stack| == |flags| && r < Rank(flags, k)
    ensures i < k && flags[i] && Rank(flags, i) == r
    decreases k
  {
    if flags[k - 1] && Rank(flags, k - 1) == r {
      i := k - 1;
    } else {
      i := SurvivorFrom(stack, flags, r, k - 1);
    }
  }

  lemma {:induction false} SurvivorsUsedUpTo(stack: seq<Chunk>, flags: seq<bool>, k: nat)
    requires k <= |stack| == |flags|
    ensures Used(Survivors(stack, flags, k), Rank(flags, k)) == LiveUsed(stack, flags, k)
    decreases k
  {
    if k > 0 {
      SurvivorsUsedUpTo(stack, flags, k - 1);
      UsedSame(Survivors(stack, flags, k - 1), Survivors(stack, flags, k), Rank(flags, k - 1));
    }
  }

  /** The forwarding offsets planned in pass 1 are the offsets of the packed stack. */
  lemma NewOffIsPacked(stack: seq<Chunk>, flags: seq<bool>, top: nat, i: nat)
    requires i < |stack| == |flags| && flags[i]
    ensures Rank(flags, i) < Rank(flags, |flags|)
    ensures Off(Survivors(stack, flags, |stack|), top, Rank(flags, i)) == NewOff(stack, flags, top, i)
  {
    RankGrows(flags, i, |flags|);
    SurvivorsPrefix(stack, flags, i + 1, |stack|);
    SurvivorsUsedUpTo(stack, flags, i + 1);
    UsedSame(Survivors(stack, flags, i + 1), Survivors(stack, flags, |stack|), Rank(flags, i + 1));
  }

  lemma SurvivorsUsed(stack: seq<Chunk>, flags: seq<bool>)
    requires |stack| == |flags|
    ensures Used(Survivors(stack, flags, |stack|), Rank(flags, |flags|)) == LiveUsed(stack, flags, |stack|)
    ensures LiveUsed(stack, flags, |stack|) <= Used(stack, |stack|)
  {
    SurvivorsUsedUpTo(stack, flags, |stack|);
    LiveUsedGrows(stack, flags, |stack|, |stack|);
  }

  lemma {:induction false} SurvivorsWf(stack: seq<Chunk>, flags: seq<bool>, k: nat)
    requires k <= |stack| == |flags| && WfStack(stack)
    ensures WfStack(Survivors(stack, flags, k))
    decreases k
  {
    if k > 0 { SurvivorsWf(stack, flags, k - 1); }
  }

  /** Liveness sums and ranks see only sizes and flags. */
  lemma {:induction false} LiveUsedSame(a: seq<Chunk>, b: seq<Chunk>, flags: seq<bool>, k: nat)
    requires k <= |a| == |b| == |flags|
    requires forall j :: 0 <= j < k ==> a[j].hdr.size == b[j].hdr.size
    ensures LiveUsed(a, flags, k) == LiveUsed(b, flags, k)
    decreases k
  {
    if k > 0 { LiveUsedSame(a, b, flags, k - 1); }
  }

  // ---------------------------------------------------------------- Pass 3, on bytes

  /** The buffer after the topmost k chunks have been moved; `before` is the buffer pass 3 started from. */
  ghost predicate Moving(m: seq<byte>, before: seq<byte>, stack: seq<Chunk>, flags: seq<bool>, top: nat, k: nat) {
    && k <= |stack| == |flags|
    && |m| == |before| && Used(stack, |stack|) <= top <= |m| && Used(stack, k) <= top
    && m[..top - Used(stack, k)] == before[..top - Used(stack, k)]
    && m[top..] == before[top..]
    && forall j :: 0 <= j < k && flags[j] ==>
         Slice(m, NewOff(stack, flags, top, j), stack[j].hdr.size) == ChunkBytes(stack[j])
  }

  lemma UsedStep(stack: seq<Chunk>, flags: seq<bool>, k: nat)
    requires k < |stack| == |flags| && WfStack(stack)
    ensures Used(stack, k) <= Used(stack, k + 1) <= Used(stack, |stack|)
    ensures flags[k] ==> LiveUsed(stack, flags, k + 1) == LiveUsed(stack, flags, k) + stack[k].hdr.size
    ensures LiveUsed(stack, flags, k + 1) <= Used(stack, k + 1)
  {
    hide WfStack;
    UsedGrows(stack, k, k + 1);
    UsedGrows(stack, k + 1, |stack|);
    LiveUsedGrows(stack, flags, k + 1, k + 1);
  }

  /** Where chunk k lies and goes: up, clear of everything below it, and below what has moved. */
  lemma MoveRoom(stack: seq<Chunk>, flags: seq<bool>, top: nat, k: nat)
    requires k < |stack| == |flags| && WfStack(stack) && Used(stack, |stack|) <= top && flags[k]
    ensures 0 <= Off(stack, top, k) <= NewOff(stack, flags, top, k)
    ensures Off(stack, top, k) + stack[k].hdr.size == top - Used(stack, k)
    ensures NewOff(stack, flags, top, k) + stack[k].hdr.size == top - LiveUsed(stack, flags, k) <= top
    ensures forall j :: 0 <= j < k && flags[j] ==>
              NewOff(stack, flags, top, k) + stack[k].hdr.size <= NewOff(stack, flags, top, j)
  {
    hide Used, LiveUsed, WfStack;
    OffsetBounds(stack, top, k);
    UsedStep(stack, flags, k);
    forall j | 0 <= j < k && flags[j]
      ensures NewOff(stack, flags, top, k) + stack[k].hdr.size <= NewOff(stack, flags, top, j)
    {
      LiveUsedGrows(stack, flags, j + 1, k);
    }
  }

  lemma PrefixSlice(m: seq<byte>, before: seq<byte>, n: nat, o: nat, len: nat)
    requires n <= |m| == |before| && m[..n] == before[..n] && o + len <= n
    ensures m[o..o + len] == before[o..o + len]
  {
    assert m[o..o + len] == m[..n][o..o + len];
    assert before[o..o + len] == before[..n][o..o + len];
  }

  lemma WriteKeepsBelow(m: seq<byte>, off: nat, data: seq<byte>, n: nat)
    requires off + |data| <= |m| && n <= off
    ensures Write(m, off, data)[..n] == m[..n]
  {}

  /** What stands at chunk k's old place when its turn comes is still the chunk pass 3 started with. */
  lemma NotYetOverwritten(m: seq<byte>, before: seq<byte>, slots: seq<SpanRec>, stack: seq<Chunk>, flags: seq<bool>,
                          top: nat, k: nat)
    requires Holds(before, slots, stack, top) && Moving(m, before, stack, flags, top, k) && k < |stack|
    ensures var o := Off(stack, top, k);
            && 0 <= o && o + stack[k].hdr.size == top - Used(stack, k) <= |m|
            && m[o..o + stack[k].hdr.size] == ChunkBytes(stack[k])
            && HDR_SIZE <= stack[k].hdr.size && HdrOf(m[o..o + HDR_SIZE]) == stack[k].hdr
  {
    hide ChunkBytes, HdrOf, HdrBytes, Used, Slice;
    var o := Off(stack, top, k);
    ChunkSlice(before, slots, stack, top, k);
    ReadChunk(before, slots, stack, top, k);
    OffsetBounds(stack, top, k);
    PrefixSlice(m, before, top - Used(stack, k), o, stack[k].hdr.size);
    PrefixSlice(m, before, top - Used(stack, k), o, HDR_SIZE);
  }

  lemma ShorterPrefix(m: seq<byte>, before: seq<byte>, n: nat, n': nat)
    requires n' <= n <= |m| == |before| && m[..n] == before[..n]
    ensures m[..n'] == before[..n']
  {
    assert m[..n'] == m[..n][..n'];
    assert before[..n'] == before[..n][..n'];
  }

  lemma MoveOne(m: seq<byte>, before: seq<byte>, slots: seq<SpanRec>, stack: seq<Chunk>, flags: seq<bool>, top: nat,
                k: nat)
    requires Holds(before, slots, stack, top) && Moving(m, before, stack, flags, top, k) && k < |stack| && flags[k]
    ensures var f := NewOff(stack, flags, top, k);
            && 0 <= f && f + |ChunkBytes(stack[k])| <= |m|
            && Moving(Write(m, f, ChunkBytes(stack[k])), before, stack, flags, top, k + 1)
  {
    hide ChunkBytes, Slice, Write, NewOff, Holds, Used, WfStack;
    HoldsIsWf(before, slots, stack, top, k);
    MoveRoom(stack, flags, top, k);
    var f := NewOff(stack, flags, top, k);
    var data := ChunkBytes(stack[k]);
    var w := Write(m, f, data);
    UsedStep(stack, flags, k);
    WriteKeepsAbove(m, f, data, top);
    WriteKeepsBelow(m, f, data, top - Used(stack, k + 1));
    ShorterPrefix(m, before, top - Used(stack, k), top - Used(stack, k + 1));
    forall j | 0 <= j < k + 1 && flags[j]
      ensures Slice(w, NewOff(stack, flags, top, j), stack[j].hdr.size) == ChunkBytes(stack[j])
    {
      WriteThenSlice(m, f, data, NewOff(stack, flags, top, j), stack[j].hdr.size);
    }
  }

  /** A dead chunk, or one already in place, needs no move. */
  lemma MoveNone(m: seq<byte>, before: seq<byte>, slots: seq<SpanRec>, stack: seq<Chunk>, flags: seq<bool>, top: nat,
                 k: nat)
    requires Holds(before, slots, stack, top) && Moving(m, before, stack, flags, top, k) && k < |stack|
    requires flags[k] ==> NewOff(stack, flags, top, k) == Off(stack, top, k)
    ensures Moving(m, before, stack, flags, top, k + 1)
  {
    hide ChunkBytes, NewOff, Holds, HdrOf, Used, WfStack;
    HoldsIsWf(before, slots, stack, top, k);
    NotYetOverwritten(m, before, slots, stack, flags, top, k);
    UsedStep(stack, flags, k);
    ShorterPrefix(m, before, top - Used(stack, k), top - Used(stack, k + 1));
  }

  /** When every chunk has had its turn, the buffer holds exactly the live ones, packed against `top`. */
  lemma Moved(m: seq<byte>, before: seq<byte>, slots: seq<SpanRec>, stack: seq<Chunk>, flags: seq<bool>, top: nat)
    requires Holds(before, slots, stack, top) && Moving(m, before, stack, flags, top, |stack|)
    ensures Holds(m, slots, Survivors(stack, flags, |stack|), top)
  {
    hide ChunkBytes, RecBytes, NewOff, HdrOf, Used, Survivors, Rank;
    var packed := Survivors(stack, flags, |stack|);
    SurvivorsWf(stack, flags, |stack|);
    SurvivorsUsed(stack, flags);
    forall s | 0 <= s < |slots|
      ensures Slice(m, SlotOff(s), REC_SIZE) == RecBytes(slots[s])
    {
      PrefixSlice(m, before, top - Used(stack, |stack|), SlotOff(s), REC_SIZE);
    }
    forall r | 0 <= r < |packed|
      ensures Slice(m, Off(packed, top, r), packed[r].hdr.size) == ChunkBytes(packed[r])
    {
      var i := SurvivorFrom(stack, flags, r, |stack|);
      SurvivorAt(stack, flags, i);
      NewOffIsPacked(stack, flags, top, i);
    }
  }
}
