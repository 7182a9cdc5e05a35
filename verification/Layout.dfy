/**
 How records lie in the buffer. Span records fill the front; chunks lie back to back below
 `top`, the offset of the Resource. `stack` lists the chunks from the topmost down, which is
 the order they were allocated in, so an allocation appends and keeps every index.
 */
module Layout {
  import opened Basics
  import opened RecordFormat

  datatype Chunk = Chunk(hdr: ChunkHdr, payload: seq<byte>)

  predicate WfChunk(c: Chunk) {
    c.hdr.size == HDR_SIZE + |c.payload| && c.hdr.used <= |c.payload|
  }

  predicate WfStack(stack: seq<Chunk>) {
    forall i :: 0 <= i < |stack| ==> WfChunk(stack[i])
  }

  function ChunkBytes(c: Chunk): (b: seq<byte>)
    ensures |b| == HDR_SIZE + |c.payload|
  {
    HdrBytes(c.hdr) + c.payload
  }

  /** slot_off */
  function SlotOff(s: nat): nat { 72 * s }

  /** Bytes taken by the first k chunks. */
  function Used(stack: seq<Chunk>, k: nat): (n: nat)
    requires k <= |stack|
  {
    if k == 0 then 0 else Used(stack, k - 1) + stack[k - 1].hdr.size
  }

  /** Offset of chunk i. */
  function Off(stack: seq<Chunk>, top: nat, i: nat): int
    requires i < |stack|
  {
    top - Used(stack, i + 1)
  }

  lemma {:induction false} UsedGrows(stack: seq<Chunk>, i: nat, j: nat)
    requires i <= j <= |stack| && WfStack(stack)
    ensures Used(stack, i) <= Used(stack, j)
    ensures i < j ==> Used(stack, i) < Used(stack, j)
    decreases j
  {
    if i < j { UsedGrows(stack, i, j - 1); assert WfChunk(stack[j - 1]); }
  }

  /** Offsets depend only on the sizes of the chunks above. */
  lemma {:induction false} UsedSame(a: seq<Chunk>, b: seq<Chunk>, k: nat)
    requires k <= |a| && k <= |b|
    requires forall j :: 0 <= j < k ==> a[j].hdr.size == b[j].hdr.size
    ensures Used(a, k) == Used(b, k)
    decreases k
  {
    if k > 0 { UsedSame(a, b, k - 1); }
  }

  /** Different chunks never overlap, and later ones lie lower. */
  lemma OffsetsDisjoint(stack: seq<Chunk>, top: nat, i: nat, j: nat)
    requires i < j < |stack| && WfStack(stack)
    ensures Off(stack, top, j) + stack[j].hdr.size <= Off(stack, top, i)
  {
    UsedGrows(stack, i + 1, j);
  }

  lemma OffsetBounds(stack: seq<Chunk>, top: nat, i: nat)
    requires i < |stack| && WfStack(stack) && Used(stack, |stack|) <= top
    ensures 0 <= top - Used(stack, |stack|) <= Off(stack, top, i)
    ensures Off(stack, top, i) + stack[i].hdr.size == top - Used(stack, i) <= top
  {
    hide WfStack;
    UsedGrows(stack, i + 1, |stack|);
    assert Used(stack, i + 1) == Used(stack, i) + stack[i].hdr.size;
  }

  // ---------------------------------------------------------------- Memory

  /** m[off..off + n], or nothing when that leaves the buffer. */
  function Slice(m: seq<byte>, off: int, n: int): seq<byte> {
    if 0 <= off && 0 <= n && off + n <= |m| then m[off..off + n] else []
  }

  function Write(m: seq<byte>, off: nat, data: seq<byte>): (r: seq<byte>)
    requires off + |data| <= |m|
    ensures |r| == |m|
  {
    m[..off] + data + m[off + |data|..]
  }

  lemma WriteThenSlice(m: seq<byte>, off: nat, data: seq<byte>, at: int, n: int)
    requires off + |data| <= |m|
    ensures at == off && n == |data| ==> Slice(Write(m, off, data), at, n) == data
    ensures at + n <= off || off + |data| <= at ==> Slice(Write(m, off, data), at, n) == Slice(m, at, n)
  {
    hide Write;
    var w, end := Write(m, off, data), off + |data|;
    WriteParts(m, off, data);
    if 0 <= at && 0 <= n && at + n <= |m| {
      if at + n <= off {
        SliceOfPrefix(w, m, off, at, n);
      } else if end <= at {
        SliceOfSuffix(w, m, end, at, n);
      }
    }
  }

  lemma SliceOfPrefix(a: seq<byte>, b: seq<byte>, k: nat, at: nat, n: nat)
    requires |a| == |b| && k <= |a| && a[..k] == b[..k] && at + n <= k
    ensures a[at..at + n] == b[at..at + n]
  {
    assert a[at..at + n] == a[..k][at..at + n] && b[at..at + n] == b[..k][at..at + n];
  }

  lemma SliceOfSuffix(a: seq<byte>, b: seq<byte>, k: nat, at: nat, n: nat)
    requires |a| == |b| && k <= at && at + n <= |a| && a[k..] == b[k..]
    ensures a[at..at + n] == b[at..at + n]
  {
    assert a[at..at + n] == a[k..][at - k..at - k + n] && b[at..at + n] == b[k..][at - k..at - k + n];
  }

  lemma WriteParts(m: seq<byte>, off: nat, data: seq<byte>)
    requires off + |data| <= |m|
    ensures var w, end := Write(m, off, data), off + |data|;
            w[..off] == m[..off] && w[off..end] == data && w[end..] == m[end..]
  {}

  lemma WriteKeepsAbove(m: seq<byte>, off: nat, data: seq<byte>, top: nat)
    requires off + |data| <= top <= |m|
    ensures Write(m, off, data)[top..] == m[top..]
  {}

  ghost predicate HoldsSlots(m: seq<byte>, slots: seq<SpanRec>) {
    && SlotOff(|slots|) <= |m|
    && forall s :: 0 <= s < |slots| ==> Slice(m, SlotOff(s), REC_SIZE) == RecBytes(slots[s])
  }

  ghost predicate HoldsChunks(m: seq<byte>, stack: seq<Chunk>, top: nat) {
    && Used(stack, |stack|) <= top <= |m|
    && forall i :: 0 <= i < |stack| ==> Slice(m, Off(stack, top, i), stack[i].hdr.size) == ChunkBytes(stack[i])
  }

  /** The whole buffer: slots in front, a gap, chunks, then the Resource. */
  ghost predicate Holds(m: seq<byte>, slots: seq<SpanRec>, stack: seq<Chunk>, top: nat) {
    && WfStack(stack)
    && HoldsSlots(m, slots)
    && HoldsChunks(m, stack, top)
    && SlotOff(|slots|) <= top - Used(stack, |stack|) <= |m|
    && top <= |m|
  }

  lemma HoldsIsWf(m: seq<byte>, slots: seq<SpanRec>, stack: seq<Chunk>, top: nat, i: nat)
    requires Holds(m, slots, stack, top) && i < |stack|
    ensures WfStack(stack) && WfChunk(stack[i])
  {
    hide HoldsSlots, HoldsChunks;
  }

  lemma ReadSlot(m: seq<byte>, slots: seq<SpanRec>, stack: seq<Chunk>, top: nat, s: nat)
    requires Holds(m, slots, stack, top) && s < |slots|
    ensures SlotOff(s) + REC_SIZE <= |m|
    ensures RecOf(m[SlotOff(s)..SlotOff(s) + REC_SIZE]) == slots[s]
  {
    hide RecOf, RecBytes;
    assert Slice(m, SlotOff(s), REC_SIZE) == RecBytes(slots[s]);
    RecRoundTrip(slots[s]);
  }

  lemma WriteSlot(m: seq<byte>, slots: seq<SpanRec>, stack: seq<Chunk>, top: nat, s: nat, r: SpanRec)
    requires Holds(m, slots, stack, top) && s < |slots|
    ensures SlotOff(s) + REC_SIZE <= |m|
    ensures Holds(Write(m, SlotOff(s), RecBytes(r)), slots[s := r], stack, top)
    ensures Write(m, SlotOff(s), RecBytes(r))[top..] == m[top..]
  {
    hide RecBytes, ChunkBytes;
    var w := Write(m, SlotOff(s), RecBytes(r));
    forall t | 0 <= t < |slots|
      ensures Slice(w, SlotOff(t), REC_SIZE) == RecBytes(slots[s := r][t])
    {
      WriteThenSlice(m, SlotOff(s), RecBytes(r), SlotOff(t), REC_SIZE);
    }
    forall i | 0 <= i < |stack|
      ensures Slice(w, Off(stack, top, i), stack[i].hdr.size) == ChunkBytes(stack[i])
    {
      OffsetBounds(stack, top, i);
      WriteThenSlice(m, SlotOff(s), RecBytes(r), Off(stack, top, i), stack[i].hdr.size);
    }
  }

  lemma ChunkBytesParts(c: Chunk)
    ensures ChunkBytes(c)[..HDR_SIZE] == HdrBytes(c.hdr)
    ensures ChunkBytes(c)[HDR_SIZE..] == c.payload
  {}

  lemma ChunkSlice(m: seq<byte>, slots: seq<SpanRec>, stack: seq<Chunk>, top: nat, i: nat)
    requires Holds(m, slots, stack, top) && i < |stack|
    ensures var o := Off(stack, top, i);
            && SlotOff(|slots|) <= o && o + stack[i].hdr.size <= top <= |m|
            && m[o..o + stack[i].hdr.size] == ChunkBytes(stack[i])
            && stack[i].hdr.size == HDR_SIZE + |stack[i].payload|
  {
    hide ChunkBytes, SlotOff, Used;
    OffsetBounds(stack, top, i);
    assert WfChunk(stack[i]);
  }

  lemma ChunkSlices(m: seq<byte>, slots: seq<SpanRec>, stack: seq<Chunk>, top: nat, i: nat)
    requires Holds(m, slots, stack, top) && i < |stack|
    ensures var o := Off(stack, top, i);
            && 0 <= o && o + stack[i].hdr.size <= |m|
            && m[o..o + HDR_SIZE] == HdrBytes(stack[i].hdr)
            && m[o + HDR_SIZE..o + stack[i].hdr.size] == stack[i].payload
  {
    hide Holds, Off, ChunkBytes, HdrBytes, SlotOff;
    ChunkSlice(m, slots, stack, top, i);
    ChunkBytesParts(stack[i]);
    SliceParts(m, Off(stack, top, i), HDR_SIZE, stack[i].hdr.size);
  }

  lemma SliceParts(m: seq<byte>, o: nat, k: nat, n: nat)
    requires k <= n && o + n <= |m|
    ensures m[o..o + n][..k] == m[o..o + k] && m[o..o + n][k..] == m[o + k..o + n]
  {}

  lemma ReadChunk(m: seq<byte>, slots: seq<SpanRec>, stack: seq<Chunk>, top: nat, i: nat)
    requires Holds(m, slots, stack, top) && i < |stack|
    ensures var o := Off(stack, top, i); 0 <= o && o + HDR_SIZE <= |m| && HdrOf(m[o..o + HDR_SIZE]) == stack[i].hdr
  {
    hide HdrOf, HdrBytes;
    ChunkSlices(m, slots, stack, top, i);
    HdrRoundTrip(stack[i].hdr);
  }

  lemma SlotsSurviveWrite(m: seq<byte>, slots: seq<SpanRec>, o: nat, data: seq<byte>)
    requires HoldsSlots(m, slots) && SlotOff(|slots|) <= o && o + |data| <= |m|
    ensures HoldsSlots(Write(m, o, data), slots)
  {
    hide RecBytes, Write, Slice;
    forall s | 0 <= s < |slots|
      ensures Slice(Write(m, o, data), SlotOff(s), REC_SIZE) == RecBytes(slots[s])
    {
      WriteThenSlice(m, o, data, SlotOff(s), REC_SIZE);
    }
  }

  lemma ChunkAfterWrite(m: seq<byte>, stack: seq<Chunk>, top: nat, i: nat, c: Chunk, j: nat)
    requires WfStack(stack) && HoldsChunks(m, stack, top) && i < |stack| && j < |stack|
    requires WfChunk(c) && c.hdr.size == stack[i].hdr.size
    requires 0 <= Off(stack, top, i) && Off(stack, top, i) + |ChunkBytes(c)| <= |m|
    ensures Slice(Write(m, Off(stack, top, i), ChunkBytes(c)), Off(stack[i := c], top, j), stack[i := c][j].hdr.size)
         == ChunkBytes(stack[i := c][j])
  {
    hide ChunkBytes, Write, Slice;
    UsedSame(stack, stack[i := c], j + 1);
    WriteThenSlice(m, Off(stack, top, i), ChunkBytes(c), Off(stack, top, j), stack[j].hdr.size);
    if j < i { OffsetsDisjoint(stack, top, j, i); }
    if i < j { OffsetsDisjoint(stack, top, i, j); }
  }

  /** Overwriting a chunk with one of the same size changes that chunk and nothing else. */
  lemma WriteChunk(m: seq<byte>, slots: seq<SpanRec>, stack: seq<Chunk>, top: nat, i: nat, c: Chunk)
    requires Holds(m, slots, stack, top) && i < |stack|
    requires WfChunk(c) && c.hdr.size == stack[i].hdr.size
    ensures var o := Off(stack, top, i);
            && 0 <= o && o + |ChunkBytes(c)| <= |m|
            && Holds(Write(m, o, ChunkBytes(c)), slots, stack[i := c], top)
            && Write(m, o, ChunkBytes(c))[top..] == m[top..]
            && Used(stack[i := c], |stack|) == Used(stack, |stack|)
  {
    hide ChunkBytes, Slice, Used, SlotOff, Write;
    var o := Off(stack, top, i);
    OffsetBounds(stack, top, i);
    WriteKeepsAbove(m, o, ChunkBytes(c), top);
    var stack' := stack[i := c];
    UsedSame(stack, stack', |stack|);
    SlotsSurviveWrite(m, slots, o, ChunkBytes(c));
    forall j | 0 <= j < |stack'|
      ensures Slice(Write(m, o, ChunkBytes(c)), Off(stack', top, j), stack'[j].hdr.size) == ChunkBytes(stack'[j])
    {
      ChunkAfterWrite(m, stack, top, i, c, j);
    }
  }

  lemma UsedAfterAppend(stack: seq<Chunk>, c: Chunk, stack': seq<Chunk>)
    requires stack' == stack + [c]
    ensures Used(stack', |stack|) == Used(stack, |stack|)
    ensures Used(stack', |stack'|) == Used(stack, |stack|) + c.hdr.size
  {
    UsedSame(stack, stack', |stack|);
  }

  lemma OffAfterAppend(stack: seq<Chunk>, top: nat, c: Chunk, stack': seq<Chunk>, j: nat)
    requires stack' == stack + [c] && j < |stack'|
    ensures Off(stack', top, j) == if j < |stack| then Off(stack, top, j) else top - Used(stack, |stack|) - c.hdr.size
  {
    UsedAfterAppend(stack, c, stack');
    if j < |stack| { UsedSame(stack, stack', j + 1); }
  }

  lemma ChunkAfterAppend(m: seq<byte>, stack: seq<Chunk>, top: nat, c: Chunk, stack': seq<Chunk>, o: nat, j: nat)
    requires WfStack(stack) && HoldsChunks(m, stack, top) && j < |stack'|
    requires WfChunk(c) && o == top - Used(stack, |stack|) - c.hdr.size && stack' == stack + [c]
    ensures Slice(Write(m, o, ChunkBytes(c)), Off(stack', top, j), stack'[j].hdr.size) == ChunkBytes(stack'[j])
  {
    hide ChunkBytes, Write, Slice, Used, Off, WfStack;
    OffAfterAppend(stack, top, c, stack', j);
    if j < |stack| {
      OffsetBounds(stack, top, j);
      WriteThenSlice(m, o, ChunkBytes(c), Off(stack, top, j), stack[j].hdr.size);
      assert stack'[j] == stack[j];
    } else {
      WriteThenSlice(m, o, ChunkBytes(c), o, c.hdr.size);
      assert stack'[j] == c;
    }
  }

  lemma ChunksAfterAppend(m: seq<byte>, stack: seq<Chunk>, top: nat, c: Chunk, stack': seq<Chunk>, o: nat)
    requires WfStack(stack) && HoldsChunks(m, stack, top)
    requires WfChunk(c) && o == top - Used(stack, |stack|) - c.hdr.size && stack' == stack + [c]
    ensures HoldsChunks(Write(m, o, ChunkBytes(c)), stack', top)
  {
    hide ChunkBytes, Slice, Used, Write, Off, WfStack;
    UsedAfterAppend(stack, c, stack');
    forall j | 0 <= j < |stack'|
      ensures Slice(Write(m, o, ChunkBytes(c)), Off(stack', top, j), stack'[j].hdr.size) == ChunkBytes(stack'[j])
    {
      ChunkAfterAppend(m, stack, top, c, stack', o, j);
    }
  }

  /** Writing a whole chunk just below the lowest one appends it to the stack. */
  lemma AppendChunk(m: seq<byte>, slots: seq<SpanRec>, stack: seq<Chunk>, top: nat, c: Chunk, stack': seq<Chunk>,
                    o: nat)
    requires Holds(m, slots, stack, top) && WfChunk(c)
    requires SlotOff(|slots|) + c.hdr.size <= top - Used(stack, |stack|)
    requires o == top - Used(stack, |stack|) - c.hdr.size && stack' == stack + [c]
    ensures o + |ChunkBytes(c)| <= |m|
    ensures Holds(Write(m, o, ChunkBytes(c)), slots, stack', top)
    ensures Write(m, o, ChunkBytes(c))[top..] == m[top..]
    ensures Off(stack', top, |stack|) == o
    ensures Used(stack', |stack'|) == Used(stack, |stack|) + c.hdr.size
  {
    hide ChunkBytes, Slice, Used, SlotOff, Write, Off, HoldsSlots, HoldsChunks;
    UsedAfterAppend(stack, c, stack');
    OffAfterAppend(stack, top, c, stack', |stack|);
    WriteKeepsAbove(m, o, ChunkBytes(c), top);
    SlotsSurviveWrite(m, slots, o, ChunkBytes(c));
    ChunksAfterAppend(m, stack, top, c, stack', o);
  }

  /** Growing the table by one record, below the lowest chunk. */
  lemma AppendSlot(m: seq<byte>, slots: seq<SpanRec>, stack: seq<Chunk>, top: nat, r: SpanRec)
    requires Holds(m, slots, stack, top)
    requires SlotOff(|slots| + 1) <= top - Used(stack, |stack|)
    ensures SlotOff(|slots|) + REC_SIZE <= |m|
    ensures Holds(Write(m, SlotOff(|slots|), RecBytes(r)), slots + [r], stack, top)
    ensures Write(m, SlotOff(|slots|), RecBytes(r))[top..] == m[top..]
  {
    hide RecBytes, ChunkBytes, Slice, Used, Write;
    var o := SlotOff(|slots|);
    var w := Write(m, o, RecBytes(r));
    var slots' := slots + [r];
    WriteKeepsAbove(m, o, RecBytes(r), top);
    forall t | 0 <= t < |slots'|
      ensures Slice(w, SlotOff(t), REC_SIZE) == RecBytes(slots'[t])
    {
      WriteThenSlice(m, o, RecBytes(r), SlotOff(t), REC_SIZE);
    }
    forall i | 0 <= i < |stack|
      ensures Slice(w, Off(stack, top, i), stack[i].hdr.size) == ChunkBytes(stack[i])
    {
      OffsetBounds(stack, top, i);
      WriteThenSlice(m, o, RecBytes(r), Off(stack, top, i), stack[i].hdr.size);
    }
  }

  lemma DropLastSlot(m: seq<byte>, slots: seq<SpanRec>, stack: seq<Chunk>, top: nat)
    requires Holds(m, slots, stack, top) && |slots| > 0
    ensures Holds(m, slots[..|slots| - 1], stack, top)
  {
    hide RecBytes, HoldsChunks, WfStack, Slice, Used;
  }
}
