/**
 The leaf's storage manager: span records and chunks inside one caller-owned byte array.
 The ghost fields say what the bytes mean; every method is proved against them.
 */
module RecordBuffer {
  import opened Basics
  import opened RecordFormat
  import opened Layout
  import opened Compaction
  import opened Chains
  import opened Passes
  import opened ListOps

  lemma WriteHdrOnly(m: seq<byte>, o: nat, hb: seq<byte>, payload: seq<byte>)
    requires o + |hb| + |payload| <= |m| && m[o + |hb|..o + |hb| + |payload|] == payload
    ensures Write(m, o, hb) == Write(m, o, hb + payload)
  {
    assert m[o + |hb|..] == payload + m[o + |hb| + |payload|..];
  }

  lemma WriteInside(m: seq<byte>, o: nat, hb: seq<byte>, data: seq<byte>, rest: seq<byte>)
    requires o + |hb| + |data| + |rest| <= |m|
    requires m[o..o + |hb|] == hb && m[o + |hb| + |data|..o + |hb| + |data| + |rest|] == rest
    ensures Write(m, o + |hb|, data) == Write(m, o, hb + (data + rest))
  {
    assert m[..o + |hb|] == m[..o] + hb;
    assert m[o + |hb| + |data|..] == rest + m[o + |hb| + |data| + |rest|..];
  }

  /** memcpy into the caller's buffer. */
  method CopyBytes(buf: array<byte>, off: nat, data: seq<byte>)
    requires off + |data| <= buf.Length
    modifies buf
    ensures buf[..] == Write(old(buf[..]), off, data)
  {
    forall k | 0 <= k < |data| {
      buf[off + k] := data[k];
    }
    assert buf[..off] == old(buf[..])[..off];
    assert buf[off..off + |data|] == data;
    assert buf[off + |data|..] == old(buf[..])[off + |data|..];
    assert buf[..] == buf[..off] + buf[off..off + |data|] + buf[off + |data|..];
  }

  /** A free slot makes no chunk live. */
  lemma LiveAfterGrow(slots: seq<SpanRec>, stack: seq<Chunk>, rec: SpanRec)
    requires rec.state == SLOT_FREE
    ensures LiveBytes(slots + [rec], stack) == LiveBytes(slots, stack)
  {
    assert LiveFlags(slots + [rec], stack) == LiveFlags(slots, stack);
  }

  class Buffer {
    const buf: array<byte>
    const persistOff: nat       // the Resource and scope start here
    ghost const resource: seq<byte>  // everything from there on; no call changes it
    var dataLow: nat            // the lowest chunk starts here
    var slotCount: nat
    ghost var slots: seq<SpanRec>
    ghost var stack: seq<Chunk>
    ghost var chains: seq<Chain>

    /** The bytes hold what the ghost fields say; table, chunks and Resource do not overlap. */
    ghost predicate Rep()
      reads this, buf
    {
      && persistOff <= buf.Length && persistOff <= MAX_BUFFER
      && slotCount == |slots| <= NONE16
      && Holds(buf[..], slots, stack, persistOff)
      && dataLow == persistOff - Used(stack, |stack|)
      && buf[persistOff..] == resource
    }

    /** An empty table and no chunks, below a Resource that is already in place. */
    constructor (buf: array<byte>, persistOff: nat)
      requires persistOff <= buf.Length && persistOff <= MAX_BUFFER
      ensures this.buf == buf && this.persistOff == persistOff && resource == buf[persistOff..]
      ensures Rep() && slots == [] && stack == [] && chains == [] && dataLow == persistOff
    {
      this.buf, this.persistOff := buf, persistOff;
      resource := buf[persistOff..];
      dataLow, slotCount := persistOff, 0;
      slots, stack, chains := [], [], [];
    }

    // ---------------------------------------------------------------- memcpy access

    method CopyIn(off: nat, data: seq<byte>)
      requires off + |data| <= buf.Length
      modifies buf
      ensures buf[..] == Write(old(buf[..]), off, data)
    {
      CopyBytes(buf, off, data);
    }

    method GetSlot(s: nat) returns (r: SpanRec)
      requires Rep() && s < slotCount
      ensures r == slots[s]
    {
      hide RecOf, RecBytes, HoldsChunks, WfStack;
      ReadSlot(buf[..], slots, stack, persistOff, s);
      assert buf[SlotOff(s)..SlotOff(s) + REC_SIZE] == buf[..][SlotOff(s)..SlotOff(s) + REC_SIZE];
      r := RecOf(buf[SlotOff(s)..SlotOff(s) + REC_SIZE]);
    }

    method PutSlot(s: nat, r: SpanRec)
      requires Rep() && s < slotCount
      modifies buf, `slots
      ensures Rep() && slots == old(slots)[s := r]
    {
      hide RecOf, RecBytes, Holds, Used, Write;
      WriteSlot(buf[..], slots, stack, persistOff, s, r);
      CopyIn(SlotOff(s), RecBytes(r));
      slots := slots[s := r];
      assert buf[persistOff..] == buf[..][persistOff..] == old(buf[..])[persistOff..];
    }

    method GetChunk(off: nat, ghost i: nat) returns (h: ChunkHdr)
      requires Rep() && i < |stack| && off == Off(stack, persistOff, i)
      ensures h == stack[i].hdr
    {
      hide HdrOf, HdrBytes, Holds, Used;
      ReadChunk(buf[..], slots, stack, persistOff, i);
      assert buf[off..off + HDR_SIZE] == buf[..][off..off + HDR_SIZE];
      h := HdrOf(buf[off..off + HDR_SIZE]);
    }

    method PutChunk(off: nat, h: ChunkHdr, ghost i: nat)
      requires Rep() && i < |stack| && off == Off(stack, persistOff, i)
      requires h.size == stack[i].hdr.size && h.used <= |stack[i].payload|
      modifies buf, `stack
      ensures Rep() && stack == old(stack[i := Chunk(h, stack[i].payload)])
    {
      hide HdrOf, HdrBytes, Holds, Used, Write;
      ghost var m := buf[..];
      ghost var c := Chunk(h, stack[i].payload);
      HoldsIsWf(m, slots, stack, persistOff, i);
      ChunkSlices(m, slots, stack, persistOff, i);
      WriteChunk(m, slots, stack, persistOff, i, c);
      WriteHdrOnly(m, off, HdrBytes(h), c.payload);
      CopyIn(off, HdrBytes(h));
      stack := stack[i := c];
      assert buf[persistOff..] == buf[..][persistOff..] == m[persistOff..];
    }

    /** Copies data to the front of chunk i's payload. */
    method WritePayload(off: nat, data: seq<byte>, ghost i: nat)
      requires Rep() && i < |stack| && off == Off(stack, persistOff, i)
      requires |data| <= |stack[i].payload|
      modifies buf, `stack
      ensures Rep() && stack == old(stack[i := Chunk(stack[i].hdr, data + stack[i].payload[|data|..])])
    {
      hide HdrOf, HdrBytes, Holds, Used, Write;
      ghost var m := buf[..];
      ghost var h := stack[i].hdr;
      ghost var rest := stack[i].payload[|data|..];
      ghost var c := Chunk(h, data + rest);
      HoldsIsWf(m, slots, stack, persistOff, i);
      ChunkSlices(m, slots, stack, persistOff, i);
      WriteChunk(m, slots, stack, persistOff, i, c);
      assert m[off + HDR_SIZE + |data|..off + h.size] == rest;
      WriteInside(m, off, HdrBytes(h), data, rest);
      CopyIn(off + HDR_SIZE, data);
      stack := stack[i := c];
      assert buf[persistOff..] == buf[..][persistOff..] == m[persistOff..];
    }

    method ReadPayload(off: nat, n: nat, ghost i: nat) returns (data: seq<byte>)
      requires Rep() && i < |stack| && off == Off(stack, persistOff, i)
      requires n <= |stack[i].payload|
      ensures data == stack[i].payload[..n]
    {
      hide HdrOf, HdrBytes, Holds, Used;
      HoldsIsWf(buf[..], slots, stack, persistOff, i);
      ChunkSlices(buf[..], slots, stack, persistOff, i);
      data := buf[off + HDR_SIZE..off + HDR_SIZE + n];
      assert data == buf[..][off + HDR_SIZE..off + stack[i].hdr.size][..n];
    }

    // ---------------------------------------------------------------- Compaction

    lemma RepIsWf()
      requires Rep()
      ensures WfStack(stack) && Used(stack, |stack|) <= persistOff
    {
      hide HoldsSlots, HoldsChunks, WfStack, Used;
    }

    method ChunkLive(h: ChunkHdr) returns (live: bool)
      requires Rep()
      ensures live == LiveHdr(slots, h)
    {
      hide Holds, Used;
      if h.kind == CHUNK_DEAD || h.owner >= slotCount {
        return false;
      }
      var r := GetSlot(h.owner);
      live := r.state != SLOT_FREE;
    }

    /** The first loop of pass 1: the bytes of the live chunks. */
    method LiveTotal() returns (live: nat)
      requires Rep()
      ensures live == LiveBytes(slots, stack) <= Used(stack, |stack|)
    {
      hide Holds, WfStack, LiveHdr;
      RepIsWf();
      ghost var flags := LiveFlags(slots, stack);
      ghost var i: nat := |stack|;
      live := 0;
      var off: nat := dataLow;
      while off < persistOff
        invariant i <= |stack|
        invariant off == persistOff - Used(stack, i)
        invariant live == LiveUsed(stack, flags, |stack|) - LiveUsed(stack, flags, i)
        decreases i
      {
        i := i - 1;
        var h := GetChunk(off, i);
        var l := ChunkLive(h);
        live := live + if l then h.size else 0;
        off := off + h.size;
      }
      UsedIsZero(stack, i);
      LiveUsedGrows(stack, flags, |stack|, |stack|);
    }

    /** Pass 1: forwarding offsets that pack the live chunks, and `below` links for the move. */
    method CompactPlan() returns (top: nat, newLow: nat)
      requires Rep()
      modifies buf, `stack
      ensures Rep()
      ensures |stack| == old(|stack|)
      ensures forall i :: 0 <= i < |stack| ==>
                IsPlanned(stack[i], old(stack), LiveFlags(slots, old(stack)), persistOff, i)
      ensures newLow == persistOff - LiveBytes(slots, old(stack))
      ensures top == if stack == [] then NONE32 else Off(old(stack), persistOff, 0)
    {
      hide Holds, WfStack, LiveHdr, PlannedFrom, Used, LiveUsed;
      var live := LiveTotal();
      RepIsWf();
      ghost var was := stack;
      ghost var flags := LiveFlags(slots, was);
      ghost var i: nat := |was|;
      newLow := persistOff - live;
      var pos: nat := newLow;
      var off: nat := dataLow;
      var below: u32 := NONE32;
      NonePlanned(was, flags, persistOff);
      while off < persistOff
        invariant Rep() && PlannedFrom(stack, was, flags, persistOff, i)
        invariant off == persistOff - Used(was, i)
        invariant pos == persistOff - LiveUsed(was, flags, i)
        invariant below == if i < |was| then Off(was, persistOff, i) else NONE32
        decreases i
      {
        UsedIsZero(was, i);
        i := i - 1;
        PlanOffsets(stack, was, flags, persistOff, i);
        var h := GetChunk(off, i);
        var fwd: u32 := NONE32;
        var l := ChunkLive(h);
        if l {
          fwd := pos;
          pos := pos + h.size;
        }
        PlanOne(stack, was, flags, persistOff, i, Chunk(h.(below := below, fwd := fwd), was[i].payload));
        PutChunk(off, h.(below := below, fwd := fwd), i);
        below := off;
        off := off + h.size;
      }
      UsedIsZero(was, i);
      AllPlanned(stack, was, flags, persistOff);
      top := below;
    }

    method Forward(off: u32, ghost planned: seq<Chunk>, ghost was: seq<Chunk>, ghost flags: seq<bool>,
                   ghost slots0: seq<SpanRec>, ghost s: nat, ghost k: int)
      returns (fwd: u32)
      requires Rep() && ReadyToFix(slots0, planned, was, flags, persistOff, chains) && s < |chains|
      requires |stack| == |was| && forall j :: 0 <= j < |was| ==> OnlyNext(planned[j], stack[j])
      requires off == RefAt(was, persistOff, chains[s], k)
      ensures fwd == NewRefAt(was, flags, persistOff, chains[s], k)
    {
      hide Holds, Used, ReadyToFix, RefAt, NewRefAt;
      ForwardTarget(slots0, stack, planned, was, flags, persistOff, chains, s, k);
      if off == NONE32 {
        return NONE32;
      }
      var h := GetChunk(off, chains[s][k]);
      fwd := h.fwd;
    }

    /** Pass 2 on one span record: forward its head and tail. */
    method FixSlot(slot: nat, ghost slots0: seq<SpanRec>, ghost was: seq<Chunk>, ghost flags: seq<bool>)
      requires Rep() && ReadyToFix(slots0, stack, was, flags, persistOff, chains) && |was| == |flags|
      requires slot < slotCount && SlotsForwarded(slots0, slots, was, flags, persistOff, chains, slot)
      modifies buf, `slots
      ensures Rep() && SlotsForwarded(slots0, slots, was, flags, persistOff, chains, slot + 1)
    {
      hide Holds, Used, ReadyToFix, RefAt, NewRefAt, LinksOk, SlotsForwarded, WfStack;
      ReadyLinks(slots0, stack, was, flags, persistOff, chains);
      SlotNotYetForwarded(slots0, slots, was, flags, persistOff, chains, slot);
      var rec := GetSlot(slot);
      if rec.state == SLOT_FREE {
        SlotsDone(slots0, slots, rec, was, flags, persistOff, chains, slot);
        assert slots == slots[slot := rec];
        return;
      }
      SlotRefs(slots0, was, persistOff, chains, slot);
      var head := Forward(rec.head, stack, was, flags, slots0, slot, 0);
      var tail := Forward(rec.tail, stack, was, flags, slots0, slot, |chains[slot]| - 1);
      SlotsDone(slots0, slots, rec.(head := head, tail := tail), was, flags, persistOff, chains, slot);
      PutSlot(slot, rec.(head := head, tail := tail));
    }

    /** Pass 2 on one chunk: forward its `next` if the chunk is live. */
    method FixChunk(off: nat, ghost slots0: seq<SpanRec>, ghost planned: seq<Chunk>, ghost was: seq<Chunk>,
                    ghost flags: seq<bool>, ghost i: nat)
      returns (size: nat)
      requires Rep() && ReadyToFix(slots0, planned, was, flags, persistOff, chains)
      requires i < |was| && FixedFrom(stack, planned, was, flags, persistOff, chains, i + 1)
      requires off == persistOff - Used(was, i + 1)
      modifies buf, `stack
      ensures Rep() && FixedFrom(stack, planned, was, flags, persistOff, chains, i)
      ensures Used(was, i + 1) == Used(was, i) + size
    {
      hide Holds, Used, ReadyToFix, FixedFrom, RefAt, NewRefAt, WfStack, LinksOk;
      FixOffsets(slots0, stack, planned, was, flags, persistOff, chains, i);
      ReadyLinks(slots0, planned, was, flags, persistOff, chains);
      var h := GetChunk(off, i);
      size := h.size;
      if h.fwd == NONE32 {
        FixDead(slots0, stack, planned, was, flags, persistOff, chains, i);
        return;
      }
      ghost var s, k := PlaceOf(slots0, planned, was, flags, persistOff, chains, i);
      var next := Forward(h.next, planned, was, flags, slots0, s, k + 1);
      FixLive(slots0, stack, planned, was, flags, persistOff, chains, i, s, k,
              Chunk(h.(next := next), stack[i].payload));
      PutChunk(off, h.(next := next), i);
    }

    /** Pass 2: all heads, tails and next fields of live lists now hold the offsets planned in pass 1. */
    method CompactFix(ghost was: seq<Chunk>, ghost flags: seq<bool>)
      requires Rep() && ReadyToFix(slots, stack, was, flags, persistOff, chains)
      modifies buf, `slots, `stack
      ensures Rep() && |was| == |flags|
      ensures SlotsForwarded(old(slots), slots, was, flags, persistOff, chains, |slots|)
      ensures FixedFrom(stack, old(stack), was, flags, persistOff, chains, 0)
    {
      ghost var slots0 := slots;
      ghost var planned := stack;
      hide Holds, Used, ReadyToFix, FixedFrom, SlotsForwarded, WfStack, LinksOk, LiveFlags;
      ReadyLinks(slots0, planned, was, flags, persistOff, chains);
      NoneForwarded(slots0, was, flags, persistOff, chains);
      var slot := 0;
      while slot < slotCount
        invariant Rep() && slot <= slotCount && stack == planned
        invariant SlotsForwarded(slots0, slots, was, flags, persistOff, chains, slot)
      {
        FixSlot(slot, slots0, was, flags);
        slot := slot + 1;
      }
      PlannedUsed(slots0, planned, was, flags, persistOff, chains);
      NoneFixed(planned, was, flags, persistOff, chains);
      ghost var slots1 := slots;
      ghost var i: nat := |was|;
      var off: nat := dataLow;
      while off < persistOff
        invariant Rep() && slots == slots1
        invariant i <= |was| && FixedFrom(stack, planned, was, flags, persistOff, chains, i)
        invariant off == persistOff - Used(was, i)
        decreases i
      {
        UsedIsZero(was, i);
        i := i - 1;
        var size := FixChunk(off, slots0, planned, was, flags, i);
        off := off + size;
      }
      UsedIsZero(was, i);
    }

    /** Pass 3: from the top down, each live chunk goes to its planned offset. */
    method CompactMove(top: nat, newLow: nat, ghost flags: seq<bool>)
      requires Rep() && |flags| == |stack|
      requires top == if stack == [] then NONE32 else Off(stack, persistOff, 0)
      requires forall i :: 0 <= i < |stack| ==> HasPlan(stack, flags, persistOff, i)
      requires newLow == persistOff - LiveUsed(stack, flags, |stack|)
      modifies buf, `stack, `dataLow
      ensures Rep() && stack == Survivors(old(stack), flags, |old(stack)|)
    {
      hide Holds, Used, LiveUsed, Moving, Survivors, HasPlan, WfStack, HdrOf, ChunkBytes, Write;
      RepIsWf();
      ghost var before := buf[..];
      ghost var k: nat := 0;
      NothingMoved(before, slots, stack, flags, persistOff);
      var off := top;
      while off != NONE32
        invariant Moving(buf[..], before, stack, flags, persistOff, k) && k <= |stack|
        invariant off == if k < |stack| then Off(stack, persistOff, k) else NONE32
        invariant buf[persistOff..] == resource
        decreases |stack| - k
        modifies buf
      {
        PlanAt(stack, flags, persistOff, k);
        NotYetOverwritten(buf[..], before, slots, stack, flags, persistOff, k);
        assert buf[off..off + HDR_SIZE] == buf[..][off..off + HDR_SIZE];
        var h := HdrOf(buf[off..off + HDR_SIZE]);
        if h.fwd != NONE32 && h.fwd != off {
          MoveOne(buf[..], before, slots, stack, flags, persistOff, k);
          assert buf[off..off + h.size] == buf[..][off..off + h.size];
          var data := buf[off..off + h.size];
          MoveKeepsResource(stack, flags, persistOff, k);
          WriteKeepsAbove(buf[..], h.fwd, data, persistOff);
          CopyIn(h.fwd, data);
          assert buf[persistOff..] == buf[..][persistOff..];
        } else {
          MoveNone(buf[..], before, slots, stack, flags, persistOff, k);
        }
        k := k + 1;
        off := h.below;
      }
      Moved(buf[..], before, slots, stack, flags, persistOff);
      SurvivorsUsed(stack, flags);
      SurvivorsLength(stack, flags);
      stack := Survivors(stack, flags, |stack|);
      dataLow := newLow;
    }

    /** The lists are sound and reach every chunk that is not marked dead. */
    ghost predicate Sound()
      reads this
    {
      LinksOk(slots, stack, persistOff, chains) && NoLeak(stack, chains, |stack|)
    }

    /**
     compact: afterwards the buffer holds exactly the live chunks, packed against the Resource;
     every span keeps its record and its ordered list of chunk kinds and payload bytes.
     */
    method Compact()
      requires Rep() && LinksOk(slots, stack, persistOff, chains) && LiveReached(slots, stack, chains)
      modifies buf, `slots, `stack, `chains, `dataLow
      ensures Rep() && Sound()
      ensures SameSpans(old(slots), old(stack), old(chains), slots, stack, chains)
      ensures dataLow == persistOff - old(LiveBytes(slots, stack))
      ensures LiveBytes(slots, stack) == old(LiveBytes(slots, stack)) == Used(stack, |stack|)
    {
      hide Holds, Used, LiveUsed, LiveFlags, WfStack, LinksOk, LiveReached, NoLeak, Survivors, ReadyToFix, FixedFrom,
        SlotsForwarded, IsPlanned, RenumberAll, HasPlan, LiveBytes, SameSpans;
      ghost var slots0, was, chains0 := slots, stack, chains;
      ghost var flags := LiveFlags(slots0, was);
      RepIsWf();
      var top, newLow := CompactPlan();
      ghost var planned := stack;
      GetReady(slots0, planned, was, flags, persistOff, chains);
      CompactFix(was, flags);
      ghost var fixed := stack;
      FixKeepsPlan(slots0, fixed, planned, was, flags, persistOff, chains);
      LiveBytesIs(slots0, was);
      CompactMove(top, newLow, flags);
      FixedChains(slots0, slots, fixed, planned, was, flags, persistOff, chains);
      chains := RenumberAll(chains, flags);
    }

    // ---------------------------------------------------------------- Allocation

    method FitsBelow(size: nat) returns (fits: bool)
      ensures fits == (SlotOff(slotCount) + size <= dataLow)
    {
      fits := SlotOff(slotCount) + size <= dataLow;
    }

    lemma Lengths()
      requires LinksOk(slots, stack, persistOff, chains)
      ensures |chains| == |slots|
    {
      hide ChainOk;
    }

    /** The part of alloc_chunk that takes the space, once it is known to be there. */
    method TakeChunk(owner: u16, kind: byte, payload: nat)
      requires Rep() && Sound() && owner < slotCount && kind != CHUNK_DEAD
      requires SlotOff(slotCount) + HDR_SIZE + payload <= dataLow
      modifies buf, `stack, `dataLow
      ensures Rep() && LinksOk(slots, stack, persistOff, chains) && Fresh(stack, chains, owner)
      ensures SameSpans(slots, old(stack), chains, slots, stack, chains)
      ensures dataLow == Off(stack, persistOff, |stack| - 1)
      ensures IsNew(stack[|stack| - 1], owner, kind, payload)
    {
      hide Holds, Used, LinksOk, NoLeak, SameSpans, Fresh, Write, HdrBytes;
      ghost var m := buf[..];
      RepIsWf();
      Lengths();
      dataLow := dataLow - (HDR_SIZE + payload);
      var hdr := ChunkHdr(NONE32, HDR_SIZE + payload, payload, 0, 0, owner, kind, 0);
      ghost var c := Chunk(hdr, m[dataLow + HDR_SIZE..dataLow + HDR_SIZE + payload]);
      ghost var stack' := stack + [c];
      AppendChunk(m, slots, stack, persistOff, c, stack', dataLow);
      WriteHdrOnly(m, dataLow, HdrBytes(hdr), c.payload);
      FreshAfterAppend(slots, stack, c, stack', persistOff, chains, owner);
      CopyIn(dataLow, HdrBytes(hdr));
      stack := stack';
      assert buf[persistOff..] == buf[..][persistOff..] == m[persistOff..];
    }

    /**
     alloc_chunk: refuses exactly when the table, the live chunks and the new one would not fit
     together, so no space is ever lost to fragmentation. No span reads differently afterwards.
     */
    method AllocChunk(owner: u16, kind: byte, payload: nat) returns (off: u32)
      requires Rep() && Sound() && owner < slotCount && kind != CHUNK_DEAD
      modifies buf, `slots, `stack, `chains, `dataLow
      ensures Rep() && LinksOk(slots, stack, persistOff, chains)
      ensures SameSpans(old(slots), old(stack), old(chains), slots, stack, chains)
      ensures off == NONE32 <==> SlotOff(slotCount) + HDR_SIZE + payload > persistOff - old(LiveBytes(slots, stack))
      ensures off == NONE32 ==> Sound()
      ensures off != NONE32 ==>
                && Fresh(stack, chains, owner) && off == Off(stack, persistOff, |stack| - 1)
                && IsNew(stack[|stack| - 1], owner, kind, payload)
    {
      hide Holds, Used, LinksOk, NoLeak, LiveReached, LiveBytes, SameSpans, Fresh;
      LiveBytesAtMost(slots, stack);
      Lengths();
      SameSpansRefl(slots, stack, chains);
      var fits := FitsBelow(HDR_SIZE + payload);
      if !fits {
        NoLeakIsEnough(slots, stack, chains);
        Compact();
        fits := FitsBelow(HDR_SIZE + payload);
        if !fits {
          return NONE32;
        }
      }
      ghost var slots1, stack1, chains1 := slots, stack, chains;
      TakeChunk(owner, kind, payload);
      off := dataLow;
      SameThenSame(old(slots), old(stack), old(chains), slots1, stack1, chains1, slots, stack, chains);
    }

    // ---------------------------------------------------------------- Lists

    /** link_chunk: the chunk just allocated becomes the last of its owner's list. */
    method LinkChunk(slot: nat, off: u32, ghost i: nat)
      requires Rep() && LinksOk(slots, stack, persistOff, chains) && slot < slotCount && slots[slot].state != SLOT_FREE
      requires Fresh(stack, chains, slot) && i + 1 == |stack| && off == Off(stack, persistOff, i)
      requires stack[i].hdr.next == NONE32
      modifies buf, `slots, `stack, `chains
      ensures Rep() && Sound()
      ensures OneSpan(old(slots), old(stack), old(chains), slots, stack, chains, slot,
                      old(RawItems(stack, chains[slot])) + [RawOf(old(stack)[i])])
    {
      hide Holds, Used, LinksOk, NoLeak, OneSpan, Linked, Distinct, RefAt, WfStack;
      Lengths();
      ghost var a, c := stack, chains[slot];
      RepIsWf();
      SlotRefs(slots, stack, persistOff, chains, slot);
      EndRefs(slots, stack, persistOff, chains, slot);
      var rec := GetSlot(slot);
      if rec.head == NONE32 {
        rec := rec.(head := off);
      } else {
        var tail := GetChunk(rec.tail, c[|c| - 1]);
        PutChunk(rec.tail, tail.(next := off), c[|c| - 1]);
      }
      assert LinkWrites(a, stack, c, off) by { assert |a| == |stack|; }
      rec := rec.(tail := off);
      ChainAtSlot(slots, a, persistOff, chains, slot);
      Link(slots[slot], a, stack, persistOff, c, slot, i, off, rec);
      ReachAfterLink(a, stack, chains, slot, i, off);
      OneSpanChanged(slots, a, stack, persistOff, chains, slot, rec, c + [i]);
      PutSlot(slot, rec);
      chains := chains[slot := c + [i]];
    }

    method KillChunk(off: nat, ghost i: nat)
      requires Rep() && i < |stack| && off == Off(stack, persistOff, i)
      modifies buf, `stack
      ensures Rep() && stack == old(stack[i := Kill(stack[i])])
    {
      hide Holds, Used;
      HoldsIsWf(buf[..], slots, stack, persistOff, i);
      var hdr := GetChunk(off, i);
      PutChunk(off, hdr.(kind := CHUNK_DEAD), i);
    }

    method ChunkMatches(off: nat, kind: byte, key: Option<seq<byte>>, ghost i: nat) returns (m: bool)
      requires Rep() && i < |stack| && off == Off(stack, persistOff, i)
      ensures m == Matches(RawOf(stack[i]), kind, key)
    {
      hide Holds, Used, UnpackKV;
      HoldsIsWf(buf[..], slots, stack, persistOff, i);
      var h := GetChunk(off, i);
      if h.kind != kind {
        return false;
      }
      if key.None? {
        return true;
      }
      var data := ReadPayload(off, h.used, i);
      var found := UnpackKV(data);
      m := found.Unpacked? && found.kv.key == key.value;
    }

    /** find_chunk: the first chunk of a kind (and key) in a slot's list, and the one before it. */
    method FindChunk(slot: nat, kind: byte, key: Option<seq<byte>>) returns (off: u32, prev: u32, ghost p: nat)
      requires Rep() && LinksOk(slots, stack, persistOff, chains) && slot < slotCount && slots[slot].state != SLOT_FREE
      ensures |chains| == |slots| && FirstMatch(RawItems(stack, chains[slot]), kind, key, p)
      ensures off == RefAt(stack, persistOff, chains[slot], p)
      ensures prev == RefAt(stack, persistOff, chains[slot], p - 1)
      ensures off == NONE32 <==> p == |chains[slot]|
      ensures off != NONE32 ==> chains[slot][p] < |stack| && off == Off(stack, persistOff, chains[slot][p])
    {
      hide Holds, Used, LinksOk, WfStack, Matches, RawItems, RefAt, UnpackKV;
      RepIsWf();
      SlotRefs(slots, stack, persistOff, chains, slot);
      Lengths();
      var rec := GetSlot(slot);
      off := rec.head;
      prev := NONE32;
      p := 0;
      ghost var c := chains[slot];
      ghost var items := RawItems(stack, c);
      RefPastEnd(stack, persistOff, c, -1);
      RefPastEnd(stack, persistOff, c, |c|);
      while off != NONE32
        invariant p <= |c|
        invariant off == RefAt(stack, persistOff, c, p) && prev == RefAt(stack, persistOff, c, p - 1)
        invariant forall q :: 0 <= q < p ==> !Matches(items[q], kind, key)
        decreases |c| - p
      {
        RefKnown(slots, stack, persistOff, chains, slot, p);
        var m := ChunkMatches(off, kind, key, c[p]);
        if m {
          return;
        }
        var hdr := GetChunk(off, c[p]);
        prev := off;
        off := hdr.next;
        p := p + 1;
      }
      if p < |c| { RefKnown(slots, stack, persistOff, chains, slot, p); }
    }

    /** The chunk headers splice_chunk writes. */
    method SpliceHeaders(prev: u32, oldOff: u32, repl: u32, ghost c: Chain, ghost p: nat, ghost i: nat)
      requires Rep() && i < |stack| && repl == Off(stack, persistOff, i)
      requires p < |c| && c[p] < |stack| && c[p] != i && oldOff == Off(stack, persistOff, c[p])
      requires p == 0 ==> prev == NONE32
      requires p > 0 ==> && c[p - 1] < |stack| && c[p - 1] != i && c[p - 1] != c[p]
                         && prev == Off(stack, persistOff, c[p - 1]) && prev != NONE32
      modifies buf, `stack
      ensures Rep() && SpliceWrites(old(stack), stack, c, p, i, repl)
    {
      hide Holds, Used, Off, WfStack;
      ghost var a := stack;
      HoldsIsWf(buf[..], slots, stack, persistOff, i);
      var hdr := GetChunk(repl, i);
      var oldHdr := GetChunk(oldOff, c[p]);
      PutChunk(repl, hdr.(next := oldHdr.next), i);
      OffSame(a, stack, persistOff, c[p]);
      if prev != NONE32 {
        OffSame(a, stack, persistOff, c[p - 1]);
        HoldsIsWf(buf[..], slots, stack, persistOff, c[p - 1]);
        var q := GetChunk(prev, c[p - 1]);
        PutChunk(prev, q.(next := repl), c[p - 1]);
        OffSame(a, stack, persistOff, c[p]);
      }
      KillChunk(oldOff, c[p]);
    }

    /** splice_chunk: the chunk just allocated takes the place of chunk p of its owner's list. */
    method SpliceChunk(slot: nat, prev: u32, oldOff: u32, repl: u32, ghost p: nat, ghost i: nat)
      requires Rep() && LinksOk(slots, stack, persistOff, chains) && slot < slotCount && slots[slot].state != SLOT_FREE
      requires Fresh(stack, chains, slot) && i + 1 == |stack| && repl == Off(stack, persistOff, i)
      requires p < |chains[slot]|
      requires oldOff == RefAt(stack, persistOff, chains[slot], p)
      requires prev == RefAt(stack, persistOff, chains[slot], p - 1)
      modifies buf, `slots, `stack, `chains
      ensures Rep() && Sound()
      ensures OneSpan(old(slots), old(stack), old(chains), slots, stack, chains, slot,
                      old(RawItems(stack, chains[slot]))[p := RawOf(old(stack)[i])])
    {
      hide Holds, Used, LinksOk, NoLeak, OneSpan, Linked, Distinct, RefAt, WfStack, Off, SpliceWrites;
      Lengths();
      ghost var a, c := stack, chains[slot];
      RepIsWf();
      SlotRefs(slots, stack, persistOff, chains, slot);
      RefKnown(slots, stack, persistOff, chains, slot, p);
      SpliceIndices(slots, stack, persistOff, chains, slot, p, i);
      var rec := GetSlot(slot);
      SpliceHeaders(prev, oldOff, repl, c, p, i);
      if prev == NONE32 {
        rec := rec.(head := repl);
      }
      if rec.tail == oldOff {
        rec := rec.(tail := repl);
      }
      ChainAtSlot(slots, a, persistOff, chains, slot);
      Splice(slots[slot], a, stack, persistOff, c, slot, p, i, repl, rec);
      ReachAfterSplice(a, stack, chains, slot, p, i, repl);
      OneSpanChanged(slots, a, stack, persistOff, chains, slot, rec, Replaced(c, p, i));
      PutSlot(slot, rec);
      chains := chains[slot := Replaced(c, p, i)];
    }

    /** The chunk headers unlink_chunk writes. */
    method UnlinkHeaders(prev: u32, off: u32, ghost c: Chain, ghost p: nat) returns (next: u32)
      requires Rep() && p < |c| && c[p] < |stack| && off == Off(stack, persistOff, c[p])
      requires p == 0 ==> prev == NONE32
      requires p > 0 ==> && c[p - 1] < |stack| && c[p - 1] != c[p]
                         && prev == Off(stack, persistOff, c[p - 1]) && prev != NONE32
      modifies buf, `stack
      ensures Rep() && UnlinkWrites(old(stack), stack, c, p) && next == old(stack[c[p]].hdr.next)
    {
      hide Holds, Used, Off, WfStack;
      ghost var a := stack;
      var hdr := GetChunk(off, c[p]);
      next := hdr.next;
      if prev != NONE32 {
        HoldsIsWf(buf[..], slots, stack, persistOff, c[p - 1]);
        var q := GetChunk(prev, c[p - 1]);
        PutChunk(prev, q.(next := next), c[p - 1]);
        OffSame(a, stack, persistOff, c[p]);
      }
      KillChunk(off, c[p]);
    }

    /** unlink_chunk: chunk p leaves the list and dies; a chunk just allocated may still wait to be linked. */
    method UnlinkChunk(slot: nat, prev: u32, off: u32, ghost p: nat, ghost n: nat)
      requires Rep() && LinksOk(slots, stack, persistOff, chains) && slot < slotCount && slots[slot].state != SLOT_FREE
      requires NoLeak(stack, chains, n) && p < |chains[slot]|
      requires off == RefAt(stack, persistOff, chains[slot], p) && prev == RefAt(stack, persistOff, chains[slot], p - 1)
      modifies buf, `slots, `stack, `chains
      ensures Rep() && LinksOk(slots, stack, persistOff, chains) && NoLeak(stack, chains, n)
      ensures OneSpan(old(slots), old(stack), old(chains), slots, stack, chains, slot,
                      old(RawItems(stack, chains[slot]))[..p] + old(RawItems(stack, chains[slot]))[p + 1..])
      ensures UnlinkWrites(old(stack), stack, old(chains[slot]), p)
      ensures chains == old(chains[slot := Without(chains[slot], p)])
    {
      hide Holds, Used, LinksOk, NoLeak, OneSpan, Linked, Distinct, RefAt, WfStack, Off, UnlinkWrites;
      Lengths();
      ghost var a, c := stack, chains[slot];
      RepIsWf();
      SlotRefs(slots, stack, persistOff, chains, slot);
      RefKnown(slots, stack, persistOff, chains, slot, p);
      UnlinkIndices(slots, stack, persistOff, chains, slot, p);
      var rec := GetSlot(slot);
      var next := UnlinkHeaders(prev, off, c, p);
      if prev == NONE32 {
        rec := rec.(head := next);
      }
      if rec.tail == off {
        rec := rec.(tail := prev);
      }
      ChainAtSlot(slots, a, persistOff, chains, slot);
      Unlink(slots[slot], a, stack, persistOff, c, slot, p, rec);
      ReachAfterUnlink(a, stack, chains, slot, p, n);
      OneSpanChanged(slots, a, stack, persistOff, chains, slot, rec, Without(c, p));
      PutSlot(slot, rec);
      chains := chains[slot := Without(c, p)];
    }

    /** Writes data over chunk p of a list, which has room for it. */
    method OverwriteChunk(slot: nat, off: u32, data: seq<byte>, ghost p: nat)
      requires Rep() && Sound() && slot < slotCount && slots[slot].state != SLOT_FREE
      requires p < |chains[slot]| && chains[slot][p] < |stack| && off == Off(stack, persistOff, chains[slot][p])
      requires |data| <= |stack[chains[slot][p]].payload|
      modifies buf, `stack
      ensures Rep() && Sound()
      ensures OneSpan(slots, old(stack), chains, slots, stack, chains, slot,
                      old(RawItems(stack, chains[slot])[p := Raw(stack[chains[slot][p]].hdr.kind, data)]))
    {
      hide Holds, Used, LinksOk, NoLeak, OneSpan, ChainOk, RawItems, WfStack, Off;
      Lengths();
      ghost var a, c := stack, chains[slot];
      ghost var i := c[p];
      HoldsIsWf(buf[..], slots, stack, persistOff, i);
      var hdr := GetChunk(off, i);
      WritePayload(off, data, i);
      OffSame(a, stack, persistOff, i);
      PutChunk(off, hdr.(used := |data|), i);
      assert stack == a[i := WithData(a[i], data)];
      ChainAtSlot(slots, a, persistOff, chains, slot);
      Overwrite(slots[slot], a, stack, persistOff, c, slot, p, data);
      ReachAfterOverwrite(a, stack, chains, i, data);
      OneSpanChanged(slots, a, stack, persistOff, chains, slot, slots[slot], c);
      assert slots == slots[slot := slots[slot]] && chains == chains[slot := c];
    }

    // ---------------------------------------------------------------- What the buffer means

    ghost predicate Valid()
      reads this, buf
    {
      Rep() && Sound() && |chains| == |slots|
    }

    ghost function View(): map<nat, SpanView>
      reads this
    {
      Spans(slots, stack, chains)
    }

    /** Bytes that are neither table, nor live chunk, nor Resource. */
    ghost function Room(): int
      reads this
    {
      persistOff - SlotOff(slotCount) - LiveBytes(slots, stack)
    }

    /** Allocates a chunk and fills it; it is on no list yet. */
    method AllocFilled(slot: u16, kind: byte, data: seq<byte>) returns (off: u32)
      requires Valid() && slot < slotCount && kind != CHUNK_DEAD
      modifies buf, `slots, `stack, `chains, `dataLow
      ensures Rep() && LinksOk(slots, stack, persistOff, chains) && |chains| == |slots|
      ensures SameSpans(old(slots), old(stack), old(chains), slots, stack, chains)
      ensures off != NONE32 <==> HDR_SIZE + |data| <= old(Room())
      ensures off == NONE32 ==> Valid()
      ensures off != NONE32 ==>
                && Fresh(stack, chains, slot) && off == Off(stack, persistOff, |stack| - 1)
                && RawOf(stack[|stack| - 1]) == Raw(kind, data) && stack[|stack| - 1].hdr.next == NONE32
    {
      hide Holds, Used, LinksOk, NoLeak, LiveBytes, SameSpans, Fresh, Off, SlotOff;
      ghost var slots0, stack0, chains0 := slots, stack, chains;
      off := AllocChunk(slot, kind, |data|);
      Lengths();
      if off == NONE32 {
        return;
      }
      FreshNonempty(stack, chains, slot);
      ghost var a, slots1, chains1 := stack, slots, chains;
      ghost var i := |stack| - 1;
      WritePayload(off, data, i);
      assert SameSizes(a, stack) && a[..i] == stack[..i];
      FillFresh(slots, a, stack, persistOff, chains, slot);
      OffSame(a, stack, persistOff, i);
      assert stack[i].payload == data;
      SameThenSame(slots0, stack0, chains0, slots1, a, chains1, slots, stack, chains);
    }

    /** alloc_chunk, fill, link_chunk: one more item at the end of a span's list, or no room. */
    method AddItem(slot: u16, kind: byte, data: seq<byte>) returns (ok: bool)
      requires Valid() && slot < slotCount && slots[slot].state != SLOT_FREE && kind != CHUNK_DEAD
      modifies buf, `slots, `stack, `chains, `dataLow
      ensures Valid()
      ensures ok <==> HDR_SIZE + |data| <= old(Room())
      ensures ok ==> View() == old(View()[slot := SpanView(Bare(slots[slot]),
                                RawItems(stack, chains[slot]) + [Raw(kind, data)])])
      ensures !ok ==> View() == old(View())
    {
      hide Holds, Used, LinksOk, NoLeak, LiveBytes, Fresh, Off, OneSpan, SlotOff, RawItems;
      ghost var slots0, stack0, chains0 := slots, stack, chains;
      var off := AllocFilled(slot, kind, data);
      if off == NONE32 {
        hide SameSpans;
        SpansSame(slots0, stack0, chains0, slots, stack, chains);
        return false;
      }
      FreshNonempty(stack, chains, slot);
      ghost var slots1, stack1, chains1 := slots, stack, chains;
      assert SameRec(slots0[slot], slots1[slot]);
      LinkChunk(slot, off, |stack| - 1);
      hide SameSpans;
      Lengths();
      ghost var items := RawItems(stack0, chains0[slot]) + [Raw(kind, data)];
      SameThenOne(slots0, stack0, chains0, slots1, stack1, chains1, slots, stack, chains, slot, items);
      SpansOne(slots0, stack0, chains0, slots, stack, chains, slot, items);
      ok := true;
    }

    /** Payload bytes chunk p of a slot's list has room for. */
    ghost function Capacity(slot: nat, p: nat): nat
      requires slot < |chains| && p < |chains[slot]| && chains[slot][p] < |stack|
      reads this
    {
      |stack[chains[slot][p]].payload|
    }

    /**
     The overwrite half of set_attribute: new content for item p, the first that matches, in place if it
     fits and otherwise in a new chunk spliced into its position.
     */
    method ReplaceItem(slot: u16, off: u32, kind: byte, key: Option<seq<byte>>, data: seq<byte>, ghost p: nat)
      returns (ok: bool)
      requires Valid() && slot < slotCount && slots[slot].state != SLOT_FREE && kind != CHUNK_DEAD
      requires FirstMatch(RawItems(stack, chains[slot]), kind, key, p) && p < |chains[slot]|
      requires chains[slot][p] < |stack| && off == Off(stack, persistOff, chains[slot][p])
      modifies buf, `slots, `stack, `chains, `dataLow
      ensures Valid()
      ensures ok <==> |data| <= old(Capacity(slot, p)) || HDR_SIZE + |data| <= old(Room())
      ensures ok ==> View() == old(View()[slot := SpanView(Bare(slots[slot]),
                                RawItems(stack, chains[slot])[p := Raw(kind, data)])])
      ensures !ok ==> View() == old(View())
    {
      hide Holds, Used, LinksOk, NoLeak, LiveBytes, Fresh, Off, OneSpan, SlotOff, RawItems, RefAt;
      ghost var slots0, stack0, chains0 := slots, stack, chains;
      ghost var items := RawItems(stack0, chains0[slot])[p := Raw(kind, data)];
      ItemKind(slots, stack, persistOff, chains, slot, kind, key, p);
      HoldsIsWf(buf[..], slots, stack, persistOff, chains[slot][p]);
      var hdr := GetChunk(off, chains[slot][p]);
      if |data| <= hdr.size - HDR_SIZE {
        OverwriteChunk(slot, off, data, p);
        SpansOne(slots0, stack0, chains0, slots, stack, chains, slot, items);
        return true;
      }
      var repl := AllocFilled(slot, kind, data);
      if repl == NONE32 {
        hide SameSpans;
        SpansSame(slots0, stack0, chains0, slots, stack, chains);
        return false;
      }
      ghost var slots1, stack1, chains1 := slots, stack, chains;
      assert SameRec(slots0[slot], slots1[slot]) && RawItems(stack1, chains1[slot]) == RawItems(stack0, chains0[slot]);
      var again, prev, q := FindChunk(slot, kind, key);
      FirstMatchUnique(RawItems(stack1, chains1[slot]), kind, key, p, q);
      FreshNonempty(stack, chains, slot);
      SpliceChunk(slot, prev, again, repl, p, |stack| - 1);
      hide SameSpans;
      Lengths();
      SameThenOne(slots0, stack0, chains0, slots1, stack1, chains1, slots, stack, chains, slot, items);
      SpansOne(slots0, stack0, chains0, slots, stack, chains, slot, items);
      ok := true;
    }

    /** unlink_chunk on the first item of a kind, if there is one; a fresh chunk may be waiting. */
    method DropFirst(slot: u16, kind: byte, ghost i: nat) returns (ghost p: nat)
      requires Rep() && LinksOk(slots, stack, persistOff, chains) && |chains| == |slots|
      requires slot < slotCount && slots[slot].state != SLOT_FREE
      requires Fresh(stack, chains, slot) && i + 1 == |stack|
      modifies buf, `slots, `stack, `chains
      ensures Rep() && LinksOk(slots, stack, persistOff, chains) && |chains| == |slots|
      ensures Fresh(stack, chains, slot) && |stack| == i + 1 && stack[i] == old(stack)[i]
      ensures Off(stack, persistOff, i) == old(Off(stack, persistOff, i))
      ensures FirstMatch(old(RawItems(stack, chains[slot])), kind, None, p)
      ensures OneSpan(old(slots), old(stack), old(chains), slots, stack, chains, slot,
                      Dropped(old(RawItems(stack, chains[slot])), p))
    {
      hide Holds, Used, LinksOk, NoLeak, Off, OneSpan, SlotOff, RawItems, RefAt, UnlinkWrites, Matches;
      ghost var a, slots0, chains0 := stack, slots, chains;
      var oldOff, prev;
      oldOff, prev, p := FindChunk(slot, kind, None);
      if oldOff != NONE32 {
        UnlinkChunk(slot, prev, oldOff, p, i);
        FreshAfterUnlink(a, stack, persistOff, chains0, chains, slot, p, i);
        Lengths();
      } else {
        SameSpansRefl(slots, stack, chains);
        SameIsOne(slots, stack, chains, slots, stack, chains, slot);
      }
    }

    /**
     set_status_message: the one item of this kind becomes `data`, in place if that fits; otherwise the old
     one goes and a new one is linked at the end. No data means no item.
     */
    method SetSingle(slot: u16, kind: byte, data: seq<byte>) returns (ok: bool, ghost p: nat)
      requires Valid() && slot < slotCount && slots[slot].state != SLOT_FREE && kind != CHUNK_DEAD
      modifies buf, `slots, `stack, `chains, `dataLow
      ensures Valid()
      ensures FirstMatch(old(RawItems(stack, chains[slot])), kind, None, p)
      ensures old(p < |chains[slot]| ==> chains[slot][p] < |stack|)
      ensures var inPlace := old(p < |chains[slot]| && 0 < |data| <= Capacity(slot, p));
              var items := old(RawItems(stack, chains[slot]));
              && (ok <==> data == [] || inPlace || HDR_SIZE + |data| <= old(Room()))
              && (!ok ==> View() == old(View()))
              && (ok ==> View() == old(View()[slot := SpanView(Bare(slots[slot]),
                   if inPlace then items[p := Raw(kind, data)]
                   else Dropped(items, p) + if data == [] then [] else [Raw(kind, data)])]))
    {
      hide Holds, Used, LinksOk, NoLeak, LiveBytes, Fresh, Off, OneSpan, SlotOff, RawItems, RefAt, Matches,
        UnlinkWrites;
      ghost var slots0, stack0, chains0 := slots, stack, chains;
      ghost var items0 := RawItems(stack0, chains0[slot]);
      var oldOff, prev;
      oldOff, prev, p := FindChunk(slot, kind, None);
      if oldOff != NONE32 {
        ItemKind(slots, stack, persistOff, chains, slot, kind, None, p);
        HoldsIsWf(buf[..], slots, stack, persistOff, chains[slot][p]);
        var hdr := GetChunk(oldOff, chains[slot][p]);
        if |data| > 0 && |data| <= hdr.size - HDR_SIZE {
          OverwriteChunk(slot, oldOff, data, p);
          SpansOne(slots0, stack0, chains0, slots, stack, chains, slot, items0[p := Raw(kind, data)]);
          return true, p;
        }
      }
      if |data| == 0 {
        if oldOff != NONE32 {
          UnlinkChunk(slot, prev, oldOff, p, |stack|);
          Lengths();
          UnlinkLength(stack0, stack, chains0[slot], p);
        } else {
          SameSpansRefl(slots, stack, chains);
          SameIsOne(slots, stack, chains, slots, stack, chains, slot);
        }
        assert Dropped(items0, p) + [] == Dropped(items0, p);
        SpansOne(slots0, stack0, chains0, slots, stack, chains, slot, Dropped(items0, p));
        return true, p;
      }
      ok := RelinkSingle(slot, kind, data, p);
    }

    /** The last part of set_status_message: a new chunk for the item, and the old one unlinked. */
    method RelinkSingle(slot: u16, kind: byte, data: seq<byte>, ghost p: nat) returns (ok: bool)
      requires Valid() && slot < slotCount && slots[slot].state != SLOT_FREE && kind != CHUNK_DEAD
      requires FirstMatch(RawItems(stack, chains[slot]), kind, None, p)
      modifies buf, `slots, `stack, `chains, `dataLow
      ensures Valid()
      ensures ok <==> HDR_SIZE + |data| <= old(Room())
      ensures !ok ==> View() == old(View())
      ensures ok ==> View() == old(View()[slot := SpanView(Bare(slots[slot]),
                                Dropped(RawItems(stack, chains[slot]), p) + [Raw(kind, data)])])
    {
      hide Holds, Used, LinksOk, NoLeak, LiveBytes, Fresh, Off, OneSpan, SlotOff, RawItems, Matches, FirstMatch;
      ghost var slots0, stack0, chains0 := slots, stack, chains;
      var repl := AllocFilled(slot, kind, data);
      if repl == NONE32 {
        hide SameSpans;
        SpansSame(slots0, stack0, chains0, slots, stack, chains);
        return false;
      }
      ghost var slots1, stack1, chains1 := slots, stack, chains;
      assert SameRec(slots0[slot], slots1[slot]) && RawItems(stack1, chains1[slot]) == RawItems(stack0, chains0[slot]);
      hide SameSpans;
      FreshNonempty(stack, chains, slot);
      ghost var i := |stack| - 1;
      ghost var q := DropFirst(slot, kind, i);
      FirstMatchUnique(RawItems(stack0, chains0[slot]), kind, None, p, q);
      ghost var slots2, stack2, chains2 := slots, stack, chains;
      ghost var items2 := Dropped(RawItems(stack0, chains0[slot]), p);
      OneSpanAt(slots1, stack1, chains1, slots2, stack2, chains2, slot, items2);
      LinkChunk(slot, repl, i);
      Lengths();
      ghost var items := items2 + [Raw(kind, data)];
      OneThenOne(slots1, stack1, chains1, slots2, stack2, chains2, slots, stack, chains, slot, items2, items);
      SameThenOne(slots0, stack0, chains0, slots1, stack1, chains1, slots, stack, chains, slot, items);
      SpansOne(slots0, stack0, chains0, slots, stack, chains, slot, items);
      ok := true;
    }

    /** Frees a slot whose span has been encoded; its chunks are left for the next compaction. */
    method FreeSlot(slot: nat, r: SpanRec)
      requires Rep() && LinksOk(slots, stack, persistOff, chains) && LiveReached(slots, stack, chains)
      requires |chains| == |slots|
      requires slot < slotCount && r.state == SLOT_FREE
      modifies buf, `slots, `chains
      ensures Rep() && LinksOk(slots, stack, persistOff, chains) && LiveReached(slots, stack, chains)
      ensures |chains| == |slots|
      ensures slots == old(slots)[slot := r]
      ensures Spans(slots, stack, chains) == old(Spans(slots, stack, chains)) - {slot}
    {
      hide Holds, Used, LinksOk, LiveReached, Spans;
      LinksAfterFree(slots, stack, persistOff, chains, slot, r);
      SpansFree(slots, stack, chains, slot, r);
      PutSlot(slot, r);
      chains := chains[slot := []];
    }

    /** A slot's items in emit order, as the cursors of a backend see them. */
    method ReadItems(slot: nat) returns (items: seq<Raw>)
      requires Valid() && slot < slotCount && slots[slot].state != SLOT_FREE
      ensures items == RawItems(stack, chains[slot])
    {
      hide Holds, Used, LinksOk, NoLeak, WfStack, RawItems, RefAt;
      RepIsWf();
      SlotRefs(slots, stack, persistOff, chains, slot);
      ghost var c := chains[slot];
      ghost var all := RawItems(stack, c);
      RefPastEnd(stack, persistOff, c, |c|);
      var rec := GetSlot(slot);
      var off := rec.head;
      items := [];
      ghost var k: nat := 0;
      while off != NONE32
        invariant k <= |c| && off == RefAt(stack, persistOff, c, k)
        invariant items == all[..k]
        decreases |c| - k
      {
        RefKnown(slots, stack, persistOff, chains, slot, k);
        var hdr := GetChunk(off, c[k]);
        var data := ReadPayload(off, hdr.used, c[k]);
        items := items + [Raw(hdr.kind, data)];
        off := hdr.next;
        k := k + 1;
      }
      if k < |c| { RefKnown(slots, stack, persistOff, chains, slot, k); }
      assert all[..|c|] == all;
    }

    // ---------------------------------------------------------------- Slots

    ghost predicate AllTaken()
      reads this
    {
      forall s :: 0 <= s < |slots| ==> slots[s].state != SLOT_FREE
    }

    /** Rewrites the record of a span in use, apart from where its list is. */
    method PutRec(slot: nat, r: SpanRec)
      requires Valid() && slot < slotCount && slots[slot].state != SLOT_FREE && r.state != SLOT_FREE
      requires r.head == slots[slot].head && r.tail == slots[slot].tail
      modifies buf, `slots
      ensures Valid()
      ensures slots == old(slots)[slot := r]
      ensures View() == old(View()[slot := SpanView(Bare(r), RawItems(stack, chains[slot]))])
    {
      hide Holds, Used, LinksOk, NoLeak, ChainOk, RawItems;
      LinksAfterRec(slots, stack, persistOff, chains, slot, r);
      SpansRec(slots, stack, chains, slot, r);
      PutSlot(slot, r);
    }

    /** A free slot becomes a span with an empty list. */
    method OpenSlot(slot: nat, r: SpanRec)
      requires Rep() && LinksOk(slots, stack, persistOff, chains) && |chains| == |slots|
      requires slot < slotCount && slots[slot].state == SLOT_FREE
      requires r.state != SLOT_FREE && r.head == NONE32 && r.tail == NONE32
      modifies buf, `slots
      ensures Rep() && LinksOk(slots, stack, persistOff, chains) && slots == old(slots)[slot := r]
      ensures Spans(slots, stack, chains) == old(Spans(slots, stack, chains)[slot := SpanView(Bare(r), [])])
      ensures chains[slot] == []
    {
      hide Holds, Used, NoLeak, RawItems;
      assert chains[slot] == [];
      LinksAfterOpen(slots, stack, persistOff, chains, slot, r);
      hide LinksOk;
      SpansRec(slots, stack, chains, slot, r);
      assert RawItems(stack, chains[slot]) == [];
      PutSlot(slot, r);
    }

    /** The storage half of start_span: a name chunk if there is a name, then the record. */
    method BeginSpan(slot: u16, r: SpanRec, name: seq<byte>) returns (ok: bool)
      requires Valid() && slot < slotCount && slots[slot].state == SLOT_FREE
      requires r.state != SLOT_FREE && r.head == NONE32 && r.tail == NONE32
      modifies buf, `slots, `stack, `chains, `dataLow
      ensures Valid()
      ensures ok <==> name == [] || HDR_SIZE + |name| <= old(Room())
      ensures !ok ==> View() == old(View())
      ensures ok ==> View() == old(View())[slot := SpanView(Bare(r),
                                if name == [] then [] else [Raw(CHUNK_NAME, name)])]
    {
      hide Holds, Used, LinksOk, NoLeak, LiveBytes, Fresh, Off, OneSpan, SlotOff, RawItems, Spans;
      ghost var slots0, stack0, chains0 := slots, stack, chains;
      if name == [] {
        OpenSlot(slot, r);
        return true;
      }
      var off := AllocFilled(slot, CHUNK_NAME, name);
      FreeStays(slots0, stack0, chains0, slots, stack, chains, slot);
      hide SameSpans;
      SpansSame(slots0, stack0, chains0, slots, stack, chains);
      if off == NONE32 {
        return false;
      }
      OpenSlot(slot, r);
      FreshNonempty(stack, chains, slot);
      ghost var slots1, stack1, chains1 := slots, stack, chains;
      assert RawItems(stack, chains[slot]) == [];
      LinkChunk(slot, off, |stack| - 1);
      Lengths();
      ghost var items := [Raw(CHUNK_NAME, name)];
      assert [] + items == items;
      SpansOne(slots1, stack1, chains1, slots, stack, chains, slot, items);
      ok := true;
    }

    /** acquire_slot: refuses exactly when every slot is taken and the table cannot grow even after a compaction. */
    method AcquireSlot() returns (slot: u16)
      requires Valid()
      modifies buf, `slots, `stack, `chains, `dataLow, `slotCount
      ensures Valid() && View() == old(View()) && LiveBytes(slots, stack) == old(LiveBytes(slots, stack))
      ensures slot == NONE16 <==> old(AllTaken() && (slotCount == NONE16 || REC_SIZE > Room()))
      ensures slot != NONE16 ==> slot < slotCount && slots[slot].state == SLOT_FREE
      ensures slot != NONE16 && !old(AllTaken()) ==> slotCount == old(slotCount)
      ensures old(AllTaken()) && slot != NONE16 ==> slotCount == old(slotCount) + 1 && slot == old(slotCount)
    {
      hide Holds, Used, LinksOk, NoLeak, LiveBytes, LiveReached, RawItems, SameSpans;
      ghost var slots0, stack0, chains0 := slots, stack, chains;
      var i := 0;
      while i < slotCount
        invariant 0 <= i <= slotCount
        invariant forall s :: 0 <= s < i ==> slots[s].state != SLOT_FREE
        modifies {}
      {
        var rec := GetSlot(i);
        if rec.state == SLOT_FREE {
          return i;
        }
        i := i + 1;
      }
      if slotCount == NONE16 {
        return NONE16;
      }
      LiveBytesAtMost(slots, stack);
      SameSpansRefl(slots, stack, chains);
      var fits := FitsBelow(REC_SIZE);
      if !fits {
        NoLeakIsEnough(slots, stack, chains);
        Compact();
        Lengths();
        SpansSame(slots0, stack0, chains0, slots, stack, chains);
        fits := FitsBelow(REC_SIZE);
        if !fits {
          return NONE16;
        }
      }
      slot := slotCount;
      GrowTable();
    }

    method GrowTable()
      requires Valid() && slotCount < NONE16 && SlotOff(slotCount) + REC_SIZE <= dataLow
      modifies buf, `slots, `chains, `slotCount
      ensures Valid() && View() == old(View()) && LiveBytes(slots, stack) == old(LiveBytes(slots, stack))
      ensures slotCount == old(slotCount) + 1 && slots[slotCount - 1].state == SLOT_FREE
    {
      hide Holds, Used, LinksOk, NoLeak, RawItems, Write, RecBytes, LiveBytes;
      var rec := SpanRec(0, 0, seq(16, _ => 0), seq(8, _ => 0), seq(8, _ => 0), 0, 0, 0, 0, 0, 0, SLOT_FREE, 0, 0, 0);
      AppendSlot(buf[..], slots, stack, persistOff, rec);
      LinksAfterGrow(slots, stack, persistOff, chains, rec);
      SpansGrow(slots, stack, chains, rec);
      LiveAfterGrow(slots, stack, rec);
      ghost var m := buf[..];
      CopyIn(SlotOff(slotCount), RecBytes(rec));
      slotCount := slotCount + 1;
      slots := slots + [rec];
      chains := chains + [[]];
      assert buf[persistOff..] == buf[..][persistOff..] == m[persistOff..];
    }

    /** trim_slots: the table ends with a slot in use again; no span notices. */
    method TrimSlots()
      requires Rep() && LinksOk(slots, stack, persistOff, chains) && LiveReached(slots, stack, chains)
      requires |chains| == |slots|
      modifies `slots, `chains, `slotCount
      ensures Rep() && LinksOk(slots, stack, persistOff, chains) && LiveReached(slots, stack, chains)
      ensures |chains| == |slots|
      ensures old(Sound()) ==> Sound()
      ensures Spans(slots, stack, chains) == old(Spans(slots, stack, chains))
      ensures slotCount <= old(slotCount) && slots == old(slots)[..slotCount]
      ensures slotCount > 0 ==> slots[slotCount - 1].state != SLOT_FREE
    {
      hide Holds, Used, LinksOk, NoLeak, LiveReached, RawItems, Spans;
      ghost var sound := Sound();
      while slotCount > 0
        invariant Rep() && LinksOk(slots, stack, persistOff, chains) && LiveReached(slots, stack, chains)
        invariant |chains| == |slots|
        invariant sound ==> Sound()
        invariant Spans(slots, stack, chains) == old(Spans(slots, stack, chains))
        invariant slotCount <= old(slotCount) && slots == old(slots)[..slotCount]
      {
        var rec := GetSlot(slotCount - 1);
        if rec.state != SLOT_FREE {
          break;
        }
        DropLastSlot(buf[..], slots, stack, persistOff);
        LinksAfterTrim(slots, stack, persistOff, chains);
        SpansTrim(slots, stack, chains);
        slotCount := slotCount - 1;
        slots := slots[..slotCount];
        chains := chains[..slotCount];
      }
    }
  }
}
