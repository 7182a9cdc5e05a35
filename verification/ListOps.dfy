/**
 What the list operations of the record buffer do to a chain, apart from the bytes: appending a
 chunk, putting one in another's place, taking one out, and finding the first that matches.
 */
module ListOps {
  import opened Basics
  import opened RecordFormat
  import opened Layout
  import opened Compaction
  import opened Chains
  import opened Passes

  // ---------------------------------------------------------------- What stays the same

  predicate SameSizes(a: seq<Chunk>, b: seq<Chunk>) {
    |a| == |b| && forall j :: 0 <= j < |a| ==> a[j].hdr.size == b[j].hdr.size
  }

  lemma RefSame(a: seq<Chunk>, b: seq<Chunk>, top: nat, c: Chain, k: int)
    requires SameSizes(a, b)
    ensures RefAt(a, top, c, k) == RefAt(b, top, c, k)
  {
    hide Used;
    if 0 <= k < |c| && c[k] < |a| { UsedSame(a, b, c[k] + 1); }
  }

  lemma OffSame(a: seq<Chunk>, b: seq<Chunk>, top: nat, i: nat)
    requires SameSizes(a, b) && i < |a|
    ensures Off(a, top, i) == Off(b, top, i)
  {
    hide Used;
    UsedSame(a, b, i + 1);
  }

  /** A list none of whose chunks changed is still the same list. */
  lemma ChainUntouched(r: SpanRec, a: seq<Chunk>, b: seq<Chunk>, top: nat, c: Chain, s: nat)
    requires ChainOk(r, a, top, c, s) && SameSizes(a, b)
    requires forall k :: 0 <= k < |c| && c[k] < |a| ==> a[c[k]] == b[c[k]]
    ensures ChainOk(r, b, top, c, s) && RawItems(b, c) == RawItems(a, c)
  {
    hide RefAt, Distinct;
    forall k: int
      ensures RefAt(a, top, c, k) == RefAt(b, top, c, k)
    {
      RefSame(a, b, top, c, k);
    }
  }

  lemma RefAfterAppend(stack: seq<Chunk>, x: Chunk, stack': seq<Chunk>, top: nat, c: Chain, k: int)
    requires stack' == stack + [x]
    requires 0 <= k < |c| ==> c[k] < |stack|
    ensures RefAt(stack', top, c, k) == RefAt(stack, top, c, k)
  {
    hide Off;
    if 0 <= k < |c| { OffAfterAppend(stack, top, x, stack', c[k]); }
  }

  lemma ChainAfterAppend(r: SpanRec, stack: seq<Chunk>, x: Chunk, stack': seq<Chunk>, top: nat, c: Chain, s: nat)
    requires ChainOk(r, stack, top, c, s) && stack' == stack + [x]
    ensures ChainOk(r, stack', top, c, s) && RawItems(stack', c) == RawItems(stack, c)
  {
    hide RefAt, Distinct;
    forall k: int
      ensures RefAt(stack', top, c, k) == RefAt(stack, top, c, k)
    {
      RefAfterAppend(stack, x, stack', top, c, k);
    }
  }

  /** A new chunk that is on no list yet leaves every list as it was. */
  lemma LinksAfterAppend(slots: seq<SpanRec>, stack: seq<Chunk>, x: Chunk, stack': seq<Chunk>, top: nat,
                         chains: seq<Chain>)
    requires LinksOk(slots, stack, top, chains) && NoLeak(stack, chains, |stack|) && stack' == stack + [x]
    ensures LinksOk(slots, stack', top, chains) && NoLeak(stack', chains, |stack|)
    ensures SameSpans(slots, stack, chains, slots, stack', chains)
  {
    hide ChainOk, RawItems, Reached;
    forall s | 0 <= s < |slots|
      ensures ChainOk(slots[s], stack', top, chains[s], s) && RawItems(stack', chains[s]) == RawItems(stack, chains[s])
    {
      ChainAfterAppend(slots[s], stack, x, stack', top, chains[s], s);
    }
  }

  // ---------------------------------------------------------------- One list changes

  /** Only chunks owned by slot s differ between a and b, and no sizes do. */
  ghost predicate OnlyOwned(a: seq<Chunk>, b: seq<Chunk>, s: nat) {
    && SameSizes(a, b)
    && forall j :: 0 <= j < |a| && a[j] != b[j] ==> a[j].hdr.owner == s
  }

  /** The other spans do not notice a change to slot s's record and chunks. */
  lemma OthersUntouched(slots: seq<SpanRec>, a: seq<Chunk>, b: seq<Chunk>, top: nat, chains: seq<Chain>, s: nat, t: nat)
    requires LinksOk(slots, a, top, chains) && OnlyOwned(a, b, s) && t < |slots| && t != s
    ensures ChainOk(slots[t], b, top, chains[t], t) && RawItems(b, chains[t]) == RawItems(a, chains[t])
  {
    hide RefAt, Distinct, SameSizes;
    assert ChainOk(slots[t], a, top, chains[t], t);
    ChainUntouched(slots[t], a, b, top, chains[t], t);
  }

  /** All lists are sound again once slot s's own list is, whatever its chunks became. */
  lemma LinksAfterChange(slots: seq<SpanRec>, a: seq<Chunk>, b: seq<Chunk>, top: nat, chains: seq<Chain>,
                         s: nat, r: SpanRec, c: Chain)
    requires LinksOk(slots, a, top, chains) && OnlyOwned(a, b, s) && s < |slots|
    requires ChainOk(r, b, top, c, s)
    ensures LinksOk(slots[s := r], b, top, chains[s := c])
    ensures forall t :: 0 <= t < |slots| && t != s ==> RawItems(b, chains[t]) == RawItems(a, chains[t])
  {
    hide ChainOk, RawItems, OnlyOwned;
    forall t | 0 <= t < |slots| && t != s
      ensures ChainOk(slots[t], b, top, chains[t], t) && RawItems(b, chains[t]) == RawItems(a, chains[t])
    {
      OthersUntouched(slots, a, b, top, chains, s, t);
    }
  }

  function SetNext(x: Chunk, next: u32): Chunk { x.(hdr := x.hdr.(next := next)) }
  function Kill(x: Chunk): Chunk { x.(hdr := x.hdr.(kind := CHUNK_DEAD)) }

  /** Chunk i belongs to slot s, is alive, and is on no list. */
  ghost predicate Loose(a: seq<Chunk>, c: Chain, s: nat, i: nat) {
    i < |a| && a[i].hdr.owner == s && a[i].hdr.kind != CHUNK_DEAD && i !in c
  }

  lemma SizesSame(a: seq<Chunk>, b: seq<Chunk>)
    requires SameSizes(a, b)
    ensures |a| == |b|
  {}

  // ---------------------------------------------------------------- link_chunk

  /** b is a after link_chunk has stored off, the offset of the new last chunk, in the old one. */
  ghost predicate LinkWrites(a: seq<Chunk>, b: seq<Chunk>, c: Chain, off: u32) {
    && SameSizes(a, b)
    && forall j :: 0 <= j < |a| ==> b[j] == if c != [] && j == c[|c| - 1] then SetNext(a[j], off) else a[j]
  }

  lemma LinkRef(a: seq<Chunk>, b: seq<Chunk>, top: nat, c: Chain, i: nat, k: int)
    requires SameSizes(a, b) && i < |a| && -1 <= k
    ensures RefAt(b, top, c + [i], k) == if k == |c| then Off(a, top, i) else RefAt(a, top, c, k)
  {
    hide SameSizes, Off;
    SizesSame(a, b);
    OffSame(a, b, top, i);
    RefSame(a, b, top, c, k);
  }

  lemma Link(r: SpanRec, a: seq<Chunk>, b: seq<Chunk>, top: nat, c: Chain, s: nat, i: nat, off: u32, r': SpanRec)
    requires ChainOk(r, a, top, c, s) && r.state != SLOT_FREE
    requires Loose(a, c, s, i) && a[i].hdr.next == NONE32 && off == Off(a, top, i)
    requires LinkWrites(a, b, c, off)
    requires r' == r.(head := if c == [] then off else r.head, tail := off)
    ensures OnlyOwned(a, b, s)
    ensures ChainOk(r', b, top, c + [i], s)
    ensures RawItems(b, c + [i]) == RawItems(a, c) + [RawOf(a[i])]
  {
    hide SameSizes, Off, RefAt;
    SizesSame(a, b);
    var c' := c + [i];
    forall k | 0 <= k < |c'|
      ensures c'[k] < |b| && b[c'[k]].hdr.owner == s && b[c'[k]].hdr.kind != CHUNK_DEAD
      ensures RawOf(b[c'[k]]) == RawOf(a[c'[k]])
      ensures b[c'[k]].hdr.next == RefAt(b, top, c', k + 1)
    {
      LinkRef(a, b, top, c, i, k + 1);
      if k == |c| { RefPastEnd(a, top, c, k + 1); }
    }
    LinkRef(a, b, top, c, i, 0);
    LinkRef(a, b, top, c, i, |c|);
  }

  lemma RefPastEnd(a: seq<Chunk>, top: nat, c: Chain, k: int)
    requires k < 0 || |c| <= k
    ensures RefAt(a, top, c, k) == NONE32
  {}

  // ---------------------------------------------------------------- splice_chunk

  function Replaced(c: Chain, p: nat, i: nat): (r: Chain)
    requires p < |c|
  {
    c[..p] + [i] + c[p + 1..]
  }

  /** b is a after splice_chunk has put chunk i, at offset off, where c[p] was. */
  ghost predicate SpliceWrites(a: seq<Chunk>, b: seq<Chunk>, c: Chain, p: nat, i: nat, off: u32) {
    && SameSizes(a, b) && p < |c| && c[p] < |a|
    && forall j :: 0 <= j < |a| ==>
         b[j] == if j == i then SetNext(a[j], a[c[p]].hdr.next)
                 else if j == c[p] then Kill(a[j])
                 else if p > 0 && j == c[p - 1] then SetNext(a[j], off)
                 else a[j]
  }

  lemma SpliceRef(a: seq<Chunk>, b: seq<Chunk>, top: nat, c: Chain, p: nat, i: nat, k: int)
    requires SameSizes(a, b) && i < |a| && p < |c|
    ensures RefAt(b, top, Replaced(c, p, i), k) == if k == p then Off(a, top, i) else RefAt(a, top, c, k)
  {
    hide SameSizes, Off;
    SizesSame(a, b);
    OffSame(a, b, top, i);
    RefSame(a, b, top, c, k);
  }

  lemma Splice(r: SpanRec, a: seq<Chunk>, b: seq<Chunk>, top: nat, c: Chain, s: nat, p: nat, i: nat, off: u32,
               r': SpanRec)
    requires ChainOk(r, a, top, c, s) && r.state != SLOT_FREE
    requires p < |c| && Loose(a, c, s, i) && off == Off(a, top, i)
    requires c[p] < |a| && SpliceWrites(a, b, c, p, i, off)
    requires r' == r.(head := if p == 0 then off else r.head, tail := if p == |c| - 1 then off else r.tail)
    ensures OnlyOwned(a, b, s)
    ensures ChainOk(r', b, top, Replaced(c, p, i), s)
    ensures RawItems(b, Replaced(c, p, i)) == RawItems(a, c)[p := RawOf(a[i])]
  {
    hide SameSizes, Off, RefAt;
    SizesSame(a, b);
    var c' := Replaced(c, p, i);
    forall k | 0 <= k < |c'|
      ensures c'[k] < |b| && b[c'[k]].hdr.owner == s && b[c'[k]].hdr.kind != CHUNK_DEAD
      ensures RawOf(b[c'[k]]) == RawOf(a[c'[k]])
      ensures b[c'[k]].hdr.next == RefAt(b, top, c', k + 1)
    {
      SpliceRef(a, b, top, c, p, i, k + 1);
    }
    SpliceRef(a, b, top, c, p, i, 0);
    SpliceRef(a, b, top, c, p, i, |c| - 1);
  }

  // ---------------------------------------------------------------- unlink_chunk

  function Without(c: Chain, p: nat): Chain
    requires p < |c|
  {
    c[..p] + c[p + 1..]
  }

  /** b is a after unlink_chunk has taken c[p] out. */
  ghost predicate UnlinkWrites(a: seq<Chunk>, b: seq<Chunk>, c: Chain, p: nat) {
    && SameSizes(a, b) && p < |c| && c[p] < |a|
    && forall j :: 0 <= j < |a| ==>
         b[j] == if j == c[p] then Kill(a[j])
                 else if p > 0 && j == c[p - 1] then SetNext(a[j], a[c[p]].hdr.next)
                 else a[j]
  }

  lemma UnlinkRef(a: seq<Chunk>, b: seq<Chunk>, top: nat, c: Chain, p: nat, k: int)
    requires SameSizes(a, b) && p < |c|
    ensures RefAt(b, top, Without(c, p), k) == RefAt(a, top, c, if k < p then k else k + 1)
  {
    hide SameSizes, Off;
    SizesSame(a, b);
    RefSame(a, b, top, Without(c, p), k);
  }

  lemma Unlink(r: SpanRec, a: seq<Chunk>, b: seq<Chunk>, top: nat, c: Chain, s: nat, p: nat, r': SpanRec)
    requires ChainOk(r, a, top, c, s) && r.state != SLOT_FREE
    requires p < |c| && c[p] < |a| && UnlinkWrites(a, b, c, p)
    requires r' == r.(head := if p == 0 then a[c[p]].hdr.next else r.head, tail := r'.tail)
    requires r'.tail == if p == |c| - 1 then RefAt(a, top, c, p - 1) else r.tail
    ensures OnlyOwned(a, b, s)
    ensures ChainOk(r', b, top, Without(c, p), s)
    ensures RawItems(b, Without(c, p)) == RawItems(a, c)[..p] + RawItems(a, c)[p + 1..]
  {
    hide SameSizes, Off, RefAt;
    SizesSame(a, b);
    var c' := Without(c, p);
    forall k | 0 <= k < |c'|
      ensures c'[k] < |b| && b[c'[k]].hdr.owner == s && b[c'[k]].hdr.kind != CHUNK_DEAD
      ensures RawOf(b[c'[k]]) == RawOf(a[c'[k]])
      ensures b[c'[k]].hdr.next == RefAt(b, top, c', k + 1)
    {
      UnlinkRef(a, b, top, c, p, k + 1);
    }
    UnlinkRef(a, b, top, c, p, 0);
    UnlinkRef(a, b, top, c, p, |c'| - 1);
  }

  // ---------------------------------------------------------------- What a reader sees

  /** Only slot s's list changed, to these items; every other span reads as before. */
  ghost predicate OneSpan(slots: seq<SpanRec>, stack: seq<Chunk>, chains: seq<Chain>,
                          slots': seq<SpanRec>, stack': seq<Chunk>, chains': seq<Chain>, s: nat, items: seq<Raw>) {
    && |slots| == |slots'| == |chains| == |chains'| && s < |slots|
    && (forall t :: 0 <= t < |slots| ==> SameRec(slots[t], slots'[t]))
    && (forall t :: 0 <= t < |slots| && t != s ==> RawItems(stack', chains'[t]) == RawItems(stack, chains[t]))
    && RawItems(stack', chains'[s]) == items
  }

  lemma OneSpanChanged(slots: seq<SpanRec>, a: seq<Chunk>, b: seq<Chunk>, top: nat, chains: seq<Chain>, s: nat,
                       r: SpanRec, c: Chain)
    requires LinksOk(slots, a, top, chains) && OnlyOwned(a, b, s) && s < |slots|
    requires ChainOk(r, b, top, c, s) && SameRec(slots[s], r)
    ensures LinksOk(slots[s := r], b, top, chains[s := c])
    ensures OneSpan(slots, a, chains, slots[s := r], b, chains[s := c], s, RawItems(b, c))
  {
    hide ChainOk, RawItems, OnlyOwned;
    LinksAfterChange(slots, a, b, top, chains, s, r, c);
  }

  lemma SameThenOne(slots0: seq<SpanRec>, stack0: seq<Chunk>, chains0: seq<Chain>,
                    slots1: seq<SpanRec>, stack1: seq<Chunk>, chains1: seq<Chain>,
                    slots2: seq<SpanRec>, stack2: seq<Chunk>, chains2: seq<Chain>, s: nat, items: seq<Raw>)
    requires SameSpans(slots0, stack0, chains0, slots1, stack1, chains1)
    requires OneSpan(slots1, stack1, chains1, slots2, stack2, chains2, s, items)
    ensures OneSpan(slots0, stack0, chains0, slots2, stack2, chains2, s, items)
  {
    hide RawItems;
  }

  lemma SameThenSame(slots0: seq<SpanRec>, stack0: seq<Chunk>, chains0: seq<Chain>,
                     slots1: seq<SpanRec>, stack1: seq<Chunk>, chains1: seq<Chain>,
                     slots2: seq<SpanRec>, stack2: seq<Chunk>, chains2: seq<Chain>)
    requires SameSpans(slots0, stack0, chains0, slots1, stack1, chains1)
    requires SameSpans(slots1, stack1, chains1, slots2, stack2, chains2)
    ensures SameSpans(slots0, stack0, chains0, slots2, stack2, chains2)
  {
    hide RawItems;
  }

  lemma SameSpansRefl(slots: seq<SpanRec>, stack: seq<Chunk>, chains: seq<Chain>)
    requires |slots| == |chains|
    ensures SameSpans(slots, stack, chains, slots, stack, chains)
  {
    hide RawItems;
  }

  lemma LiveBytesAtMost(slots: seq<SpanRec>, stack: seq<Chunk>)
    ensures LiveBytes(slots, stack) <= Used(stack, |stack|)
  {
    hide LiveFlags;
    LiveUsedGrows(stack, LiveFlags(slots, stack), |stack|, |stack|);
  }

  /** A chunk as alloc_chunk writes it. */
  predicate IsNew(x: Chunk, owner: nat, kind: byte, payload: nat) {
    && x.hdr.next == NONE32 && x.hdr.size == HDR_SIZE + payload && x.hdr.used == payload
    && x.hdr.owner == owner && x.hdr.kind == kind && |x.payload| == payload
  }

  /** The chunk just allocated is the only one on no list. */
  ghost predicate Fresh(stack: seq<Chunk>, chains: seq<Chain>, owner: nat) {
    && |stack| > 0 && owner < |chains|
    && NoLeak(stack, chains, |stack| - 1)
    && Loose(stack, chains[owner], owner, |stack| - 1)
  }

  lemma FreshNonempty(stack: seq<Chunk>, chains: seq<Chain>, owner: nat)
    requires Fresh(stack, chains, owner)
    ensures |stack| > 0
  {
    hide NoLeak;
  }

  lemma FreshAfterAppend(slots: seq<SpanRec>, stack: seq<Chunk>, x: Chunk, stack': seq<Chunk>, top: nat,
                         chains: seq<Chain>, owner: nat)
    requires LinksOk(slots, stack, top, chains) && NoLeak(stack, chains, |stack|) && stack' == stack + [x]
    requires owner < |chains| && x.hdr.owner == owner && x.hdr.kind != CHUNK_DEAD
    ensures LinksOk(slots, stack', top, chains) && Fresh(stack', chains, owner)
    ensures SameSpans(slots, stack, chains, slots, stack', chains)
  {
    hide LinksOk, NoLeak, SameSpans;
    LinksAfterAppend(slots, stack, x, stack', top, chains);
    IndicesInRange(slots, stack, top, chains);
  }

  lemma ReachAfterLink(stack: seq<Chunk>, b: seq<Chunk>, chains: seq<Chain>, s: nat, i: nat, off: u32)
    requires i + 1 == |stack|
    requires Fresh(stack, chains, s) && LinkWrites(stack, b, chains[s], off) && OnlyOwned(stack, b, s)
    ensures NoLeak(b, chains[s := chains[s] + [i]], |b|)
  {
    var c' := chains[s] + [i];
    assert |b| == |stack|;
    forall j | 0 <= j < |b|
      ensures Reached(b[j].hdr, chains[s := c'], j)
    {
      if j < i { assert Reached(stack[j].hdr, chains, j); }
      if j != i && b[j].hdr.owner == s && b[j].hdr.kind != CHUNK_DEAD { assert j in chains[s]; }
    }
  }

  lemma ReachAfterSplice(stack: seq<Chunk>, b: seq<Chunk>, chains: seq<Chain>, s: nat, p: nat, i: nat, off: u32)
    requires i + 1 == |stack|
    requires Fresh(stack, chains, s) && SpliceWrites(stack, b, chains[s], p, i, off)
    ensures NoLeak(b, chains[s := Replaced(chains[s], p, i)], |b|)
  {
    var c' := Replaced(chains[s], p, i);
    assert |b| == |stack|;
    assert c'[p] == i;
    forall j | 0 <= j < |b|
      ensures Reached(b[j].hdr, chains[s := c'], j)
    {
      if j < i {
        assert Reached(stack[j].hdr, chains, j);
        if b[j].hdr.kind != CHUNK_DEAD && b[j].hdr.owner == s {
          var k :| 0 <= k < |chains[s]| && chains[s][k] == j;
          assert c'[k] == j;
        }
      }
    }
  }

  /** Taking c[p] out buries it and keeps the others in reach; the newest chunk may still be loose. */
  lemma ReachAfterUnlink(stack: seq<Chunk>, b: seq<Chunk>, chains: seq<Chain>, s: nat, p: nat, n: nat)
    requires s < |chains| && NoLeak(stack, chains, n) && UnlinkWrites(stack, b, chains[s], p)
    ensures NoLeak(b, chains[s := Without(chains[s], p)], n)
  {
    var c' := Without(chains[s], p);
    assert |b| == |stack|;
    forall j | 0 <= j < n
      ensures Reached(b[j].hdr, chains[s := c'], j)
    {
      assert Reached(stack[j].hdr, chains, j);
      if b[j].hdr.kind != CHUNK_DEAD && b[j].hdr.owner == s {
        var k :| 0 <= k < |chains[s]| && chains[s][k] == j;
        assert c'[if k < p then k else k - 1] == j;
      }
    }
  }

  // ---------------------------------------------------------------- find_chunk

  /** chunk_matches */
  predicate Matches(x: Raw, kind: byte, key: Option<seq<byte>>) {
    && x.kind == kind
    && (key.Some? ==> UnpackKV(x.data).Unpacked? && UnpackKV(x.data).kv.key == key.value)
  }

  /** p is the place of the first item that matches, or the end. */
  ghost predicate FirstMatch(items: seq<Raw>, kind: byte, key: Option<seq<byte>>, p: nat) {
    && p <= |items|
    && (forall q :: 0 <= q < p ==> !Matches(items[q], kind, key))
    && (p < |items| ==> Matches(items[p], kind, key))
  }

  lemma FirstMatchUnique(items: seq<Raw>, kind: byte, key: Option<seq<byte>>, p: nat, q: nat)
    requires FirstMatch(items, kind, key, p) && FirstMatch(items, kind, key, q)
    ensures p == q
  {
    hide Matches;
  }

  /** What the head and tail references of a list tell. */
  lemma EndRefs(slots: seq<SpanRec>, stack: seq<Chunk>, top: nat, chains: seq<Chain>, s: nat)
    requires LinksOk(slots, stack, top, chains) && s < |slots|
    requires WfStack(stack) && Used(stack, |stack|) <= top <= MAX_BUFFER
    ensures |chains| == |slots|
    ensures RefAt(stack, top, chains[s], 0) == NONE32 <==> chains[s] == []
    ensures chains[s] != [] ==>
              var l := |chains[s]| - 1;
              && chains[s][l] < |stack| && WfChunk(stack[chains[s][l]])
              && 0 <= RefAt(stack, top, chains[s], l) == Off(stack, top, chains[s][l]) < NONE32
  {
    hide LinksOk, Used, WfStack, Off, RefAt, ChainOk;
    ChainAtSlot(slots, stack, top, chains, s);
    RefPastEnd(stack, top, chains[s], |chains[s]|);
    if chains[s] != [] {
      RefKnown(slots, stack, top, chains, s, 0);
      RefKnown(slots, stack, top, chains, s, |chains[s]| - 1);
    }
  }

  lemma RefKnown(slots: seq<SpanRec>, stack: seq<Chunk>, top: nat, chains: seq<Chain>, s: nat, k: nat)
    requires LinksOk(slots, stack, top, chains) && s < |slots| && k < |chains[s]|
    requires WfStack(stack) && Used(stack, |stack|) <= top <= MAX_BUFFER
    ensures chains[s][k] < |stack| && 0 <= RefAt(stack, top, chains[s], k) == Off(stack, top, chains[s][k]) < NONE32
    ensures stack[chains[s][k]].hdr.next == RefAt(stack, top, chains[s], k + 1)
    ensures stack[chains[s][k]].hdr.owner == s && stack[chains[s][k]].hdr.kind != CHUNK_DEAD
    ensures WfChunk(stack[chains[s][k]])
    ensures RawItems(stack, chains[s])[k] == RawOf(stack[chains[s][k]])
  {
    hide RefAt, Distinct, Used, Off, LinksOk;
    ChainAtSlot(slots, stack, top, chains, s);
    assert WfChunk(stack[chains[s][k]]);
    hide WfStack;
    RefInside(stack, top, chains[s], k);
    OffsetInBuffer(stack, top, chains[s][k]);
  }

  /** The chunks a splice or an unlink touches are all different, and references tell them apart. */
  lemma SpliceIndices(slots: seq<SpanRec>, stack: seq<Chunk>, top: nat, chains: seq<Chain>, s: nat, p: nat, i: nat)
    requires LinksOk(slots, stack, top, chains) && s < |slots| && p < |chains[s]|
    requires WfStack(stack) && Used(stack, |stack|) <= top <= MAX_BUFFER
    requires i < |stack| && i !in chains[s]
    ensures chains[s][p] != i
    ensures p > 0 ==> chains[s][p - 1] < |stack| && chains[s][p - 1] != i && chains[s][p - 1] != chains[s][p]
    ensures p > 0 ==> 0 <= RefAt(stack, top, chains[s], p - 1) == Off(stack, top, chains[s][p - 1]) < NONE32
    ensures p == 0 ==> RefAt(stack, top, chains[s], p - 1) == NONE32
    ensures RefAt(stack, top, chains[s], |chains[s]| - 1) == RefAt(stack, top, chains[s], p) <==> p == |chains[s]| - 1
  {
    hide LinksOk, Used, WfStack, RefAt, Off;
    ChainAtSlot(slots, stack, top, chains, s);
    UnlinkIndices(slots, stack, top, chains, s, p);
  }

  lemma UnlinkIndices(slots: seq<SpanRec>, stack: seq<Chunk>, top: nat, chains: seq<Chain>, s: nat, p: nat)
    requires LinksOk(slots, stack, top, chains) && s < |slots| && p < |chains[s]|
    requires WfStack(stack) && Used(stack, |stack|) <= top <= MAX_BUFFER
    ensures p > 0 ==> chains[s][p - 1] < |stack| && chains[s][p - 1] != chains[s][p]
    ensures p > 0 ==> 0 <= RefAt(stack, top, chains[s], p - 1) == Off(stack, top, chains[s][p - 1]) < NONE32
    ensures p == 0 ==> RefAt(stack, top, chains[s], p - 1) == NONE32
    ensures RefAt(stack, top, chains[s], |chains[s]| - 1) == RefAt(stack, top, chains[s], p) <==> p == |chains[s]| - 1
  {
    hide LinksOk, Used, WfStack, RefAt, Off;
    ChainAtSlot(slots, stack, top, chains, s);
    RefKnown(slots, stack, top, chains, s, p);
    RefKnown(slots, stack, top, chains, s, |chains[s]| - 1);
    if p > 0 { RefKnown(slots, stack, top, chains, s, p - 1); } else { RefPastEnd(stack, top, chains[s], p - 1); }
    if p < |chains[s]| - 1 { OffsetsDiffer(stack, top, chains[s][p], chains[s][|chains[s]| - 1]); }
  }

  lemma OffsetsDiffer(stack: seq<Chunk>, top: nat, i: nat, j: nat)
    requires i < |stack| && j < |stack| && i != j && WfStack(stack)
    ensures Off(stack, top, i) != Off(stack, top, j)
  {
    hide WfStack, Used;
    if i < j { UsedGrows(stack, i + 1, j + 1); } else { UsedGrows(stack, j + 1, i + 1); }
  }

  // ---------------------------------------------------------------- Overwriting in place

  function WithData(x: Chunk, data: seq<byte>): Chunk
    requires |data| <= |x.payload| < 0x1_0000_0000
  {
    Chunk(x.hdr.(used := |data|), data + x.payload[|data|..])
  }

  lemma Overwrite(r: SpanRec, a: seq<Chunk>, b: seq<Chunk>, top: nat, c: Chain, s: nat, p: nat, data: seq<byte>)
    requires ChainOk(r, a, top, c, s) && p < |c| && c[p] < |a|
    requires |data| <= |a[c[p]].payload| < 0x1_0000_0000 && b == a[c[p] := WithData(a[c[p]], data)]
    ensures OnlyOwned(a, b, s)
    ensures ChainOk(r, b, top, c, s)
    ensures RawItems(b, c) == RawItems(a, c)[p := Raw(a[c[p]].hdr.kind, data)]
  {
    hide Off, RefAt;
    assert SameSizes(a, b);
    forall k: int
      ensures RefAt(b, top, c, k) == RefAt(a, top, c, k)
    {
      RefSame(a, b, top, c, k);
    }
  }

  lemma ReachAfterOverwrite(a: seq<Chunk>, b: seq<Chunk>, chains: seq<Chain>, i: nat, data: seq<byte>)
    requires NoLeak(a, chains, |a|) && i < |a|
    requires |data| <= |a[i].payload| < 0x1_0000_0000 && b == a[i := WithData(a[i], data)]
    ensures NoLeak(b, chains, |b|)
  {
    forall j | 0 <= j < |b|
      ensures Reached(b[j].hdr, chains, j)
    {
      assert Reached(a[j].hdr, chains, j);
    }
  }

  /** Filling the chunk just allocated touches no list. */
  lemma FillFresh(slots: seq<SpanRec>, a: seq<Chunk>, b: seq<Chunk>, top: nat, chains: seq<Chain>, owner: nat)
    requires LinksOk(slots, a, top, chains) && Fresh(a, chains, owner)
    requires |a| == |b| && SameSizes(a, b) && a[..|a| - 1] == b[..|a| - 1] && a[|a| - 1].hdr == b[|a| - 1].hdr
    ensures LinksOk(slots, b, top, chains) && Fresh(b, chains, owner)
    ensures SameSpans(slots, a, chains, slots, b, chains)
  {
    hide Distinct, RefAt, RawItems;
    assert forall j :: 0 <= j < |a| - 1 ==> a[j] == a[..|a| - 1][j] && b[j] == b[..|a| - 1][j];
    forall s | 0 <= s < |slots|
      ensures ChainOk(slots[s], b, top, chains[s], s) && RawItems(b, chains[s]) == RawItems(a, chains[s])
    {
      FreshOnNoList(slots, a, top, chains, owner, s);
      ChainUntouched(slots[s], a, b, top, chains[s], s);
    }
    forall j | 0 <= j < |b| - 1
      ensures Reached(b[j].hdr, chains, j)
    {
      assert Reached(a[j].hdr, chains, j);
    }
  }

  lemma FreshOnNoList(slots: seq<SpanRec>, a: seq<Chunk>, top: nat, chains: seq<Chain>, owner: nat, s: nat)
    requires LinksOk(slots, a, top, chains) && Fresh(a, chains, owner) && s < |slots|
    ensures forall k :: 0 <= k < |chains[s]| ==> chains[s][k] < |a| - 1
  {
    hide RefAt, Distinct, NoLeak;
    assert ChainOk(slots[s], a, top, chains[s], s);
  }

  /** The chunk behind the first match is of the kind that was looked for. */
  lemma ItemKind(slots: seq<SpanRec>, stack: seq<Chunk>, top: nat, chains: seq<Chain>, s: nat,
                 kind: byte, key: Option<seq<byte>>, p: nat)
    requires LinksOk(slots, stack, top, chains) && s < |slots| && p < |chains[s]|
    requires FirstMatch(RawItems(stack, chains[s]), kind, key, p)
    ensures chains[s][p] < |stack| && stack[chains[s][p]].hdr.kind == kind
  {
    hide UnpackKV, RefAt, Distinct;
    assert ChainOk(slots[s], stack, top, chains[s], s);
  }

  function Dropped(items: seq<Raw>, p: nat): seq<Raw> {
    if p < |items| then items[..p] + items[p + 1..] else items
  }

  /** The chunk just allocated is still loose after another one of its owner's has been unlinked. */
  lemma FreshAfterUnlink(a: seq<Chunk>, b: seq<Chunk>, top: nat, chains: seq<Chain>, chains': seq<Chain>, s: nat,
                         p: nat, i: nat)
    requires Fresh(a, chains, s) && i + 1 == |a| && p < |chains[s]|
    requires UnlinkWrites(a, b, chains[s], p) && chains' == chains[s := Without(chains[s], p)]
    requires NoLeak(b, chains', i)
    ensures |b| == |a| && Fresh(b, chains', s) && b[i] == a[i] && Off(b, top, i) == Off(a, top, i)
  {
    hide NoLeak, Off;
    assert SameSizes(a, b);
    OffSame(a, b, top, i);
  }

  lemma OneThenOne(slots0: seq<SpanRec>, stack0: seq<Chunk>, chains0: seq<Chain>,
                   slots1: seq<SpanRec>, stack1: seq<Chunk>, chains1: seq<Chain>,
                   slots2: seq<SpanRec>, stack2: seq<Chunk>, chains2: seq<Chain>, s: nat, items1: seq<Raw>,
                   items: seq<Raw>)
    requires OneSpan(slots0, stack0, chains0, slots1, stack1, chains1, s, items1)
    requires OneSpan(slots1, stack1, chains1, slots2, stack2, chains2, s, items)
    ensures OneSpan(slots0, stack0, chains0, slots2, stack2, chains2, s, items)
  {
    hide RawItems;
  }

  lemma OneSpanAt(slots0: seq<SpanRec>, stack0: seq<Chunk>, chains0: seq<Chain>,
                  slots: seq<SpanRec>, stack: seq<Chunk>, chains: seq<Chain>, s: nat, items: seq<Raw>)
    requires OneSpan(slots0, stack0, chains0, slots, stack, chains, s, items)
    ensures s < |slots| == |chains| && SameRec(slots0[s], slots[s]) && RawItems(stack, chains[s]) == items
  {
    hide RawItems;
  }

  lemma UnlinkLength(a: seq<Chunk>, b: seq<Chunk>, c: Chain, p: nat)
    requires UnlinkWrites(a, b, c, p)
    ensures |a| == |b|
  {}

  lemma SameIsOne(slots0: seq<SpanRec>, stack0: seq<Chunk>, chains0: seq<Chain>,
                  slots: seq<SpanRec>, stack: seq<Chunk>, chains: seq<Chain>, s: nat)
    requires SameSpans(slots0, stack0, chains0, slots, stack, chains) && s < |slots|
    ensures OneSpan(slots0, stack0, chains0, slots, stack, chains, s, RawItems(stack0, chains0[s]))
  {
    hide RawItems;
  }

  // ---------------------------------------------------------------- The view

  /** One span as a reader sees it: its record apart from where its list is stored, and its items. */
  datatype SpanView = SpanView(rec: SpanRec, items: seq<Raw>)

  function Bare(r: SpanRec): SpanRec { r.(head := NONE32, tail := NONE32) }

  /** The spans in use, by slot: what the buffer means, whatever lies where. */
  ghost function Spans(slots: seq<SpanRec>, stack: seq<Chunk>, chains: seq<Chain>): map<nat, SpanView> {
    map s: nat | 0 <= s < |slots| && s < |chains| && slots[s].state != SLOT_FREE ::
      SpanView(Bare(slots[s]), RawItems(stack, chains[s]))
  }

  lemma SpansSame(slots: seq<SpanRec>, stack: seq<Chunk>, chains: seq<Chain>,
                  slots': seq<SpanRec>, stack': seq<Chunk>, chains': seq<Chain>)
    requires SameSpans(slots, stack, chains, slots', stack', chains')
    ensures Spans(slots, stack, chains) == Spans(slots', stack', chains')
  {
    hide RawItems;
  }

  lemma FreeStays(slots: seq<SpanRec>, stack: seq<Chunk>, chains: seq<Chain>,
                  slots': seq<SpanRec>, stack': seq<Chunk>, chains': seq<Chain>, s: nat)
    requires SameSpans(slots, stack, chains, slots', stack', chains') && s < |slots| && slots[s].state == SLOT_FREE
    ensures slots'[s].state == SLOT_FREE
  {
    hide RawItems;
    assert SameRec(slots[s], slots'[s]);
  }

  lemma SpansOne(slots: seq<SpanRec>, stack: seq<Chunk>, chains: seq<Chain>,
                 slots': seq<SpanRec>, stack': seq<Chunk>, chains': seq<Chain>, s: nat, items: seq<Raw>)
    requires OneSpan(slots, stack, chains, slots', stack', chains', s, items) && slots[s].state != SLOT_FREE
    ensures Spans(slots', stack', chains') == Spans(slots, stack, chains)[s := SpanView(Bare(slots[s]), items)]
  {
    hide RawItems;
  }

  lemma SpansRec(slots: seq<SpanRec>, stack: seq<Chunk>, chains: seq<Chain>, s: nat, r: SpanRec)
    requires |slots| == |chains| && s < |slots|
    ensures Spans(slots[s := r], stack, chains)
         == if r.state == SLOT_FREE then Spans(slots, stack, chains) - {s}
            else Spans(slots, stack, chains)[s := SpanView(Bare(r), RawItems(stack, chains[s]))]
  {
    hide RawItems;
  }

  lemma SpansGrow(slots: seq<SpanRec>, stack: seq<Chunk>, chains: seq<Chain>, r: SpanRec)
    requires |slots| == |chains| && r.state == SLOT_FREE
    ensures Spans(slots + [r], stack, chains + [[]]) == Spans(slots, stack, chains)
  {
    hide RawItems;
  }

  lemma SpansTrim(slots: seq<SpanRec>, stack: seq<Chunk>, chains: seq<Chain>)
    requires |slots| == |chains| > 0 && slots[|slots| - 1].state == SLOT_FREE
    ensures Spans(slots[..|slots| - 1], stack, chains[..|slots| - 1]) == Spans(slots, stack, chains)
  {
    hide RawItems;
  }

  // ---------------------------------------------------------------- Slots come and go

  lemma LinksAfterRec(slots: seq<SpanRec>, stack: seq<Chunk>, top: nat, chains: seq<Chain>, s: nat, r: SpanRec)
    requires LinksOk(slots, stack, top, chains) && s < |slots|
    requires r.state != SLOT_FREE && slots[s].state != SLOT_FREE && r.head == slots[s].head && r.tail == slots[s].tail
    ensures LinksOk(slots[s := r], stack, top, chains)
  {
    hide Linked, Distinct, RefAt;
  }

  lemma LinksAfterOpen(slots: seq<SpanRec>, stack: seq<Chunk>, top: nat, chains: seq<Chain>, s: nat, r: SpanRec)
    requires LinksOk(slots, stack, top, chains) && s < |slots|
    requires slots[s].state == SLOT_FREE && r.head == NONE32 && r.tail == NONE32
    ensures LinksOk(slots[s := r], stack, top, chains)
  {
    hide Linked, Distinct;
  }

  lemma LinksAfterGrow(slots: seq<SpanRec>, stack: seq<Chunk>, top: nat, chains: seq<Chain>, r: SpanRec)
    requires LinksOk(slots, stack, top, chains) && NoLeak(stack, chains, |stack|) && r.state == SLOT_FREE
    ensures LinksOk(slots + [r], stack, top, chains + [[]]) && NoLeak(stack, chains + [[]], |stack|)
  {
    hide RefAt;
    forall i | 0 <= i < |stack|
      ensures Reached(stack[i].hdr, chains + [[]], i)
    {
      assert Reached(stack[i].hdr, chains, i);
    }
  }

  lemma LinksAfterTrim(slots: seq<SpanRec>, stack: seq<Chunk>, top: nat, chains: seq<Chain>)
    requires LinksOk(slots, stack, top, chains) && LiveReached(slots, stack, chains)
    requires |slots| > 0 && slots[|slots| - 1].state == SLOT_FREE
    ensures |chains| == |slots|
    ensures LinksOk(slots[..|slots| - 1], stack, top, chains[..|slots| - 1])
    ensures LiveReached(slots[..|slots| - 1], stack, chains[..|slots| - 1])
    ensures NoLeak(stack, chains, |stack|) ==> NoLeak(stack, chains[..|slots| - 1], |stack|)
  {
    hide RefAt;
    assert ChainOk(slots[|slots| - 1], stack, top, chains[|slots| - 1], |slots| - 1);
    if NoLeak(stack, chains, |stack|) {
      forall i | 0 <= i < |stack|
        ensures Reached(stack[i].hdr, chains[..|slots| - 1], i)
      {
        assert Reached(stack[i].hdr, chains, i);
      }
    }
    forall i | 0 <= i < |stack| && LiveHdr(slots[..|slots| - 1], stack[i].hdr)
      ensures Reached(stack[i].hdr, chains[..|slots| - 1], i)
    {
      assert Reached(stack[i].hdr, chains, i);
    }
  }

  /** Freeing a slot empties its list; its chunks are garbage from then on. */
  lemma LinksAfterFree(slots: seq<SpanRec>, stack: seq<Chunk>, top: nat, chains: seq<Chain>, s: nat, r: SpanRec)
    requires LinksOk(slots, stack, top, chains) && LiveReached(slots, stack, chains)
    requires s < |slots| && r.state == SLOT_FREE
    ensures LinksOk(slots[s := r], stack, top, chains[s := []])
    ensures LiveReached(slots[s := r], stack, chains[s := []])
  {
    hide RefAt;
    forall i | 0 <= i < |stack| && LiveHdr(slots[s := r], stack[i].hdr)
      ensures Reached(stack[i].hdr, chains[s := []], i)
    {
      assert Reached(stack[i].hdr, chains, i);
    }
  }

  lemma SpansFree(slots: seq<SpanRec>, stack: seq<Chunk>, chains: seq<Chain>, s: nat, r: SpanRec)
    requires |slots| == |chains| && s < |slots| && r.state == SLOT_FREE
    ensures Spans(slots[s := r], stack, chains[s := []]) == Spans(slots, stack, chains) - {s}
  {
    hide RawItems;
  }
}
