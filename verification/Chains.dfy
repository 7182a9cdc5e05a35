/**
 Each span threads its chunks on a singly linked list through the buffer, in the
 order they will be emitted. A chain is such a list as indices into the chunk stack.
 */
module Chains {
  import opened Basics
  import opened RecordFormat
  import opened Layout
  import opened Compaction

  type Chain = seq<nat>

  /** The stored reference to the k-th chunk of a chain: its offset, or NONE32 past the end. */
  function RefAt(stack: seq<Chunk>, top: nat, c: Chain, k: int): int {
    if 0 <= k < |c| && c[k] < |stack| then Off(stack, top, c[k]) else NONE32
  }

  ghost predicate Linked(stack: seq<Chunk>, top: nat, c: Chain, s: nat) {
    forall k :: 0 <= k < |c| ==>
      && c[k] < |stack|
      && stack[c[k]].hdr.owner == s
      && stack[c[k]].hdr.kind != CHUNK_DEAD
      && stack[c[k]].hdr.next == RefAt(stack, top, c, k + 1)
  }

  ghost predicate Distinct(c: Chain) {
    forall j, k :: 0 <= j < k < |c| ==> c[j] != c[k]
  }

  /** Slot s's record and the chunks it reaches agree with the chain c. */
  ghost predicate ChainOk(r: SpanRec, stack: seq<Chunk>, top: nat, c: Chain, s: nat) {
    && (r.state == SLOT_FREE ==> c == [])
    && Linked(stack, top, c, s)
    && Distinct(c)
    && (r.state != SLOT_FREE ==> r.head == RefAt(stack, top, c, 0) && r.tail == RefAt(stack, top, c, |c| - 1))
  }

  ghost predicate LinksOk(slots: seq<SpanRec>, stack: seq<Chunk>, top: nat, chains: seq<Chain>) {
    && |chains| == |slots|
    && forall s :: 0 <= s < |slots| ==> ChainOk(slots[s], stack, top, chains[s], s)
  }

  /** Among the first n chunks, none that is not marked dead is out of its owner's reach. */
  ghost predicate NoLeak(stack: seq<Chunk>, chains: seq<Chain>, n: nat) {
    n <= |stack| && forall i :: 0 <= i < n ==> Reached(stack[i].hdr, chains, i)
  }

  ghost predicate Reached(h: ChunkHdr, chains: seq<Chain>, i: nat) {
    h.kind != CHUNK_DEAD ==> h.owner < |chains| && i in chains[h.owner]
  }

  /** What a compaction needs: every chunk that is live is on its owner's list. */
  ghost predicate LiveReached(slots: seq<SpanRec>, stack: seq<Chunk>, chains: seq<Chain>) {
    forall i :: 0 <= i < |stack| && LiveHdr(slots, stack[i].hdr) ==> Reached(stack[i].hdr, chains, i)
  }

  lemma NoLeakIsEnough(slots: seq<SpanRec>, stack: seq<Chunk>, chains: seq<Chain>)
    requires NoLeak(stack, chains, |stack|)
    ensures LiveReached(slots, stack, chains)
  {
    hide LiveHdr, Reached;
  }

  /** The kind and content of one chunk, as a reader of the list sees it. */
  datatype Raw = Raw(kind: byte, data: seq<byte>)

  function RawOf(c: Chunk): Raw {
    Raw(c.hdr.kind, if c.hdr.used <= |c.payload| then c.payload[..c.hdr.used] else [])
  }

  /** A span's chunk kinds and payloads, in emit order. */
  function RawItems(stack: seq<Chunk>, c: Chain): (r: seq<Raw>)
    ensures |r| == |c|
  {
    seq(|c|, k requires 0 <= k < |c| => if c[k] < |stack| then RawOf(stack[c[k]]) else Raw(CHUNK_DEAD, []))
  }

  // ---------------------------------------------------------------- Compaction keeps every list

  function Renumber(c: Chain, flags: seq<bool>): (r: Chain)
    requires forall k :: 0 <= k < |c| ==> c[k] < |flags|
    ensures |r| == |c|
  {
    seq(|c|, k requires 0 <= k < |c| => Rank(flags, c[k]))
  }

  /** The forwarded reference to the k-th chunk of a chain. */
  function NewRefAt(stack: seq<Chunk>, flags: seq<bool>, top: nat, c: Chain, k: int): int
    requires |stack| == |flags|
  {
    if 0 <= k < |c| && c[k] < |stack| then NewOff(stack, flags, top, c[k]) else NONE32
  }

  /** Every chunk on the chain of a slot in use is live. */
  lemma ChainIsLive(slots: seq<SpanRec>, stack: seq<Chunk>, top: nat, c: Chain, s: nat, k: nat)
    requires s < |slots| && ChainOk(slots[s], stack, top, c, s) && k < |c|
    ensures c[k] < |stack| && LiveFlags(slots, stack)[c[k]]
  {
    hide RefAt, Distinct;
  }

  lemma ChainsAreLive(slots: seq<SpanRec>, stack: seq<Chunk>, top: nat, c: Chain, s: nat)
    requires s < |slots| && ChainOk(slots[s], stack, top, c, s)
    ensures forall k :: 0 <= k < |c| ==> c[k] < |stack| && LiveFlags(slots, stack)[c[k]]
  {
    hide ChainOk, LiveFlags;
    forall k | 0 <= k < |c|
      ensures c[k] < |stack| && LiveFlags(slots, stack)[c[k]]
    {
      ChainIsLive(slots, stack, top, c, s, k);
    }
  }

  /** What passes 1 and 2 may change in a chunk: the three reference fields. */
  predicate SameButRefs(a: Chunk, b: Chunk) {
    b == a.(hdr := a.hdr.(next := b.hdr.next, fwd := b.hdr.fwd, below := b.hdr.below))
  }

  /** The forwarded references of a chain are its references in the packed stack. */
  lemma ForwardedRef(stack: seq<Chunk>, fixed: seq<Chunk>, flags: seq<bool>, top: nat, c: Chain, k: int)
    requires |stack| == |fixed| == |flags|
    requires forall i :: 0 <= i < |stack| ==> SameButRefs(stack[i], fixed[i])
    requires forall j :: 0 <= j < |c| ==> c[j] < |stack| && flags[c[j]]
    ensures RefAt(Survivors(fixed, flags, |fixed|), top, Renumber(c, flags), k) == NewRefAt(stack, flags, top, c, k)
  {
    hide Survivors, Rank, NewOff, Off;
    if 0 <= k < |c| {
      NewOffIsPacked(fixed, flags, top, c[k]);
      SameNewOff(stack, fixed, flags, top, c[k]);
    }
  }

  lemma SameNewOff(stack: seq<Chunk>, fixed: seq<Chunk>, flags: seq<bool>, top: nat, i: nat)
    requires i < |stack| == |fixed| == |flags|
    requires forall i :: 0 <= i < |stack| ==> SameButRefs(stack[i], fixed[i])
    ensures NewOff(stack, flags, top, i) == NewOff(fixed, flags, top, i)
  {
    LiveUsedSame(stack, fixed, flags, i + 1);
  }

  /** A record whose references have been forwarded. */
  predicate ForwardedRec(r: SpanRec, r': SpanRec, stack: seq<Chunk>, flags: seq<bool>, top: nat, c: Chain)
    requires |stack| == |flags|
  {
    if r.state == SLOT_FREE then r' == r else
    && r' == r.(head := r'.head, tail := r'.tail)
    && r'.head == NewRefAt(stack, flags, top, c, 0)
    && r'.tail == NewRefAt(stack, flags, top, c, |c| - 1)
  }

  /** Passes 1 and 2 have forwarded every reference of chain c. */
  ghost predicate ForwardedChain(stack: seq<Chunk>, fixed: seq<Chunk>, flags: seq<bool>, top: nat, c: Chain)
    requires |stack| == |fixed| == |flags|
  {
    forall k :: 0 <= k < |c| && c[k] < |stack| ==> fixed[c[k]].hdr.next == NewRefAt(stack, flags, top, c, k + 1)
  }

  lemma RenumberKeepsDistinct(c: Chain, flags: seq<bool>)
    requires Distinct(c) && forall k :: 0 <= k < |c| ==> c[k] < |flags| && flags[c[k]]
    ensures Distinct(Renumber(c, flags))
  {
    forall j, k | 0 <= j < k < |c|
      ensures Rank(flags, c[j]) != Rank(flags, c[k])
    {
      if c[j] < c[k] { RankGrows(flags, c[j], c[k]); } else { RankGrows(flags, c[k], c[j]); }
    }
  }

  lemma CompactedChunk(stack: seq<Chunk>, fixed: seq<Chunk>, flags: seq<bool>, top: nat, c: Chain, k: nat)
    requires |stack| == |fixed| == |flags| && k < |c|
    requires forall j :: 0 <= j < |c| ==> c[j] < |flags| && flags[c[j]]
    requires forall i :: 0 <= i < |stack| ==> SameButRefs(stack[i], fixed[i])
    requires ForwardedChain(stack, fixed, flags, top, c)
    ensures var packed, c' := Survivors(fixed, flags, |fixed|), Renumber(c, flags);
            && c'[k] < |packed|
            && SameButRefs(stack[c[k]], packed[c'[k]])
            && packed[c'[k]].hdr.next == RefAt(packed, top, c', k + 1)
  {
    hide Survivors, Rank, NewRefAt, RefAt;
    SurvivorAt(fixed, flags, c[k]);
    ForwardedRef(stack, fixed, flags, top, c, k + 1);
  }

  lemma CompactedLinks(stack: seq<Chunk>, fixed: seq<Chunk>, flags: seq<bool>, top: nat, c: Chain, s: nat)
    requires |stack| == |fixed| == |flags| && Linked(stack, top, c, s)
    requires forall j :: 0 <= j < |c| ==> c[j] < |flags| && flags[c[j]]
    requires forall i :: 0 <= i < |stack| ==> SameButRefs(stack[i], fixed[i])
    requires ForwardedChain(stack, fixed, flags, top, c)
    ensures Linked(Survivors(fixed, flags, |fixed|), top, Renumber(c, flags), s)
    ensures RawItems(Survivors(fixed, flags, |fixed|), Renumber(c, flags)) == RawItems(stack, c)
  {
    hide Survivors, Rank, NewRefAt, RefAt, ForwardedChain;
    var packed, c' := Survivors(fixed, flags, |fixed|), Renumber(c, flags);
    forall k | 0 <= k < |c'|
      ensures c'[k] < |packed| && SameButRefs(stack[c[k]], packed[c'[k]])
      ensures packed[c'[k]].hdr.next == RefAt(packed, top, c', k + 1)
    {
      CompactedChunk(stack, fixed, flags, top, c, k);
    }
  }

  lemma CompactedChain(slots: seq<SpanRec>, stack: seq<Chunk>, fixed: seq<Chunk>, flags: seq<bool>, top: nat,
                       c: Chain, s: nat, r': SpanRec)
    requires s < |slots| && |stack| == |fixed| == |flags| && flags == LiveFlags(slots, stack)
    requires ChainOk(slots[s], stack, top, c, s)
    requires forall i :: 0 <= i < |stack| ==> SameButRefs(stack[i], fixed[i])
    requires ForwardedRec(slots[s], r', stack, flags, top, c)
    requires ForwardedChain(stack, fixed, flags, top, c)
    ensures forall k :: 0 <= k < |c| ==> c[k] < |flags|
    ensures ChainOk(r', Survivors(fixed, flags, |fixed|), top, Renumber(c, flags), s)
    ensures RawItems(Survivors(fixed, flags, |fixed|), Renumber(c, flags)) == RawItems(stack, c)
  {
    hide Survivors, Rank, NewRefAt, RefAt, LiveFlags, Linked, Distinct, ForwardedChain, RawItems;
    ChainsAreLive(slots, stack, top, c, s);
    RenumberKeepsDistinct(c, flags);
    CompactedLinks(stack, fixed, flags, top, c, s);
    ForwardedRef(stack, fixed, flags, top, c, 0);
    ForwardedRef(stack, fixed, flags, top, c, |c| - 1);
  }

  ghost function RenumberAll(chains: seq<Chain>, flags: seq<bool>): (r: seq<Chain>)
    requires forall s, k :: 0 <= s < |chains| && 0 <= k < |chains[s]| ==> chains[s][k] < |flags|
    ensures |r| == |chains|
    ensures forall s :: 0 <= s < |chains| ==> r[s] == Renumber(chains[s], flags)
  {
    seq(|chains|, s requires 0 <= s < |chains| => Renumber(chains[s], flags))
  }

  lemma IndicesInRange(slots: seq<SpanRec>, stack: seq<Chunk>, top: nat, chains: seq<Chain>)
    requires LinksOk(slots, stack, top, chains)
    ensures forall s, k :: 0 <= s < |chains| && 0 <= k < |chains[s]| ==> chains[s][k] < |stack|
  {
    hide RefAt, Distinct;
    forall s, k | 0 <= s < |chains| && 0 <= k < |chains[s]|
      ensures chains[s][k] < |stack|
    {
      assert ChainOk(slots[s], stack, top, chains[s], s);
    }
  }

  lemma SurvivorIsReached(slots: seq<SpanRec>, stack: seq<Chunk>, fixed: seq<Chunk>, flags: seq<bool>,
                          chains: seq<Chain>, chains': seq<Chain>, r: nat)
    requires |stack| == |fixed| == |flags| && flags == LiveFlags(slots, stack)
    requires LiveReached(slots, stack, chains)
    requires forall i :: 0 <= i < |stack| ==> SameButRefs(stack[i], fixed[i])
    requires forall s, k :: 0 <= s < |chains| && 0 <= k < |chains[s]| ==> chains[s][k] < |flags|
    requires chains' == RenumberAll(chains, flags)
    requires r < Rank(flags, |flags|)
    ensures Reached(Survivors(fixed, flags, |fixed|)[r].hdr, chains', r)
  {
    hide Survivors, Rank, RenumberAll, LiveFlags;
    var i := SurvivorFrom(fixed, flags, r, |fixed|);
    SurvivorAt(fixed, flags, i);
    var h := stack[i].hdr;
    assert SameButRefs(stack[i], fixed[i]);
    assert Reached(h, chains, i);
    assert flags[i] == LiveHdr(slots, h);
    var k :| 0 <= k < |chains[h.owner]| && chains[h.owner][k] == i;
    assert chains'[h.owner][k] == r;
  }

  /** Bytes of the chunks a compaction would keep. */
  ghost function LiveBytes(slots: seq<SpanRec>, stack: seq<Chunk>): nat {
    LiveUsed(stack, LiveFlags(slots, stack), |stack|)
  }
}
