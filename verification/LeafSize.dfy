/**
 The life of a leaf around its spans: the Resource written once at init and read back by the
 cursors, and the size bound computed from the buffer, which holds without any condition because
 the buffer itself limits how much there is to encode.
 */
module LeafSize {
  import opened Basics
  import opened RecordFormat
  import opened Layout
  import opened Passes
  import opened Chains
  import opened ListOps
  import opened RecordBuffer
  import opened LeafSpec
  import opened LeafItems
  import Protobuf
  import L = Leaf

  type Config = Protobuf.Config

  // ---------------------------------------------------------------- Init

  /** "microtel.leaf." */
  const RESERVED_PREFIX: string := "microtel.leaf."

  predicate HasReservedPrefix(kv: KV) { Protobuf.Ascii(RESERVED_PREFIX) <= kv.key }

  predicate ConfigValid(c: Config) {
    && (c.hasClock || c.mode == Protobuf.ConcentratorStamped)
    && (forall i :: 0 <= i < |c.resource| ==> KVValid(c.resource[i]) && !HasReservedPrefix(c.resource[i]))
  }

  /** The bytes of the Resource and scope. */
  function Packed(c: Config): (b: seq<byte>)
    ensures |b| == PersistentSize(c)
  {
    PackKVs(c.resource) + c.scopeName + c.scopeVersion
  }

  function PersistentSize(c: Config): nat { KVsSize(c.resource) + |c.scopeName| + |c.scopeVersion| }

  function Usable(size: nat): nat { if size > MAX_BUFFER then MAX_BUFFER else size }

  function CapOr(value: u16, fallback: u16): u16 { if value != 0 then value else fallback }

  function Caps(l: Limits): Limits { Limits(CapOr(l.maxAttrs, 16), CapOr(l.maxEvents, 4), CapOr(l.maxEventAttrs, 4)) }

  /** The Resource area of a buffer holds this configuration. */
  ghost predicate ResourceIs(store: Buffer, c: Config) {
    Packed(c) <= store.resource && store.persistOff + PersistentSize(c) <= MAX_BUFFER
  }

  lemma {:induction false} PackSum(a: seq<KV>, b: seq<KV>)
    ensures PackKVs(a + b) == PackKVs(a) + PackKVs(b) && KVsSize(a + b) == KVsSize(a) + KVsSize(b)
  {
    hide PackKV;
    if a == [] {
      assert a + b == b;
    } else {
      assert (a + b)[1..] == a[1..] + b;
      PackSum(a[1..], b);
      assert PackKV(a[0]) + (PackKVs(a[1..]) + PackKVs(b)) == PackKV(a[0]) + PackKVs(a[1..]) + PackKVs(b);
    }
  }

  lemma PackNone()
    ensures PackKVs([]) == [] && KVsSize([]) == 0
  {}

  lemma PackOne(kv: KV)
    ensures PackKVs([kv]) == PackKV(kv) && KVsSize([kv]) == KVSize(kv)
  {
    hide PackKV, KVSize;
    assert PackKVs([kv]) == PackKV(kv) + PackKVs([kv][1..]) == PackKV(kv) + [];
  }

  lemma PackSnoc(kvs: seq<KV>, i: nat)
    requires i < |kvs|
    ensures PackKVs(kvs[..i + 1]) == PackKVs(kvs[..i]) + PackKV(kvs[i])
    ensures KVsSize(kvs[..i + 1]) == KVsSize(kvs[..i]) + KVSize(kvs[i]) <= KVsSize(kvs)
  {
    hide PackKV, PackKVs, KVsSize, KVSize;
    assert kvs[..i + 1] == kvs[..i] + [kvs[i]];
    PackSum(kvs[..i], [kvs[i]]);
    PackOne(kvs[i]);
    assert kvs == kvs[..i + 1] + kvs[i + 1..];
    PackSum(kvs[..i + 1], kvs[i + 1..]);
  }

  lemma WroteAfter(m: seq<byte>, off: nat, data: seq<byte>, start: nat, before: seq<byte>)
    requires start <= off && off + |data| <= |m| && m[start..off] == before
    ensures Write(m, off, data)[start..off + |data|] == before + data
    ensures Write(m, off, data)[..start] == m[..start]
  {}

  /** write_persistent: the Resource and scope at the top of the buffer, once and for all. */
  method WritePersistent(buf: array<byte>, c: Config, usable: nat) returns (persistOff: nat)
    requires usable <= buf.Length && PersistentSize(c) <= usable
    modifies buf
    ensures persistOff == usable - PersistentSize(c)
    ensures buf[persistOff..usable] == Packed(c)
    ensures buf[..persistOff] == old(buf[..persistOff])
  {
    hide PackKV, Write, PackKVs, KVsSize, KVSize;
    persistOff := usable - PersistentSize(c);
    var off := persistOff;
    assert c.resource[..0] == [];
    PackNone();
    for i := 0 to |c.resource|
      invariant off == persistOff + KVsSize(c.resource[..i])
      invariant KVsSize(c.resource[..i]) <= KVsSize(c.resource)
      invariant buf[..][persistOff..off] == PackKVs(c.resource[..i])
      invariant buf[..][..persistOff] == old(buf[..])[..persistOff]
    {
      PackSnoc(c.resource, i);
      ghost var m := buf[..];
      WroteAfter(m, off, PackKV(c.resource[i]), persistOff, PackKVs(c.resource[..i]));
      CopyBytes(buf, off, PackKV(c.resource[i]));
      off := off + KVSize(c.resource[i]);
    }
    assert c.resource[..|c.resource|] == c.resource;
    WroteAfter(buf[..], off, c.scopeName, persistOff, PackKVs(c.resource));
    CopyBytes(buf, off, c.scopeName);
    off := off + |c.scopeName|;
    WroteAfter(buf[..], off, c.scopeVersion, persistOff, PackKVs(c.resource) + c.scopeName);
    CopyBytes(buf, off, c.scopeVersion);
    assert buf[persistOff..usable] == buf[..][persistOff..off + |c.scopeVersion|];
    assert buf[..persistOff] == buf[..][..persistOff];
  }

  /** config_valid: the loop over the Resource. */
  method CheckConfig(c: Config) returns (ok: bool)
    ensures ok == ConfigValid(c)
    ensures ok <==>
              && (c.hasClock || c.mode == Protobuf.ConcentratorStamped)
              && forall i :: 0 <= i < |c.resource| ==>
                   c.resource[i].key != [] && !(Protobuf.Ascii("microtel.leaf.") <= c.resource[i].key)
  {
    hide Protobuf.Ascii;
    if !c.hasClock && c.mode != Protobuf.ConcentratorStamped {
      return false;
    }
    for i := 0 to |c.resource|
      invariant forall j :: 0 <= j < i ==> KVValid(c.resource[j]) && !HasReservedPrefix(c.resource[j])
    {
      if !KVValid(c.resource[i]) || HasReservedPrefix(c.resource[i]) {
        return false;
      }
    }
    ok := true;
  }

  /** microtel_leaf_init: exactly when it refuses, and the leaf it sets up. */
  method Init(c: Config, caps: Limits, buf: array<byte>) returns (r: Status, leaf: L.Leaf?)
    modifies buf
    ensures r == if !ConfigValid(c) then ErrArg else if PersistentSize(c) > Usable(buf.Length) then ErrNoSpace else Ok
    ensures r != Ok <==> leaf == null
    ensures r != Ok ==> buf[..] == old(buf[..])
    ensures leaf != null ==>
              && fresh(leaf) && fresh(leaf.store) && leaf.store.buf == buf
              && leaf.limits.maxAttrs == (if caps.maxAttrs == 0 then 16 else caps.maxAttrs)
              && leaf.limits.maxEvents == (if caps.maxEvents == 0 then 4 else caps.maxEvents)
              && leaf.limits.maxEventAttrs == (if caps.maxEventAttrs == 0 then 4 else caps.maxEventAttrs)
              && leaf.Valid() && Initial(leaf.Abs()) && ResourceIs(leaf.store, c)
  {
    hide Holds, Used, LinksOk, NoLeak, RawItems, Spans, SpansOk, EndedOk, HandleMap, OrderOf;
    var ok := CheckConfig(c);
    if !ok {
      return ErrArg, null;
    }
    var usable := Usable(buf.Length);
    if PersistentSize(c) > usable {
      return ErrNoSpace, null;
    }
    var persistOff := WritePersistent(buf, c, usable);
    var store := new Buffer(buf, persistOff);
    assert store.resource[..usable - persistOff] == Packed(c);
    leaf := new L.Leaf(store, Caps(caps));
    r := Ok;
  }

  // ---------------------------------------------------------------- What the buffer can hold

  /** A packed attribute is at least half as long as the bound on its encoding. */
  lemma KVWeight(kv: KV)
    ensures Protobuf.BoundKV(kv) <= 2 * KVSize(kv)
  {}

  lemma {:induction false} KVsWeight(kvs: seq<KV>)
    ensures Protobuf.BoundKVs(kvs) <= 2 * KVsSize(kvs)
  {
    hide KVSize;
    if kvs != [] {
      var init, last := kvs[..|kvs| - 1], kvs[|kvs| - 1];
      KVsWeight(init);
      KVWeight(last);
      assert kvs == init + [last];
      PackSum(init, [last]);
      PackOne(last);
    }
  }

  lemma UnpackedSize(b: seq<byte>)
    requires UnpackKV(b).Unpacked?
    ensures KVSize(UnpackKV(b).kv) <= UnpackKV(b).size <= |b|
  {}

  lemma {:induction false} UnpackedKVsSize(b: seq<byte>, count: nat)
    requires UnpackKVs(b, count).Some?
    ensures KVsSize(UnpackKVs(b, count).value) <= |b|
    decreases count
  {
    hide UnpackKV, KVSize;
    if count > 0 {
      UnpackedSize(b);
      var u := UnpackKV(b);
      UnpackedKVsSize(b[u.size..], count - 1);
      var rest := UnpackKVs(b[u.size..], count - 1).value;
      assert UnpackKVs(b, count).value == [u.kv] + rest;
      assert ([u.kv] + rest)[1..] == rest;
    }
  }

  lemma EventWeight(x: Raw)
    ensures Protobuf.BoundEvent(EventOf(x)) <= 2 * (HDR_SIZE + |x.data|)
  {
    hide UnpackKVs, KVsSize, Protobuf.BoundKVs;
    var e := EventOf(x);
    KVsWeight(e.attrs);
    match UnpackEvent(x.data)
    case None => NoKVs();
    case Some(_) =>
      var nameLen, count := U32(x.data[8..12]), U32(x.data[12..16]);
      UnpackedKVsSize(x.data[EVENT_SIZE + nameLen..], count);
  }

  lemma NoKVs()
    ensures KVsSize([]) == 0
  {}

  lemma AttrWeight(x: Raw)
    ensures Protobuf.BoundKV(KvOf(x)) <= 2 * (HDR_SIZE + |x.data|)
  {
    hide UnpackKV;
    KVWeight(KvOf(x));
    if UnpackKV(x.data).Unpacked? { UnpackedSize(x.data); }
  }

  /** The bytes of a list of chunks, headers included. */
  function ItemBytes(items: seq<Raw>): nat {
    if items == [] then 0 else ItemBytes(items[..|items| - 1]) + HDR_SIZE + |items[|items| - 1].data|
  }

  function AttrsOf(items: seq<Raw>): seq<KV> { KvsOf(Filter(items, CHUNK_ATTR)) }
  function EvsOf(items: seq<Raw>): seq<Event> { EventsOf(Filter(items, CHUNK_EVENT)) }
  function TextOf(items: seq<Raw>, kind: byte): seq<byte> { LastData(Filter(items, kind)) }

  lemma FilterLast(items: seq<Raw>, kind: byte)
    requires items != []
    ensures var init, x := items[..|items| - 1], items[|items| - 1];
            Filter(items, kind) == Filter(init, kind) + if x.kind == kind then [x] else []
  {}

  lemma AttrsLast(items: seq<Raw>)
    requires items != []
    ensures var init, x := items[..|items| - 1], items[|items| - 1];
            Protobuf.BoundKVs(AttrsOf(items))
            == Protobuf.BoundKVs(AttrsOf(init)) + if x.kind == CHUNK_ATTR then Protobuf.BoundKV(KvOf(x)) else 0
  {
    hide Filter, KvOf, Protobuf.BoundKV;
    FilterLast(items, CHUNK_ATTR);
    var init, x := items[..|items| - 1], items[|items| - 1];
    if x.kind == CHUNK_ATTR {
      var kvs := AttrsOf(items);
      assert kvs == AttrsOf(init) + [KvOf(x)];
      assert kvs[..|kvs| - 1] == AttrsOf(init);
    } else {
      assert Filter(init, CHUNK_ATTR) + [] == Filter(init, CHUNK_ATTR);
    }
  }

  lemma EventsLast(items: seq<Raw>)
    requires items != []
    ensures var init, x := items[..|items| - 1], items[|items| - 1];
            Protobuf.BoundEvents(EvsOf(items))
            == Protobuf.BoundEvents(EvsOf(init)) + if x.kind == CHUNK_EVENT then Protobuf.BoundEvent(EventOf(x)) else 0
  {
    hide Filter, EventOf, Protobuf.BoundEvent;
    FilterLast(items, CHUNK_EVENT);
    var init, x := items[..|items| - 1], items[|items| - 1];
    if x.kind == CHUNK_EVENT {
      var es := EvsOf(items);
      assert es == EvsOf(init) + [EventOf(x)];
      assert es[..|es| - 1] == EvsOf(init);
    } else {
      assert Filter(init, CHUNK_EVENT) + [] == Filter(init, CHUNK_EVENT);
    }
  }

  lemma TextLast(items: seq<Raw>, kind: byte)
    requires items != []
    ensures var init, x := items[..|items| - 1], items[|items| - 1];
            TextOf(items, kind) == if x.kind == kind then x.data else TextOf(init, kind)
  {
    hide Filter;
    FilterLast(items, kind);
  }

  /** All that a span's chunks contribute to the bound, against the bytes they take. */
  lemma {:induction false} ItemsWeight(items: seq<Raw>)
    ensures Protobuf.BoundKVs(AttrsOf(items)) + Protobuf.BoundEvents(EvsOf(items))
            + |TextOf(items, CHUNK_NAME)| + |TextOf(items, CHUNK_STATUS)| <= 2 * ItemBytes(items)
  {
    hide Filter, KvsOf, EventsOf, AttrsOf, EvsOf, TextOf, KvOf, EventOf, Protobuf.BoundKVs, Protobuf.BoundEvents,
      Protobuf.BoundKV, Protobuf.BoundEvent;
    if items == [] {
      NoItems();
    } else {
      ItemsWeight(items[..|items| - 1]);
      var x := items[|items| - 1];
      AttrsLast(items);
      EventsLast(items);
      TextLast(items, CHUNK_NAME);
      TextLast(items, CHUNK_STATUS);
      AttrWeight(x);
      EventWeight(x);
    }
  }

  lemma NoItems()
    ensures AttrsOf([]) == [] && EvsOf([]) == [] && TextOf([], CHUNK_NAME) == [] && TextOf([], CHUNK_STATUS) == []
    ensures Protobuf.BoundKVs([]) == 0 && Protobuf.BoundEvents([]) == 0
  {}

  lemma SpanWeight(v: SpanView, serial: nat)
    ensures Protobuf.BoundSpan(Decode(v, serial)) <= 2 * (REC_SIZE + ItemBytes(v.items))
  {
    hide Filter, KvsOf, EventsOf, LastData, Protobuf.BoundKVs, Protobuf.BoundEvents, ItemBytes;
    ItemsWeight(v.items);
  }

  // ---------------------------------------------------------------- Chunks are counted once

  function Sizes(stack: seq<Chunk>, idx: seq<nat>): nat {
    if idx == [] then 0 else
    Sizes(stack, idx[..|idx| - 1]) + if idx[|idx| - 1] < |stack| then stack[idx[|idx| - 1]].hdr.size else 0
  }

  lemma {:induction false} SizesSum(stack: seq<Chunk>, a: seq<nat>, b: seq<nat>)
    ensures Sizes(stack, a + b) == Sizes(stack, a) + Sizes(stack, b)
    decreases b
  {
    if b == [] {
      assert a + b == a;
    } else {
      assert (a + b)[..|a + b| - 1] == a + b[..|b| - 1];
      SizesSum(stack, a, b[..|b| - 1]);
    }
  }

  lemma SizesOne(stack: seq<Chunk>, i: nat)
    requires i < |stack|
    ensures Sizes(stack, [i]) == stack[i].hdr.size
  {
    assert [i][..0] == [];
  }

  function Removed(idx: seq<nat>, j: nat): (r: seq<nat>)
    requires j < |idx|
    ensures |r| == |idx| - 1
  {
    idx[..j] + idx[j + 1..]
  }

  lemma RemovedKeeps(idx: seq<nat>, j: nat, n: nat)
    requires j < |idx| && NoDup(idx) && idx[j] == n && forall i :: 0 <= i < |idx| ==> idx[i] <= n
    ensures NoDup(Removed(idx, j)) && forall i :: 0 <= i < |Removed(idx, j)| ==> Removed(idx, j)[i] < n
  {
    var r := Removed(idx, j);
    assert forall i :: 0 <= i < |r| ==> r[i] == idx[if i < j then i else i + 1];
  }

  /** The chunks of distinct indices below n take no more than the first n chunks do. */
  lemma {:induction false} CountedOnce(stack: seq<Chunk>, idx: seq<nat>, n: nat)
    requires n <= |stack| && NoDup(idx) && forall i :: 0 <= i < |idx| ==> idx[i] < n
    ensures Sizes(stack, idx) <= Used(stack, n)
    decreases n
  {
    hide NoDup;
    if idx != [] {
      assert idx[0] < n;
      if j :| 0 <= j < |idx| && idx[j] == n - 1 {
        RemovedKeeps(idx, j, n - 1);
        CountedOnce(stack, Removed(idx, j), n - 1);
        RemovedSizes(stack, idx, j);
      } else {
        CountedOnce(stack, idx, n - 1);
      }
    }
  }

  lemma RemovedSizes(stack: seq<Chunk>, idx: seq<nat>, j: nat)
    requires j < |idx| && idx[j] < |stack|
    ensures Sizes(stack, idx) == Sizes(stack, Removed(idx, j)) + stack[idx[j]].hdr.size
  {
    hide Sizes;
    assert idx == idx[..j] + ([idx[j]] + idx[j + 1..]);
    SizesSum(stack, idx[..j], [idx[j]] + idx[j + 1..]);
    SizesSum(stack, [idx[j]], idx[j + 1..]);
    SizesSum(stack, idx[..j], idx[j + 1..]);
    SizesOne(stack, idx[j]);
  }

  /** Distinct indices below n number at most n. */
  lemma {:induction false} Pigeonhole(idx: seq<nat>, n: nat)
    requires NoDup(idx) && forall i :: 0 <= i < |idx| ==> idx[i] < n
    ensures |idx| <= n
    decreases n
  {
    hide NoDup;
    if idx != [] {
      assert idx[0] < n;
      if j :| 0 <= j < |idx| && idx[j] == n - 1 {
        RemovedKeeps(idx, j, n - 1);
        Pigeonhole(Removed(idx, j), n - 1);
      } else {
        Pigeonhole(idx, n - 1);
      }
    }
  }

  /** The chunks on the lists of these slots. */
  function Gathered(chains: seq<Chain>, which: seq<nat>): seq<nat> {
    if which == [] then [] else
    Gathered(chains, which[..|which| - 1]) + if which[|which| - 1] < |chains| then chains[which[|which| - 1]] else []
  }

  ghost predicate OwnedBy(stack: seq<Chunk>, i: nat, which: seq<nat>) { i < |stack| && stack[i].hdr.owner in which }

  lemma {:induction false} GatheredDistinct(slots: seq<SpanRec>, stack: seq<Chunk>, top: nat, chains: seq<Chain>,
                                            which: seq<nat>)
    requires LinksOk(slots, stack, top, chains) && NoDup(which)
    ensures NoDup(Gathered(chains, which))
    ensures forall k :: 0 <= k < |Gathered(chains, which)| ==> OwnedBy(stack, Gathered(chains, which)[k], which)
    decreases |which|
  {
    hide LinksOk, RefAt;
    if which != [] {
      var init, s := which[..|which| - 1], which[|which| - 1];
      GatheredDistinct(slots, stack, top, chains, init);
      assert s !in init;
      if s < |chains| {
        OwnChain(slots, stack, top, chains, s);
        var a, c := Gathered(chains, init), chains[s];
        forall j, k | 0 <= j < k < |a + c|
          ensures (a + c)[j] != (a + c)[k]
        {
          if j < |a| { assert OwnedBy(stack, a[j], init); }
        }
      }
    }
  }

  lemma OwnChain(slots: seq<SpanRec>, stack: seq<Chunk>, top: nat, chains: seq<Chain>, s: nat)
    requires LinksOk(slots, stack, top, chains) && s < |chains|
    ensures Distinct(chains[s]) && forall k :: 0 <= k < |chains[s]| ==> OwnedBy(stack, chains[s][k], [s])
  {
    hide RefAt;
    assert ChainOk(slots[s], stack, top, chains[s], s);
  }

  lemma {:induction false} ItemsAreChunks(stack: seq<Chunk>, c: Chain)
    requires WfStack(stack) && forall k :: 0 <= k < |c| ==> c[k] < |stack|
    ensures ItemBytes(RawItems(stack, c)) <= Sizes(stack, c)
    decreases |c|
  {
    if c != [] {
      var init := c[..|c| - 1];
      ItemsAreChunks(stack, init);
      var items := RawItems(stack, c);
      assert items[..|items| - 1] == RawItems(stack, init);
      assert WfChunk(stack[c[|c| - 1]]);
    }
  }

  /** The bound on the ended spans, against their records and chunks. */
  lemma {:induction false} SpansWeight(store: Buffer, batch: seq<SpanView>, ended: seq<nat>, serials: map<nat, nat>)
    requires store.Valid() && |batch| == |ended|
    requires forall i :: 0 <= i < |ended| ==> ended[i] in store.View() && batch[i] == store.View()[ended[i]]
    ensures Protobuf.BoundSpans(Decoded(batch, ended, serials))
            <= 2 * (SlotOff(|ended|) + Sizes(store.stack, Gathered(store.chains, ended)))
    decreases |ended|
  {
    hide Holds, Used, LinksOk, NoLeak, RawItems, Decode, ItemBytes, Protobuf.BoundSpan, WfStack, Sizes;
    if ended == [] {
    } else {
      var n := |ended| - 1;
      var init, s := ended[..n], ended[n];
      SpansWeight(store, batch[..n], init, serials);
      var spans := Decoded(batch, ended, serials);
      assert spans[..n] == Decoded(batch[..n], init, serials);
      SpanWeight(batch[n], SerialAt(serials, s));
      SlotWeight(store, s);
      SizesSum(store.stack, Gathered(store.chains, init), store.chains[s]);
    }
  }

  lemma SlotWeight(store: Buffer, s: nat)
    requires store.Valid() && s in store.View()
    ensures s < |store.chains| && ItemBytes(store.View()[s].items) <= Sizes(store.stack, store.chains[s])
  {
    hide Holds, Used, LinksOk, NoLeak, RawItems, ItemBytes, Sizes, WfStack;
    store.RepIsWf();
    OwnChain(store.slots, store.stack, store.persistOff, store.chains, s);
    assert forall k :: 0 <= k < |store.chains[s]| ==> OwnedBy(store.stack, store.chains[s][k], [s]);
    ItemsAreChunks(store.stack, store.chains[s]);
  }

  lemma TableAndChunks(store: Buffer)
    requires store.Valid()
    ensures SlotOff(store.slotCount) + Used(store.stack, |store.stack|) <= store.persistOff
  {
    hide HoldsSlots, HoldsChunks, LinksOk, NoLeak, WfStack, Used;
  }

  /** However full the buffer, the ended spans in it bound to at most twice the buffer. */
  lemma EndedWeight(leaf: L.Leaf, batch: seq<SpanView>)
    requires leaf.Valid() && |batch| == |leaf.ended|
    requires forall i :: 0 <= i < |leaf.ended| ==>
               leaf.ended[i] in leaf.store.View() && batch[i] == leaf.store.View()[leaf.ended[i]]
    ensures Protobuf.BoundSpans(Decoded(batch, leaf.ended, leaf.serials)) <= 2 * leaf.store.persistOff
  {
    hide Holds, Used, LinksOk, NoLeak, RawItems, SpansOk, EndedOk, Decoded, Protobuf.BoundSpans, NoDup, Gathered,
      Sizes, Spans;
    var store, ended := leaf.store, leaf.ended;
    SpansWeight(store, batch, ended, leaf.serials);
    leaf.ChainSlots();
    GatheredDistinct(store.slots, store.stack, store.persistOff, store.chains, ended);
    CountedOnce(store.stack, Gathered(store.chains, ended), |store.stack|);
    Pigeonhole(ended, store.slotCount);
    TableAndChunks(store);
  }

  // ---------------------------------------------------------------- encoded_size

  /** next_resource_attr over the configured attributes. */
  method ResourceAttrs(leaf: L.Leaf, c: Config) returns (kvs: seq<KV>)
    requires leaf.Valid() && ResourceIs(leaf.store, c)
    ensures kvs == c.resource
  {
    hide Holds, Used, LinksOk, NoLeak, SpansOk, EndedOk, PackKVs, KVsSize, Packed, PersistentSize, Spans;
    var store := leaf.store;
    assert store.buf[..][store.persistOff..] == store.buf[store.persistOff..];
    kvs := UnpackedAttrs(store.buf, store.persistOff, c);
  }

  method UnpackedAttrs(buf: array<byte>, start: nat, c: Config) returns (kvs: seq<KV>)
    requires start <= buf.Length && Packed(c) <= buf[..][start..] && PersistentSize(c) <= MAX_BUFFER
    ensures kvs == c.resource
  {
    hide UnpackKV, PackKVs, KVsSize, KVSize, Packed, PersistentSize;
    var pos := start;
    kvs := [];
    assert c.resource[..0] == [];
    PackNone();
    for i := 0 to |c.resource|
      invariant kvs == c.resource[..i]
      invariant pos == start + KVsSize(c.resource[..i])
    {
      AttrInBuffer(buf[..], start, c, buf[..][start..], i);
      assert buf[pos..] == buf[..][pos..];
      var u := UnpackKV(buf[pos..]);
      kvs := kvs + [u.kv];
      pos := pos + u.size;
      PackSnoc(c.resource, i);
    }
  }

  lemma AttrInBuffer(m: seq<byte>, start: nat, c: Config, area: seq<byte>, i: nat)
    requires start <= |m| && m[start..] == area && Packed(c) <= area
    requires PersistentSize(c) <= MAX_BUFFER && i < |c.resource|
    ensures start + KVsSize(c.resource[..i]) <= |m|
    ensures UnpackKV(m[start + KVsSize(c.resource[..i])..]) == Unpacked(c.resource[i], KVSize(c.resource[i]))
  {
    hide UnpackKV, PackKV, PackKVs, KVsSize, KVSize, Packed, PersistentSize;
    AttrAt(c, area, i);
    AreaAt(m, start, KVsSize(c.resource[..i]));
  }

  lemma AreaAt(m: seq<byte>, start: nat, at: nat)
    requires start + at <= |m|
    ensures m[start..][at..] == m[start + at..]
  {}

  /** The scope name and version build_batch points at, read from behind the Resource. */
  method ScopeStrings(leaf: L.Leaf, c: Config) returns (name: seq<byte>, version: seq<byte>)
    requires leaf.Valid() && ResourceIs(leaf.store, c)
    ensures name == c.scopeName && version == c.scopeVersion
  {
    hide Holds, Used, LinksOk, NoLeak, SpansOk, EndedOk, PackKVs, KVsSize, Spans;
    var store := leaf.store;
    var nameOff := store.persistOff + KVsSize(c.resource);
    var versionOff := nameOff + |c.scopeName|;
    ghost var area := store.buf[..][store.persistOff..];
    assert area == store.resource;
    AreaSlices(PackKVs(c.resource), c.scopeName, c.scopeVersion, area);
    name := store.buf[nameOff..versionOff];
    version := store.buf[versionOff..versionOff + |c.scopeVersion|];
    assert name == area[KVsSize(c.resource)..KVsSize(c.resource) + |c.scopeName|];
    assert version == area[KVsSize(c.resource) + |c.scopeName|..PersistentSize(c)];
  }

  lemma AreaSlices(a: seq<byte>, b: seq<byte>, c: seq<byte>, area: seq<byte>)
    requires a + b + c <= area
    ensures area[|a|..|a| + |b|] == b && area[|a| + |b|..|a| + |b| + |c|] == c
  {
    var n := |a + b + c|;
    assert area[..n] == a + b + c;
    assert area[|a|..|a| + |b|] == area[..n][|a|..|a| + |b|];
    assert area[|a| + |b|..n] == area[..n][|a| + |b|..n];
  }

  /** Wherever it stands in the Resource area, an attribute reads back as it was configured. */
  lemma AttrAt(c: Config, area: seq<byte>, i: nat)
    requires Packed(c) <= area && PersistentSize(c) <= MAX_BUFFER && i < |c.resource|
    ensures KVsSize(c.resource[..i]) <= |area|
    ensures UnpackKV(area[KVsSize(c.resource[..i])..]) == Unpacked(c.resource[i], KVSize(c.resource[i]))
  {
    hide UnpackKV, PackKV, PackKVs, KVsSize, KVSize;
    var kvs := c.resource;
    PackSnoc(kvs, i);
    assert kvs == kvs[..i + 1] + kvs[i + 1..];
    PackSum(kvs[..i + 1], kvs[i + 1..]);
    var before, after := PackKVs(kvs[..i]), PackKVs(kvs[i + 1..]);
    var rest := area[|Packed(c)|..];
    var tail := after + c.scopeName + c.scopeVersion + rest;
    Regroup(before, PackKV(kvs[i]), after, c.scopeName, c.scopeVersion, rest);
    assert area == Packed(c) + rest;
    SliceAfter(before, PackKV(kvs[i]) + tail);
    PackRoundTrip(kvs[i], tail);
  }

  lemma Regroup(a: seq<byte>, b: seq<byte>, c: seq<byte>, d: seq<byte>, e: seq<byte>, f: seq<byte>)
    ensures a + b + c + d + e + f == a + (b + (c + d + e + f))
  {}

  lemma SliceAfter(a: seq<byte>, b: seq<byte>)
    ensures (a + b)[|a|..] == b
  {}

  /** bound_span, with its two cursor loops. */
  method SpanBound(v: SpanView, serial: nat) returns (n: nat)
    ensures n == Protobuf.BoundSpan(Decode(v, serial))
  {
    hide Filter, KvsOf, EventsOf, LastData, KvOf, EventOf, Protobuf.BoundKVs, Protobuf.BoundEvents, Protobuf.BoundKV,
      Protobuf.BoundEvent;
    var items := v.items;
    n := Protobuf.BoundSpanHead(Decode(v, serial));
    ghost var head := n;
    NoItems();
    assert items[..0] == [] && items[..|items|] == items;
    for i := 0 to |items|
      invariant n == head + Protobuf.BoundKVs(AttrsOf(items[..i]))
    {
      AttrsLast(items[..i + 1]);
      assert items[..i + 1][..i] == items[..i];
      if items[i].kind == CHUNK_ATTR {
        n := n + Protobuf.BoundKV(KvOf(items[i]));
      }
    }
    ghost var attrs := n;
    for i := 0 to |items|
      invariant n == attrs + Protobuf.BoundEvents(EvsOf(items[..i]))
    {
      EventsLast(items[..i + 1]);
      assert items[..i + 1][..i] == items[..i];
      if items[i].kind == CHUNK_EVENT {
        n := n + Protobuf.BoundEvent(EventOf(items[i]));
      }
    }
    n := Protobuf.BoundField(n);
  }

  lemma BoundIsSmall(c: Config, persistOff: nat, spans: seq<Span>)
    requires persistOff + PersistentSize(c) <= MAX_BUFFER && Protobuf.BoundSpans(spans) <= 2 * persistOff
    ensures Protobuf.Bound(c, spans) < 0x2_0000_0200
  {
    hide Protobuf.BoundKVs, Protobuf.BoundSpans, KVsSize;
    KVsWeight(c.resource);
  }

  /**
   microtel_leaf_encoded_size: the bound, and that it is one. Whatever the state of the leaf, the time
   mode, the sync, the clock value and the counters, the payload of the next encode is no longer.
   */
  method EncodedSize(leaf: L.Leaf, c: Config) returns (n: nat)
    requires leaf.Valid() && ResourceIs(leaf.store, c)
    ensures forall h <- leaf.Abs().order :: h in leaf.Abs().spans
    ensures n == Protobuf.Bound(c, SpansOf(leaf.Abs(), leaf.Abs().order)) < 0x2_0000_0200
    ensures forall sync, now: u64, counters ::
              |Protobuf.Request(Protobuf.BuildBatch(c, sync, now, counters,
                                                    SpansOf(leaf.Abs(), leaf.Abs().order)))| <= n
  {
    hide Holds, Used, LinksOk, NoLeak, RawItems, SpansOk, EndedOk, HandleMap, OrderOf, Spans, SpansOf, Decoded,
      Protobuf.BoundSpans, Protobuf.BoundKVs, Protobuf.Request, Protobuf.BuildBatch;
    var kvs := ResourceAttrs(leaf, c);
    var resource := KVsBound(kvs);
    var batch := leaf.Collect();
    ghost var all := Decoded(batch, leaf.ended, leaf.serials);
    var spans := SpansBound(batch, leaf.ended, leaf.serials);
    n := Protobuf.BoundField(Protobuf.BoundField(resource + Protobuf.BoundReserved())
                             + Protobuf.BoundField(Protobuf.BoundScope(c) + spans));
    BatchIsOrder(leaf.Abs(), leaf.store.View(), leaf.serials, leaf.ended, leaf.endedHead, leaf.endedTail, batch);
    EndedWeight(leaf, batch);
    BoundIsSmall(c, leaf.store.persistOff, all);
    forall sync, now: u64, counters
      ensures |Protobuf.Request(Protobuf.BuildBatch(c, sync, now, counters, all))| <= n
    {
      Protobuf.PayloadWithinBound(c, sync, now, counters, all);
    }
  }

  method KVsBound(kvs: seq<KV>) returns (n: nat)
    ensures n == Protobuf.BoundKVs(kvs)
  {
    hide Protobuf.BoundKV;
    n := 0;
    for i := 0 to |kvs|
      invariant n == Protobuf.BoundKVs(kvs[..i])
    {
      assert kvs[..i + 1][..i] == kvs[..i];
      n := n + Protobuf.BoundKV(kvs[i]);
    }
    assert kvs[..|kvs|] == kvs;
  }

  method SpansBound(batch: seq<SpanView>, ghost ended: seq<nat>, ghost serials: map<nat, nat>) returns (n: nat)
    requires |batch| == |ended|
    ensures n == Protobuf.BoundSpans(Decoded(batch, ended, serials))
  {
    hide Decode, Protobuf.BoundSpan;
    ghost var all := Decoded(batch, ended, serials);
    n := 0;
    for i := 0 to |batch|
      invariant n == Protobuf.BoundSpans(all[..i])
    {
      assert all[..i + 1][..i] == all[..i];
      var s := SpanBound(batch[i], 0);
      SerialIsFree(batch[i], SerialAt(serials, ended[i]));
      n := n + s;
    }
    assert all[..|all|] == all;
  }

  /** The serial number is not part of the encoding. */
  lemma SerialIsFree(v: SpanView, serial: nat)
    ensures Protobuf.BoundSpan(Decode(v, 0)) == Protobuf.BoundSpan(Decode(v, serial))
  {
    hide Filter, KvsOf, EventsOf, LastData, Protobuf.BoundKVs, Protobuf.BoundEvents;
  }
}
