# microtel, verified

A Dafny model of the parts of microtel in which most can go wrong, with proofs about all inputs, all
runs or all interleavings. `dafny verify dfyconfig.toml` checks everything.

**The leaf's record buffer.** A leaf keeps its spans inside one byte array supplied by the caller: a
table of span records growing up, chunks for names, attributes, events and status messages growing
down, and the Resource on top. `RecordFormat` gives the records their byte images, `Layout` says what
the bytes mean, `Compaction`, `Chains`, `Passes` and `ListOps` hold the arguments about sliding chunks
and rewriting lists, and `RecordBuffer` is the storage manager itself, a class over the array.
`LeafSpec` says what a leaf is meant to be, without a buffer: a map from handle to span, an end order
and drop counters. `LeafItems` reads spans off chunks, and every public call in `Leaf` is proved to be
one step of `LeafSpec`, whatever it compacted on the way. `LeafRun` puts init and any sequence of calls
together, so handle safety, exactly-once emission and drop accounting, proved in `LeafSpec` for every
run, hold of the bytes. `Protobuf` is a reference encoder for the payload, built from the six rules of
the backend contract, and the size bound; `ProtobufReader` is the receiver that reads the payload back,
which takes exactly-once emission to the payload bytes; `LeafSize` has init, the Resource cursor and the
proof that `microtel_leaf_encoded_size` bounds the next payload in every state, and `SizeSlack` that it
stays close to it. `LeafHistory` says of every run what its spans, end order and drop counts are, from
the list of calls alone, and `LeafWire` follows that into the bytes: wall times, reserved attributes,
child and parent in one trace. `IdMixing` covers id words, and `Basics` holds what all modules share.

**The export worker.** `ExportWorker` is a step system in which producers, flushers, shutdowns and the
worker interleave at every point where the mutex is free, with flush safety and span conservation over
every run. `RequestGrouping` proves the greedy grouping optimal.

**The W3C codecs.** `Text`, `Baggage`, `TraceState` and `Propagator`: parsers and printers that undo
each other, within the limits, for everything reachable through the public calls.

**Two small machines.** `ScopedContext`, the thread's current-context slot, and `LogSink`, the buffered
line writer of the stderr fallback.

## Reading notes

- Integers that the source keeps in 16, 32 or 64 bits have those ranges here, and wrap where the source
  lets them wrap: drop counters, generations, timestamps, id counters. Octets are 0 to 255.
- `hide` statements only narrow what a proof may use.
- The ids, clock readings and backend results of a leaf call are parameters of the call. Which part of
  a call's arguments may be NULL does not arise: an absent string or list is an empty one.
- A span record in the buffer is little-endian without gaps apart from its four trailing padding bytes,
  as on the common ABIs; the code itself only relies on copying a record in and out unchanged.
- `microtel_leaf_encoded_size` says "a length below 2^32" for its five length bytes
  (leaf/src/leaf_core.c:73-77). Five varint bytes hold lengths below 2^35, and that is what
  `Protobuf.PayloadWithinBound` needs; `LeafSize.EncodedSize` shows the bound never reaches it.
- `include/microtel/context.hpp:93-97` warns that destroying scopes out of order writes back a stale
  context. `ScopedContext.OutOfOrder` says exactly which one, and when it happens to be right.
- `src/exporter/otlp_exporter.hpp:55-59` says that the limit on batches never binds first because every
  batch carries a span. `ExportWorker.BatchLimitNeverBindsFirst` proves it for such batches, and
  `ExportWorker.EmptyBatchesCanFillTheQueue` shows that the condition is needed.
- An empty trace state is not injected, so a stale `tracestate` already in the carrier survives;
  `Propagator.ContextRoundTrip` gives the exact condition, `Propagator.StaleStateSurvives` a carrier that fails it.

## Model

| member | source | states |
|---|---|---|
| `IdMixing.SplitmixIsBijective` | leaf/src/leaf_core.c:397-403 | the 64-bit mix has a two-sided inverse |
| `IdMixing.SplitmixIsInjective` | leaf/src/leaf_core.c:397-403 | two words mix to the same word exactly when they are equal |
| `IdMixing.StuckSourceStillGivesDistinctWords` | leaf/src/leaf_core.c:461-468 | with a random source stuck on one word, two id words of one leaf agree exactly when their counters do, so none repeats within 2^64 draws |
| `IdMixing.SharedSourceSeparatesDevices` | leaf/src/leaf_core.c:434-468 | devices sharing one random sequence get the same id word exactly when their device keys are equal |
| `IdMixing.RandomPassesThrough` | leaf/src/leaf_core.c:461-468 | for one key and counter, two id words differ exactly as their random words do |
| `IdMixing.EveryWordOnce` | leaf/src/leaf_core.c:461-468 | for one key and counter each word comes from exactly one random word, so a uniform source gives uniform ids |
| `IdMixing.OneKeyAhead` | leaf/src/leaf_core.c:461-468 | device key and counter are added: a key one higher is one draw ahead |
| `IdMixing.KnownAnswer` | leaf/src/leaf_core.c:397-403 | the published first output of the generator seeded with 0 |
| `IdMixing.BigEndianRoundTrip` | leaf/src/leaf_core.c:425-432 | an id stores its word without loss, so it is all zero only for the word 0 |
| `IdMixing.Generator.NextIdWord` | leaf/src/leaf_core.c:461-468 | the word of the current counter, which advances by one |
| `IdMixing.Generator.NewSpanId` | leaf/src/leaf_core.c:483-491 | ends within two draws, with a non-zero word; says which draw was used |
| `IdMixing.Generator.NewTraceId` | leaf/src/leaf_core.c:470-481 | ends in one round; its two words differ, so they are not both zero |
| `RecordFormat.HdrRoundTrip` | leaf/src/leaf_core.c:248-258 | a chunk header survives the copy into and out of the buffer |
| `RecordFormat.RecRoundTrip` | leaf/src/leaf_core.c:236-246 | a span record survives the copy into and out of the buffer |
| `RecordFormat.PackRoundTrip` | leaf/src/leaf_core.c:329-373 | unpacking a packed attribute gives it back, whatever follows it |
| `RecordFormat.PackKVsRoundTrip` | leaf/src/leaf_core.c:1674-1685 | walking packed attributes one after the other gives the list back |
| `RecordFormat.EventRoundTrip` | leaf/src/leaf_core.c:1224-1248 | an event chunk reads back as the event that was written |
| `Layout.OffsetsDisjoint` | leaf/src/leaf_core.c:14-33 | chunks tile the data region: different chunks never overlap |
| `Layout.WriteChunk` | leaf/src/leaf_core.c:248-258 | overwriting one chunk leaves every record and every other chunk as it was |
| `Layout.AppendChunk` | leaf/src/leaf_core.c:627-648 | a chunk written just below the lowest one joins the stack; nothing else changes |
| `Compaction.NewOffIsPacked` | leaf/src/leaf_core.c:527-557 | the forwarding offset planned for a live chunk is its offset once only live chunks remain, packed |
| `Compaction.MoveRoom` | leaf/src/leaf_core.c:591-605 | a live chunk moves up, clear of every chunk below it and below what has already moved |
| `Compaction.NotYetOverwritten` | leaf/src/leaf_core.c:591-605 | when a chunk's turn comes in the top-down move, its bytes are still those the pass started with |
| `Compaction.MoveOne` | leaf/src/leaf_core.c:591-605 | one move puts the chunk at its packed place and keeps all others that have or have not moved |
| `Compaction.Moved` | leaf/src/leaf_core.c:591-605 | after the last move the buffer holds exactly the live chunks, in order, packed against the Resource |
| `Chains.ForwardedRef` | leaf/src/leaf_core.c:559-589 | forwarded references of a list are its references in the packed region |
| `Passes.FixedChains` | leaf/src/leaf_core.c:559-589 | after all passes every list is sound again, and each span has the same record and items |
| `Passes.AllSurvivorsLive` | leaf/src/leaf_core.c:607-614 | right after a compaction nothing more can be reclaimed |
| `ListOps.Link` | leaf/src/leaf_core.c:651-666 | appending puts the chunk last on its owner's list |
| `ListOps.Splice` | leaf/src/leaf_core.c:754-776 | splicing puts the new chunk in the old one's place and kills the old one |
| `ListOps.Unlink` | leaf/src/leaf_core.c:779-799 | unlinking takes one chunk out, repairs head, tail and the link around it, and kills it |
| `ListOps.OneSpanChanged` | leaf/src/leaf_core.c:651-799 | a change to one span's list leaves every other span as it was |
| `RecordBuffer.Buffer.CompactPlan` | leaf/src/leaf_core.c:527-557 | every live chunk gets its packed offset, every chunk the one below it; the new low end is persist_off minus the live bytes |
| `RecordBuffer.Buffer.CompactFix` | leaf/src/leaf_core.c:565-589 | every head, tail and next reference of a live list is forwarded, and nothing else changes |
| `RecordBuffer.Buffer.CompactMove` | leaf/src/leaf_core.c:593-605 | the bytes become those of the surviving chunks, packed; the table and the Resource are untouched |
| `RecordBuffer.Buffer.Compact` | leaf/src/leaf_core.c:607-614 | every open or ended span keeps its record and its ordered chunk kinds and payload bytes; data_low ends at persist_off minus the live bytes |
| `RecordBuffer.Buffer.AllocChunk` | leaf/src/leaf_core.c:627-648 | refuses exactly when table end plus the requested size exceeds persist_off minus the live bytes; no span reads differently |
| `RecordBuffer.Buffer.LinkChunk` | leaf/src/leaf_core.c:651-666 | the span's items gain the new chunk at the end; other spans unchanged |
| `RecordBuffer.Buffer.FindChunk` | leaf/src/leaf_core.c:737-752 | the first chunk of the kind (and key) on the list and its predecessor, or neither |
| `RecordBuffer.Buffer.SpliceChunk` | leaf/src/leaf_core.c:754-776 | the item at that place is replaced; order and other spans unchanged |
| `RecordBuffer.Buffer.UnlinkChunk` | leaf/src/leaf_core.c:779-799 | the item at that place is removed; order and other spans unchanged |
| `RecordBuffer.Buffer.ReplaceItem` | leaf/src/leaf_core.c:1140-1166 | an item is overwritten in place if it fits its chunk, else spliced; refused exactly when it fits neither |
| `RecordBuffer.Buffer.SetSingle` | leaf/src/leaf_core.c:1308-1348 | the status message is overwritten, relinked or removed; refused exactly when it neither fits in place nor in the free room |
| `RecordBuffer.Buffer.BeginSpan` | leaf/src/leaf_core.c:1007-1056 | a free slot becomes a span with its name as only item; refused exactly when the name does not fit |
| `RecordBuffer.Buffer.AcquireSlot` | leaf/src/leaf_core.c:809-837 | a free slot, growing the table if need be; refused exactly when every slot is taken and the table is at its limit or cannot grow even after a compaction |
| `RecordBuffer.Buffer.TrimSlots` | leaf/src/leaf_core.c:840-846 | trailing free slots go; no span notices |
| `RecordBuffer.Buffer.FreeSlot` | leaf/src/leaf_core.c:1696-1706 | exactly that slot's span is gone |
| `RecordBuffer.Buffer.ReadItems` | leaf/src/leaf_core.c:1613-1672 | the chunks of a span in list order, as the cursors visit them |
| `LeafSpec.StepKeepsInv` | leaf/src/leaf_core.c:1007-1413 | each call keeps: one serial and one handle per span, the end order lists exactly the ended spans once, each span started is in use or emitted once |
| `LeafSpec.RunKeepsInv` | leaf/src/leaf_core.c:1007-1413 | the invariant holds in every state of every run |
| `LeafSpec.ErrorKeepsSpans` | leaf/src/leaf_core.c:1007-1413 | a call that fails changes no span and no order; only a refusal for a limit or for space touches the drop counters |
| `LeafSpec.HandleSafety` | leaf/src/leaf_core.c:691-712 | in every run a handle leads to the very span it was issued for until that span is emitted, and from then on to nothing until at least 65535 further spans have been started |
| `LeafSpec.EmittedExactlyOnce` | leaf/src/leaf_core.c:1696-1728 | in every run an ended span is in the payload of the first later successful encode, as it was left, and is emitted no second time |
| `LeafSpec.DropsAreReported` | leaf/src/leaf_core.c:1488-1533 | in every run drops reported in payloads plus pending counters are all drops counted, up to whole wraps of a 32-bit counter, and exactly below 2^32 of a kind |
| `LeafHistory.SetAttrIsUpdate` | leaf/src/leaf_core.c:1140-1221 | setting an attribute is a map update; keys stay in the order they were first set |
| `LeafHistory.SpanIsWhatCallsMade` | leaf/src/leaf_core.c:1007-1413 | in every run a span has, until it is emitted, the ids, trace, parent, name, kind and start its start call asked for (a child its parent's trace and span id), and the attributes, events, status and end of the successful calls on its handle, read off the list of calls alone |
| `LeafHistory.IdentityStays` | leaf/src/leaf_core.c:1007-1413 | in every run ids, parent, kind, start and name of a span never change while it is in use |
| `LeafHistory.SpansAreWellFormed` | leaf/src/leaf_core.c:1168-1305 | in every run each span keeps the caps on attributes, events and event attributes, has no key twice and none empty, and a kind and status code in range |
| `LeafHistory.OrderIsEndOrder` | leaf/src/leaf_core.c:1384-1413 | in every run the end order is that of the successful end calls since the last successful encode |
| `LeafHistory.DropsAreTheRefusals` | leaf/src/leaf_core.c:1007-1305 | in every run the drops ever counted are one per refused start, attribute and event and one per event attribute over the cap; each pending counter is what came since the last successful encode modulo 2^32 |
| `LeafHistory.ErrorsExplained` | leaf/src/leaf_core.c:1058-1382 | each error exactly for its reasons, spelled out, in the order argument, handle, limit; ending a span never lacks space |
| `LeafItems.DecodeReplaceAttr` | leaf/src/leaf_core.c:1140-1166 | replacing the first chunk with a key overwrites that attribute in place, in first-set order |
| `LeafItems.DecodeStatus` | leaf/src/leaf_core.c:1308-1348 | each outcome of setting a status leaves the given message and nothing else changed |
| `LeafItems.EndedAfterEnd` | leaf/src/leaf_core.c:1384-1413 | ending a span appends its slot to the next_ended chain, which still visits each ended slot once in end order |
| `LeafItems.ReleasedMap` | leaf/src/leaf_core.c:1696-1713 | releasing the ended slots removes exactly the handles of the ended spans |
| `LeafItems.BatchIsOrder` | leaf/src/leaf_core.c:1580-1610 | the span cursor visits exactly the ended spans in end order |
| `Leaf.Leaf.Resolve` | leaf/src/leaf_core.c:691-712 | a handle resolves exactly when the abstract map has it, and to that slot |
| `Leaf.Leaf.SetAttribute` | leaf/src/leaf_core.c:1193-1221 | is a step of the abstract leaf: overwrite in place or append, argument, handle and limit errors; out of space only when the attribute does not fit the free room |
| `Leaf.Leaf.AddEvent` | leaf/src/leaf_core.c:1250-1305 | is a step of the abstract leaf: the event with the attributes kept is appended and the others are counted dropped; out of space only when it does not fit |
| `Leaf.Leaf.SetStatus` | leaf/src/leaf_core.c:1350-1382 | is a step of the abstract leaf: code and message change together or not at all |
| `Leaf.Leaf.End` | leaf/src/leaf_core.c:1384-1413 | is a step of the abstract leaf: the span is ended and joins the end order last |
| `Leaf.Leaf.Start` | leaf/src/leaf_core.c:1067-1099 | is a step of the abstract leaf: a new span under a handle not in use, with its parent's trace; refused for space exactly when record and name do not fit |
| `Leaf.Leaf.StartRemote` | leaf/src/leaf_core.c:1101-1124 | as Start, with the given trace and parent; all-zero ids are refused |
| `Leaf.Leaf.Collect` | leaf/src/leaf_core.c:1580-1672 | every ended span with its items, in end order |
| `Leaf.Leaf.ReleaseEnded` | leaf/src/leaf_core.c:1695-1713 | all ended spans leave the map and the counters restart; afterwards nothing is left to reclaim in the table or among the chunks |
| `Leaf.Leaf.Encode` | leaf/src/leaf_core.c:1715-1728 | is a step of the abstract leaf: on success exactly the ended spans leave, in end order, and their space is reclaimed; a failed encode releases nothing |
| `Protobuf.MessageRoundTrip` | leaf/src/leaf_internal.h:16-26 | the reference encoding is read back field by field: nothing is lost |
| `Protobuf.SpanAscending` | leaf/src/leaf_internal.h:16-16 | the fields of a span go out in ascending field-number order |
| `Protobuf.RequestAscending` | leaf/src/leaf_internal.h:16-16 | the same for every message of a request: attributes, events, status, span, scope and both wrappers |
| `Protobuf.ReservedAtMost` | leaf/src/leaf_core.c:1488-1533 | at most seven reserved attributes in every time mode, none with a key longer than the bound allows for |
| `Protobuf.ReservedReports` | leaf/src/leaf_core.c:1488-1533 | each of the two drop counts is in the payload exactly when it is positive, with its value |
| `Protobuf.PayloadWithinBound` | leaf/src/leaf_core.c:1776-1859 | in every time mode, at every clock and counter value, the payload is no longer than the bound, as long as the bound is below 2^35 |
| `Protobuf.NegativeTakesTen` | leaf/src/leaf_internal.h:24-25 | a negative integer is a ten-byte varint |
| `ProtobufReader.KVRoundTrip` | leaf/src/leaf_internal.h:16-26 | an attribute is read back, whatever its type and even with an empty value |
| `ProtobufReader.EventOfMessage` | leaf/src/leaf_internal.h:16-26 | an event is read back with its time moved to wall time |
| `ProtobufReader.SpanRoundTrip` | leaf/src/leaf_internal.h:16-26 | a span is read back: ids, parent or none, name, kind, times, attributes, events, status |
| `ProtobufReader.RequestRoundTrip` | leaf/src/leaf_internal.h:16-30 | a receiver gets the whole batch back from the payload bytes: Resource, scope and spans, in the order of the cursors |
| `ProtobufReader.SpanPresence` | leaf/src/leaf_internal.h:17-22 | ids always, parent and status exactly when there is one, every other field exactly when it is not the default |
| `ProtobufReader.OtherPresence` | leaf/src/leaf_internal.h:17-22 | the same for attributes, events, status and scope; values, Resource and scope messages are always there |
| `ProtobufReader.EmittedInBytes` | leaf/src/leaf_core.c:1696-1728 | in every run a span that ended is read back, as it was left, from the bytes of the first later successful encode, and is emitted no second time |
| `LeafWire.SpansArrive` | leaf/src/leaf_core.c:1488-1610 | every span is read back from the bytes in order with all it was given; under a sync each start, end and event time is as far from the wall time of the sync as the stored one from its leaf time, otherwise it is the stored one; Resource and scope arrive as configured |
| `LeafWire.ReservedArrive` | leaf/src/leaf_core.c:1488-1533 | a receiver finds protocol version, effective time mode, boot id, encode time, sync age and drop counts in the bytes, each exactly when it should, with its value |
| `LeafWire.SyncIsRecoverable` | leaf/src/leaf_core.c:1504-1522 | encode time less sync age, as found in the bytes, is the wall time of the sync, whatever has wrapped |
| `LeafWire.ConfiguredAreOthers` | leaf/src/leaf_core.c:375-379 | no attribute of a valid configuration can stand in for a reserved one |
| `LeafWire.CallsReachTheBytes` | leaf/src/leaf_core.c:1007-1728 | in every run a span arrives, in the bytes of the first successful encode after its end, as its calls made it |
| `LeafWire.FamilyInBytes` | leaf/src/leaf_core.c:1067-1099 | in every run a parent and its child arrive with one trace id, and the child names its parent, whichever payloads they are in |
| `SizeSlack.BoundIsClose` | leaf/src/leaf_core.c:1776-1859 | the bound exceeds the payload by at most 454 bytes, plus 99 per span, 22 per event and 27 per attribute |
| `LeafSize.WritePersistent` | leaf/src/leaf_core.c:909-934 | the packed Resource, scope name and version end at the top of the usable buffer; nothing below changes |
| `LeafSize.CheckConfig` | leaf/src/leaf_core.c:857-890 | a clock in the modes that need one; no empty key and no reserved prefix in the Resource |
| `LeafSize.Init` | leaf/src/leaf_core.c:958-987 | which configurations are refused and when the buffer is too small; otherwise an empty leaf with its Resource in place and each cap as given, or 16, 4 and 4 for zero |
| `LeafSize.ResourceAttrs` | leaf/src/leaf_core.c:1535-1557 | the Resource cursor returns exactly the configured attributes, however much has been recorded since |
| `LeafSize.ScopeStrings` | leaf/src/leaf_core.c:1497-1500 | the scope name and version read from the buffer are those configured |
| `LeafSize.AttrAt` | leaf/src/leaf_core.c:1535-1557 | an attribute of the Resource reads back wherever it stands |
| `LeafSize.ItemsWeight` | leaf/src/leaf_core.c:1805-1824 | what a span's chunks add to the bound is at most twice the bytes they take |
| `LeafSize.CountedOnce` | leaf/src/leaf_core.c:14-33 | distinct chunks together take no more than the data region |
| `LeafSize.EndedWeight` | leaf/src/leaf_core.c:1826-1859 | the bound on the ended spans is at most twice the buffer |
| `LeafSize.SpanBound` | leaf/src/leaf_core.c:1805-1824 | the two cursor loops add up the bound of the span the chunks stand for |
| `LeafSize.EncodedSize` | leaf/src/leaf_core.c:1826-1859 | for every leaf state, sync, clock value and counter value, the number returned is at least the length of the next payload, and is below 2^33 + 512 |
| `LeafRun.Perform` | leaf/src/leaf_core.c:1067-1413 | each public call on the buffer is a step of the abstract leaf |
| `LeafRun.Live` | leaf/src/leaf_core.c:958-1859 | init and any sequence of calls on a byte buffer is a run of the abstract leaf, so the run theorems hold of it; at its end the size bound covers every payload the next encode may produce |
| `RequestGrouping.GroupIntoRequests` | src/exporter/otlp_exporter.cpp:245-270 | ranges are non-empty, contiguous and cover every batch once; several batches share a request only within both limits, and none but the last could take the next batch; no other in-order grouping uses fewer requests; counts add up to the batches |
| `RequestGrouping.GreedyStaysAhead` | src/exporter/otlp_exporter.cpp:245-270 | the k-th greedy request starts no earlier than that of any other grouping |
| `RequestGrouping.GreedyIsOptimal` | src/exporter/otlp_exporter.cpp:245-270 | no grouping under the same limits has fewer requests |
| `RequestGrouping.CountsAddUp` | src/exporter/otlp_exporter.cpp:272-329 | the counts given to Settle add up to the number of drained batches |
| `ExportWorker.NextKeepsInv` | src/exporter/otlp_exporter.cpp:51-165 | each critical section and each unlocked stretch of the worker keeps the invariant on queue, totals, tickets and waiters |
| `ExportWorker.RunKeepsInv` | src/exporter/otlp_exporter.cpp:51-360 | the invariant holds in every state of every interleaving |
| `ExportWorker.CompletedMeansProcessed` | src/exporter/otlp_exporter.cpp:122-165 | in every interleaving, when a ForceFlush or the winning Shutdown reports Completed, every batch accepted before any ticket taken so far, its own included, has been processed |
| `ExportWorker.CompletedHasTicket` | src/exporter/otlp_exporter.cpp:122-146 | only a call that took a ticket can report Completed |
| `ExportWorker.DrainedGrantsFlushes` | src/exporter/otlp_exporter.cpp:344-360 | once the worker finds the queue drained, or leaves, every flush asked for is done and every waiter may complete |
| `ExportWorker.FlushIsGranted` | src/exporter/otlp_exporter.cpp:122-135 | in every run, a flush whose ticket is followed by such a step may complete from then on, until another ticket is taken |
| `ExportWorker.WorkerCanMove` | src/exporter/otlp_exporter.cpp:331-343 | while it lives the worker can move whenever there is a batch, a pending flush or a shutdown |
| `ExportWorker.DropReasons` | src/exporter/otlp_exporter.cpp:84-101 | after a shutdown nothing is taken and every refusal is put down to it; before, none is |
| `ExportWorker.GroupInOrder` | src/exporter/otlp_exporter.cpp:65-82 | a group that fits both limits is queued whole and in order |
| `ExportWorker.DoneOnlyWhenDrained` | src/exporter/otlp_exporter.cpp:331-360 | m_flush_done_seq is raised only with the queue empty and nothing in flight |
| `ExportWorker.SpansAreConserved` | src/exporter/otlp_exporter.cpp:84-120 | in every reachable state each offered span is queued, in flight, processed or dropped for one of two reasons; both limits hold; none is dropped for shutdown before there was one; the worker exits only with nothing left |
| `ExportWorker.BatchLimitNeverBindsFirst` | src/exporter/otlp_exporter.hpp:55-65 | with equal limits and no empty batch, a batch is refused exactly when the span budget refuses it |
| `ExportWorker.BudgetDecides` | src/exporter/otlp_exporter.hpp:55-65 | the same in every state of every run that offers no empty batch |
| `ExportWorker.EmptyBatchesCanFillTheQueue` | src/exporter/otlp_exporter.cpp:94-98 | why empty batches are excluded: after a one-step run that exports one, the next batch is dropped although the span budget would take it |
| `ExportWorker.Exporter.EnqueueLocked` | src/exporter/otlp_exporter.cpp:84-120 | refuses after shutdown or when either limit would be passed, else queues; the result says which |
| `ExportWorker.Exporter.ExportGroup` | src/exporter/otlp_exporter.cpp:65-82 | all batches of a group are offered under one lock; queued says whether any was taken |
| `ExportWorker.Exporter.BeginFlush` | src/exporter/otlp_exporter.cpp:122-128 | a ticket is taken |
| `ExportWorker.Exporter.BeginShutdown` | src/exporter/otlp_exporter.cpp:137-146 | the first shutdown closes the door and takes a ticket; a later one changes nothing |
| `ExportWorker.Exporter.TakeQueue` | src/exporter/otlp_exporter.cpp:205-213 | the whole queue moves out in order and the whole budget is free again |
| `ExportWorker.Exporter.AfterDrain` | src/exporter/otlp_exporter.cpp:344-352 | pending flushes are reported done; the worker leaves when shut down |
| `Text.TrimIs` | src/api/baggage.cpp:143-154 | trimming takes spaces and tabs off both ends and nothing else |
| `Text.TrimOptionalWhitespace` | src/api/baggage.cpp:143-154 | the two loops compute the trimmed text |
| `Baggage.OctetsAreAsSpecified` | src/api/baggage.cpp:120-129 | a baggage octet is one of the ranges of the specification |
| `Baggage.TokenCharsAreVisible` | src/api/baggage.cpp:107-112 | a token character is a visible one that is no delimiter |
| `Baggage.CodecRoundTrip` | src/api/baggage.cpp:179-248 | percent-decoding undoes percent-encoding for every octet string |
| `Baggage.EncodeIsWire` | src/api/baggage.cpp:222-248 | an encoded value holds only baggage octets and is as long as EncodedSize says |
| `Baggage.EitherCase` | src/api/baggage.cpp:156-211 | an escape in either case stands for its octet |
| `Baggage.PlainDecodes` | src/api/baggage.cpp:179-211 | octets that may stand for themselves do |
| `Baggage.DecodedIsWire` | src/api/baggage.cpp:179-211 | a value with an octet that may not stand there is not decoded |
| `Baggage.DecodeValue` | src/api/baggage.cpp:179-211 | the decoding loop computes the decoding, failing on a bad octet or a bad escape |
| `Baggage.AppendEncoded` | src/api/baggage.cpp:234-248 | the encoding loop appends the encoding |
| `Baggage.ParseProperties` | src/api/baggage.cpp:254-308 | the property loop computes the canonical tail, or fails with the first bad property |
| `Baggage.ParsedTail` | src/api/baggage.cpp:254-308 | a parsed tail is canonical |
| `Baggage.TailRoundTrip` | src/api/baggage.cpp:254-308 | a canonical tail is parsed to itself |
| `Baggage.ParsedIsEntry` | src/api/baggage.cpp:310-360 | a parsed member has a token key, a canonical tail and the exact cached length |
| `Baggage.MemberRoundTrip` | src/api/baggage.cpp:327-360 | a written member is parsed back to its entry, opaque properties included |
| `Baggage.AdmittedIsBaggage` | src/api/baggage.cpp:398-426 | an admitted entry keeps the keys unique and all three limits |
| `Baggage.FromHeaderIsBaggage` | src/api/baggage.cpp:428-481 | whatever the header: unique token keys, at most 180 members of at most 4096 bytes, exact lengths, at most 8192 bytes in all |
| `Baggage.ParseMembers` | src/api/baggage.cpp:428-456 | the parsing loop with its running total computes what the header means |
| `Baggage.ToHeader` | src/api/baggage.cpp:483-508 | the printing loop computes the header |
| `Baggage.HeaderFits` | src/api/baggage.cpp:379-392 | the header is as long as SerialisedSize says, and at most 8192 bytes |
| `Baggage.HeaderRoundTrip` | src/api/baggage.cpp:473-508 | reading a written header gives the same baggage |
| `Baggage.MemberIsolation` | src/api/baggage.cpp:327-456 | a comma-free member that is blank, malformed or too long, inserted between two parts of any header, never changes what it means |
| `Baggage.HeaderPadding` | src/api/baggage.cpp:428-437 | spaces and tabs around any part of any header do not change what it means |
| `Baggage.HeaderMemberPadding` | src/api/baggage.cpp:327-347 | nor do they around the key and the value of a member |
| `Baggage.HeaderPropertyPadding` | src/api/baggage.cpp:254-308 | nor around a property, that is, around any `;` |
| `Baggage.PropertyValuePadding` | src/api/baggage.cpp:254-289 | nor around the name and the value of a property |
| `Baggage.HeaderStopsAtLimit` | src/api/baggage.cpp:405-456 | a new member that would be the 181st or take the header past 8192 bytes ends it: nothing after it counts |
| `Baggage.FirstMemberWins` | src/api/baggage.cpp:405-456 | of two members with one key the first wins: a later one never changes what the header means |
| `Baggage.EraseKeepsOrder` | src/api/baggage.cpp:570-590 | exactly the one entry goes and the others stay in order |
| `Baggage.SetIsBaggage` | src/api/baggage.cpp:526-568 | keeps every invariant; an accepted value is there, in place or at the end, no other entry changes and none moves; a refused one changes nothing |
| `Baggage.SetRefusedExactly` | src/api/baggage.cpp:526-562 | refused, and then unchanged, exactly for a key that is no token, a 181st key, a member over 4096 bytes or a header over 8192, measured on what would be written |
| `Baggage.EraseIsBaggage` | src/api/baggage.cpp:570-590 | keeps every invariant; the key is gone and no other entry changes |
| `Baggage.EraseEntry` | src/api/baggage.cpp:570-590 | the erasing loop keeps the other entries in order |
| `Baggage.ReachableRoundTrip` | src/api/baggage.cpp:473-590 | every baggage reachable through FromHeader, Set and Erase keeps the limits, has a header of the cached length, and survives a round trip |
| `TraceState.KeysAreAsSpecified` | src/api/trace_state.cpp:62-148 | a valid key is exactly a simple key of at most 256 characters, or a tenant of at most 241 and a system of at most 14 around an `@` |
| `TraceState.ValuesAreAsSpecified` | src/api/trace_state.cpp:73-169 | a valid value is exactly 1 to 256 printable characters other than `,` and `=`, the last no space |
| `TraceState.OneTenantSeparator` | src/api/trace_state.cpp:137-148 | a valid key holds at most one `@` |
| `TraceState.MemberRoundTrip` | src/api/trace_state.cpp:212-227 | a written member is parsed back, leading spaces of its value included |
| `TraceState.ParseIsInverse` | src/api/trace_state.cpp:212-227 | what was parsed is written back as it stood |
| `TraceState.FromHeaderIsState` | src/api/trace_state.cpp:234-274 | whatever the header: at most 32 unique grammar-valid entries |
| `TraceState.VoidedExactlyWhen` | src/api/trace_state.cpp:229-274 | the result is empty exactly when there is no member, a bad one, a repeated key or a 33rd member |
| `TraceState.HeaderPadding` | src/api/trace_state.cpp:234-247 | spaces and tabs around any part of any header do not change what it means |
| `TraceState.BlankIsSkipped` | src/api/trace_state.cpp:241-244 | a blank part is skipped wherever it stands |
| `TraceState.ParseMembers` | src/api/trace_state.cpp:234-259 | false exactly when the members are not acceptable together, else all of them in order |
| `TraceState.Parse` | src/api/trace_state.cpp:263-274 | the header's meaning, all or nothing |
| `TraceState.ToHeader` | src/api/trace_state.cpp:276-295 | the printing loop computes the header |
| `TraceState.HeaderRoundTrip` | src/api/trace_state.cpp:263-295 | reading a written header gives the same list in the same order |
| `TraceState.OnlyEmptyIsBlank` | src/api/trace_state.cpp:276-295 | only the empty state is written as an empty header |
| `TraceState.AppendExcept` | src/api/trace_state.cpp:194-207 | the other entries are appended in order |
| `TraceState.Set` | src/api/trace_state.cpp:323-341 | refused and unchanged, or the entry leads the list with the others in their old order |
| `TraceState.Erase` | src/api/trace_state.cpp:343-361 | the entry is gone and the others keep their order |
| `TraceState.Reach` | src/api/trace_state.cpp:263-361 | every state reachable through FromHeader, Set and Erase is well formed and survives a round trip |
| `Propagator.HexRoundTrip` | src/api/trace.cpp:25-50 | bytes printed as lower-case hex are read back |
| `Propagator.HexIsCanonical` | src/api/propagator.cpp:83-110 | lower-case hex that was read is printed back character for character |
| `Propagator.BytesToLowerHex` | src/api/trace.cpp:38-50 | the printing loop computes the hex text |
| `Propagator.ParseLowerHexBytes` | src/api/propagator.cpp:87-110 | true exactly for lower-case hex of the right width, and then the array holds its bytes |
| `Propagator.HasParsableShape` | src/api/propagator.cpp:112-160 | separators, version and trailing-field rules, exactly |
| `Propagator.ParseTraceparent` | src/api/propagator.cpp:165-196 | accepted exactly when shape, hex fields and non-zero ids are right, with the parent the fields stand for |
| `Propagator.FormatTraceparent` | src/api/propagator.cpp:203-218 | the canonical version-00 header |
| `Propagator.TraceparentRoundTrip` | src/api/propagator.cpp:165-218 | every valid context is printed as an accepted header that means it |
| `Propagator.ReprintedExactly` | src/api/propagator.cpp:165-218 | an accepted header is reprinted with version 00 and without later fields; it comes out unchanged exactly when its version was 00 |
| `Propagator.LaterVersions` | src/api/propagator.cpp:121-136 | a version-00 header stays accepted with the same meaning under any later version but ff, with or without further fields |
| `Propagator.Rejected` | src/api/propagator.cpp:121-160 | what is too short, of version ff, of version 00 with more behind it, or goes on without a separator is refused |
| `Propagator.Inject` | src/api/propagator.cpp:233-249 | the traceparent header, and tracestate unless it is empty; nothing for an invalid context |
| `Propagator.Extract` | src/api/propagator.cpp:251-280 | the context the carrier's headers stand for |
| `Propagator.ExtractIsDefaultOrRemote` | src/api/propagator.cpp:251-280 | either the default invalid context or a valid remote one with a well-formed trace state |
| `Propagator.ContextRoundTrip` | src/api/propagator.cpp:233-280 | extracting after injecting gives the context back as remote exactly when it has a trace state or the carrier had none to leave behind |
| `Propagator.StaleStateSurvives` | src/api/propagator.cpp:233-249 | a carrier for which it does not: `a=1` left behind comes out with a context that has no trace state |
| `Propagator.FreshCarrierRoundTrip` | src/api/propagator.cpp:233-280 | from an empty carrier it always does |
| `Propagator.InjectWritesTwo` | src/api/propagator.cpp:233-249 | the two headers are written, tracestate only if there is a state, and no other changes |
| `Propagator.InvalidIsNotInjected` | src/api/propagator.cpp:233-238 | an invalid context leaves the carrier alone |
| `ScopedContext.ScopedContext.constructor` | src/api/context.cpp:30-34 | installs the context and keeps the one it displaced |
| `ScopedContext.ScopedContext.Moved` | src/api/context.cpp:36-39 | the new scope takes over and the old one is disarmed |
| `ScopedContext.ScopedContext.Destroy` | src/api/context.cpp:41-47 | an armed scope puts back what it displaced; another does nothing |
| `ScopedContext.StepKeeps` | src/api/context.cpp:25-47 | each install, move and disciplined destruction keeps slot and scopes in agreement with the stack |
| `ScopedContext.CurrentIsInnermost` | src/api/context.cpp:25-47 | over every disciplined run the current context is the innermost live one, and the original is back when no armed scope is left |
| `ScopedContext.InertDiesQuietly` | src/api/context.cpp:41-47 | an inert or moved-from scope may die at any time without effect |
| `ScopedContext.OutOfOrder` | include/microtel/context.hpp:93-97 | a scope that dies out of order leaves what it had displaced, which is right exactly when it is the innermost survivor's context |
| `ScopedContext.Thread.Perform` | src/api/context.cpp:30-47 | the scope objects follow the steps |
| `ScopedContext.RunProgram` | src/api/context.cpp:25-47 | running any disciplined program on scope objects ends with the innermost context current |
| `LogSink.SanitizedIsClean` | src/common/log_sink.cpp:144-187 | no control octet but tab is in an escaped message |
| `LogSink.CleanIsUnchanged` | src/common/log_sink.cpp:144-187 | a message without control octets is written as it stands |
| `LogSink.PrefixIsSpelled` | src/common/log_sink.cpp:274-280 | a line begins with `[microtel ` and its tag is closed by `] ` |
| `LogSink.TagsAreNames` | src/common/log_sink.cpp:82-98 | the names of the levels, and ? for any other value |
| `LogSink.EscapesAreReadable` | src/common/log_sink.cpp:165-187 | line feed and carriage return are spelled, every other control octet but tab is its two hex digits |
| `LogSink.EscapesDiffer` | src/common/log_sink.cpp:165-187 | different octets are escaped differently |
| `LogSink.OneCleanLine` | src/common/log_sink.cpp:272-283 | a line ends in its only line end and has no other control octet but tab |
| `LogSink.FallbackLineWriter.Put` | src/common/log_sink.cpp:126-134 | one octet is appended, flushing a full buffer first |
| `LogSink.FallbackLineWriter.Flush` | src/common/log_sink.cpp:155-162 | what is buffered goes out in one write; what has been put so far is unchanged |
| `LogSink.FallbackLineWriter.PutText` | src/common/log_sink.cpp:136-142 | the text is appended |
| `LogSink.FallbackLineWriter.PutSanitizedChar` | src/common/log_sink.cpp:165-187 | the escaped octet is appended |
| `LogSink.FallbackLineWriter.PutSanitized` | src/common/log_sink.cpp:147-153 | the escaped text is appended |
| `LogSink.WriteLine` | src/common/log_sink.cpp:274-283 | the writes add up to prefix, escaped message and one line end, whatever the length; all but the last fill the buffer, so a line that fits is one write |
| `LogSink.LineEndsPiece` | src/common/log_sink.cpp:116-118 | a record adds exactly one line to whatever was written before |
| `LogSink.WrittenFromMinimum` | src/common/log_sink.cpp:243-248 | a record is written exactly when its level is the minimum or above |
| `LogSink.LogAll` | src/common/log_sink.cpp:243-283 | over any run of records the lines of stderr are exactly the records that pass the minimum level, in order: none can forge another |

## Left out

- microtel_leaf_init: NULL arguments, structure sizes, and the pairing of scratch memory with its size are not modelled; microtel_leaf_free, clock_sync and get_counters are not modelled either (a sync is a parameter of the size bound).
- microtel_leaf_encode: the two backends, over nanopb and upb, are replaced by a reference encoder and a result that the backend returns; partial output of a failed encode is not modelled.
- LeafSize.EncodedSize: computes in unbounded integers; the value stays below 2^33 + 512, so a 64-bit size_t cannot overflow, but a 32-bit one could on a buffer above 2 GiB.
- LeafSpec.DropsAreReported: from 2^32 drops of a kind on the sums agree only up to wraps, because the counters are 32 bits wide.
- IdMixing.Generator.NewSpanId: the random source is the stuck one for which the bounds are promised; with an adversarial source the loop has no bound. The FNV hash that yields the device key is not modelled.
- Leaf.Leaf.Start: ids and the clock reading are arguments, so the draw counter is not part of the leaf's abstract state.
- ExportWorker: liveness, timeouts and real time (a wait may time out at any step); exceptions and allocation failure; the retry engine, encoding and sending inside FanOutAndProcess, which is one step here; running totals are unbounded integers.
- ExportWorker.Exporter.TakeQueue: the worker's thread is not a method, because its lock is released in the middle; the step system is what connects its critical sections.
- RequestGrouping.GroupIntoRequests: span counts and encoded sizes are given as two lists; adding them up does not overflow.
- Baggage.Get and TraceState.Get: shared ownership of the entry lists and the null pointer that stands for an empty one are not modelled; a list is a value.
- W3CBaggagePropagator, a thin carrier around the baggage header: it would only add easy members.
- Propagator.Inject: the carrier is a map from header name to value; a carrier that renames, merges or drops headers is outside the model, and so is an empty callback.
- ScopedContext.RunProgram: one thread; a program that destroys scopes out of order is covered by ScopedContext.OutOfOrder for its first such step only.
- LogSink.LogAll: application sinks, the sink mutex, changes of the minimum level during a run, and write errors.
- The metric and log exporters, the samplers, the batch processor, the retry policy and the leaf receiver are not modelled; the first two repeat the flush protocol without its span budget and grouping.
