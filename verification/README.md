# libuvc: a Dafny model

libuvc drives USB Video Class cameras through libusb. This project models its hardest parts and proves
what they are for: that teardown never frees what libusb can still call back into, leaks only what it
must and always returns, that a close gives every interface back and a crash leaves every kernel driver
repairable, that frames come out of the payload stream whole and in order, that the
descriptor lists are what the descriptor bytes say and that negotiation picks from them correctly, that the
linked lists underneath are kept and sorted properly, and that the colour conversions compute what they
should. `dafny verify dfyconfig.toml` checks everything.

## How it is built

**Teardown and lifetime.** Four threads (API, libusb event thread, user callback, handler thread) and the
kernel are a labelled transition system: `Legal(s, a)` says when a step can be taken, `Exec(s, a)` what it
does, a run is a sequence of actions, and every theorem is about every run, so about every interleaving.
Critical sections are single steps; everything outside a mutex is a step of its own, the bare read of
`running` in the stream callback included.

- `Runs`: runs of a transition system, inductive invariants, properties that stay true.
- `StatusTransfer`: the status interrupt transfer, statement by statement.
- `StreamTransfers`: the transfers of one stream through start, callbacks, stop and close.
- `Lifetime`: any number of devices and streams of a context, each carrying the two protocols above, with
  the quarantine flags, the list of open devices and the handler thread.
- `StreamProgress`: what the calls on a stream still do, and that they get on.
- `Quarantine`: exactly when a stream, a device and the context are kept back, and that nothing else is.
- `Returns`: no call of the whole system is ever stuck, and each can return from every reachable state.
- `InterfaceRelease`: what is still in flight when an interface is released, in the same system.
- `Interfaces`: claim, release and close of a device handle as a class over the library's and the kernel's
  state, with a history of every effect and a log of every libusb call, and the helper process that repairs
  after a crash.

**Frames.** `Payload` is the reassembly as a pure state machine with its conservation law and round trip;
`FrameSplit` tells every published frame from the payloads that make it up, metadata and time stamps included;
`StreamBuffers` is the stream handle with its two buffers and in-place updates, proved to follow it;
`Delivery` is the user callback thread against the event thread, as a transition system over the published
frames, up to what the callback is called with.

**Descriptors.** `Descriptors` (records and the repair), `FormatLists` (the linked lists of
formats and frames on the heap), `DescriptorLayout` (the
descriptors as bytes, and that the parsers read them back), `Scan` (blocks and their pure grouping),
`ScanRoundTrip` (a whole interface written out and scanned back),
`StreamingInterface` (the scanning loop and the in-place lists), `Catalog` and `Negotiation` (lookup and
search), `Probe` (the control block and the probe), `ByteOrder`.

**Lists.** `UtList` has the macros on a heap of nodes, `UtListSort` the in-place merge sort loop by loop,
`MergeSort` the same sort on sequences with its order theory.

**Colours.** `Yuv`: the fixed-point macros, the unrolled loops over arrays, whole frames.

`SeqFacts` and `Usb` hold shared definitions.

## Where code and documentation differ

The model follows the code. For each difference it is proved when the documentation is right and what holds otherwise.

- `include/libuvc/libuvc_internal.h:306-308` says a frame with errors is never delivered. Only the broadcast is
  skipped: `Delivery.ErroredNotDelivered`, `Delivery.ErroredDelivered`, `Delivery.ErroredDeliveredAfterRetire`,
  and exactly when a frame is delivered, `Delivery.DeliveredIffLooked`.
- `src/stream.c:1478-1484` says a short frame is zero-filled to its full size. It is if and only if the previous
  `data_bytes` was short too: `StreamBuffers.PaddedIff`, `StreamBuffers.ShortFramesAlternate`.
- A stream started again keeps `hold_seq`, the hold buffers and pending bytes (`src/stream.c:1179-1184`): the calls of a
  start are for its own frames if and only if it finds no frame held from before (`Delivery.OfThisRunIff`,
  `Delivery.RestartSkipsFrame`), and its frames come out as sent behind what was left pending
  (`Payload.RoundTripFrom`, `Payload.LeftOverGoesFirst`).
- `kill_handler_thread` is set at `src/device.c:2176` and never cleared, so a device opened after the last one was
  closed has no one handling its events: `Lifetime.ServedIffNeverClosedLast`, `Lifetime.ReopenedDeviceUnserved`.
- `include/libuvc/libuvc_internal.h:244-249` says a stop gives up after five consecutive timeouts; `src/stream.c:1676-1681`
  counts all of them. A stop gives up if and only if five of its waits timed out (`StreamTransfers.TimedOutIff`), and
  these were consecutive if and only if no wake-up came after one of them (`StreamTransfers.ConsecutiveIff`);
  `StreamTransfers.GivesUpWithoutFiveInARow` is a run in which they were not.
- `src/device.c:2118-2120` says an interface with a quarantined stream's URB in flight cannot be released. A second
  stream opened on that interface (`src/stream.c:1051` looks only at listed streams) releases it when it is closed:
  `InterfaceRelease.ReleasedUnderQuarantined`. That is the only way: `InterfaceRelease.ReleasedInterfaceIsQuiet`,
  `InterfaceRelease.ReleasedDeviceIsQuiet`.
- A frame without metadata leaves the previous frame's metadata in place: `StreamBuffers.StreamHandle.PopulateMeta`.
- `uvc_stream_start` overwrites the slots, so it must not follow a stop that timed out:
  `StreamTransfers.RestartAfterTimeoutLosesSlot`, and exactly when it is safe, `StreamTransfers.AllocKeepsSlotsIff`.
- The repair of a zero buffer size computes in 32 bits and can yield 0 again for a format with bits per pixel:
  `Descriptors.RepairedSizeIsZeroIff`, `Descriptors.WrappedSizeIsZero`.
- A control transfer of no bytes is taken as success: `Probe.ProbeMeets`. A probe with a requested payload of 0 is
  refused by the descriptor's own value: `Probe.EchoProbeSucceedsIff`.

## Model

| member | source | states |
|---|---|---|
| `StatusTransfer.NoSubmitOnceStopping` | src/device.c:1988-2034 | in every interleaving, once stopping is set no status URB is submitted |
| `StatusTransfer.StopIsFinal` | src/device.c:2022-2034 | once the stop has returned 1, whatever cancel reported, the URB is with nobody and no callback or kernel step on the handle follows |
| `StatusTransfer.NoSubmitAfterRelease` | src/device.c:2345-2400 | no status URB is submitted during or after the release of the control interface, on any path |
| `StatusTransfer.DrainBounded` | include/libuvc/libuvc_internal.h:258-268 | the drain polls at most 250 times and gives up only after all of them |
| `StatusTransfer.NotFoundIsNotDone` | src/device.c:2003-2033 | a run in which cancel reports NOT_FOUND and the callback has still to run, which is why the wait does not trust it |
| `StatusTransfer.InvKept` | src/device.c:379-414 | every step of open, callback, stop, release and free keeps the protocol's invariant on mutex, flags and owner |
| `StatusTransfer.KeepsPolling` | src/device.c:2345-2400 | until a stop begins the URB stays with libusb or in its callback but for a terminal status or a refused submit, and every accepted submit puts it in flight |
| `StatusTransfer.SubmitIff` | src/device.c:2390-2398 | the URB is in flight if and only if a submit was accepted and it has not completed since |
| `StatusTransfer.StopIsBounded` | src/device.c:1988-2034 | once a stop has set its flag every schedule of all threads is finite: each step leaves less to do |
| `StatusTransfer.NeverStuck` | src/device.c:1988-2034 | in every reachable state the API thread can go on, or the callback that holds the mutex can |
| `StatusTransfer.CallbackGoesOn` | src/device.c:2345-2400 | a callback that has begun can go on unless the API thread holds the mutex |
| `StatusTransfer.ReturnsWhatItSaw` | src/device.c:2022-2034 | a stop returns 1 if and only if the URB was not submitted at its last look |
| `StatusTransfer.OpensHonestly` | src/device.c:379-414 | an open succeeds with a status transfer if and only if its submit was accepted, and fails only if it was not |
| `StreamTransfers.FindSlot` | src/stream.c:918-930 | the search stops at the first slot that names the transfer, or at the slot count |
| `StreamTransfers.FreedAtMostOnce` | src/stream.c:842-957 | in every run each transfer is freed at most once |
| `StreamTransfers.OutstandingHasSlot` | src/stream.c:1302-1365 | a transfer that libusb owns or whose callback can still touch the stream has a slot |
| `StreamTransfers.StartSeesItsOwn` | src/stream.c:1335-1365 | the submit and free loops of a start meet only transfers of this start |
| `StreamTransfers.RunningKeepsTransfers` | src/stream.c:910-931 | a transfer of a running stream is given up only for a terminal status, a refused submit or a start that frees its rest; every other completion ends with it on its way back to the kernel |
| `StreamTransfers.FreedForAReason` | src/stream.c:876-931 | those frees are reached only by a terminal status or a refused submit, and an accepted resubmission is in flight again |
| `StreamTransfers.StopOkIsClean` | src/stream.c:1644-1696 | a stop that returns success leaves no transfer, callback or user thread behind |
| `StreamTransfers.CloseFreesOnlyUnreachable` | src/stream.c:1712-1780 | from the decision to free the handle on, nothing but the release of the interface and that free happens to it |
| `StreamTransfers.StopStepDecreases` | src/stream.c:1644-1682 | in the stop loop every step of every thread lowers a lexicographic measure of callback work, timeouts and loop position |
| `StreamTransfers.StopEnds` | src/stream.c:1644-1682 | every infinite schedule that enters the stop loop leaves it |
| `StreamTransfers.CountsTimeouts` | src/stream.c:1644-1682 | the counter of a stop is the number of its waits that timed out, wake-ups or not |
| `StreamTransfers.TimedOutIff` | src/stream.c:1676-1681 | a stop returns the timeout error if and only if five of its waits timed out |
| `StreamTransfers.ConsecutiveIff` | include/libuvc/libuvc_internal.h:244-249 | the five timeouts of a stop that gave up were consecutive if and only if no wake-up came after one of them |
| `StreamTransfers.GivesUpWithoutFiveInARow` | src/stream.c:1676-1681 | a run in which a stop gives up although a late frame woke it between the timeouts |
| `StreamTransfers.AllocKeepsSlotsIff` | src/stream.c:1302-1330 | putting a new transfer into a slot keeps every live transfer in a slot if and only if that slot was empty |
| `StreamTransfers.RestartAfterTimeoutLosesSlot` | src/stream.c:1304-1304 | a run in which a restart after a timed-out stop leaves a transfer in flight without slot |
| `StreamProgress.CallbackThreadLives` | src/stream.c:1335-1337 | a stream started with a callback has its thread while it runs, and a stop joins it exactly when there is one, once it has exited |
| `StreamProgress.SubmitsInOrder` | src/stream.c:1339-1365 | each accepted submit of a start puts the transfer of the next slot in flight; after a refused one each slot that is left is freed and emptied |
| `StreamProgress.StartSubmitsAll` | src/stream.c:1302-1346 | a start of n transfers whose submits are not refused has made n submits when it is through |
| `StreamProgress.PayloadsIff` | src/stream.c:847-908 | the packets of a completion are processed if and only if it completed without error |
| `StreamProgress.StopOkIff` | src/stream.c:1644-1696 | a stop returns success if and only if its last look found every slot empty, and the timeout error otherwise |
| `StreamProgress.QuarantinesIff` | src/stream.c:1722-1757 | a close quarantines its stream if and only if, when it looks, some transfer is with the kernel or in its callback |
| `StreamProgress.CallGetsOn` | src/stream.c:1644-1696 | every step of a start, stop or close leaves fewer to make, or is a wake-up that lowers the measure of what can wake it |
| `StreamProgress.NeverStuck` | src/stream.c:1685-1693 | in every reachable state a start, stop or close can go on, or joins a callback thread that is free to exit |
| `Lifetime.StreamNeverFreedInUse` | src/stream.c:1705-1780 | in every interleaving a stream that libusb or its user thread can still reach is not freed, nor its device, nor the context |
| `Lifetime.DeviceNeverFreedInUse` | src/device.c:2076-2190 | the same for a device handle whose status transfer is not quiet |
| `Lifetime.NoStepTouchesFreed` | src/device.c:2089-2190 | at every step of every thread, API steps included, the context is live, and so are the device and the stream the step works on |
| `Lifetime.QuarantineIsForever` | src/stream.c:1739-1760 | a quarantined stream stays allocated, with its device and the context, in every later state |
| `Lifetime.AtMostOneHandler` | src/device.c:416-428 | never two handler threads of a context that are created and not joined, and none once the context is freed |
| `Lifetime.JoinMatchesCreate` | src/device.c:2174-2181 | each join is of the one thread created and not joined before |
| `Lifetime.QuarantineFreezesHandler` | src/device.c:2157-2181 | once the context is quarantined no step creates, kills or joins a handler thread, and the context is never freed |
| `Lifetime.KillIsHistory` | src/device.c:2174-2178 | the kill flag is set if and only if some earlier close was that of the last device |
| `Lifetime.ServedIffNeverClosedLast` | src/init.c:151-188 | with a device open, events are being handled if and only if no earlier close was that of the last device |
| `Lifetime.ReopenedDeviceUnserved` | src/device.c:416-428 | a run open, close, open that ends with an open device and no running handler |
| `Lifetime.InvKept` | src/init.c:138-175 | every step keeps the invariant tying lists, quarantine flags, threads and program counters |
| `Quarantine.StreamFlagIff` | src/stream.c:1739-1757 | in every run has_quarantined_stream is set if and only if a stream of the device was unlinked with transfers pending |
| `Quarantine.QuarantinedIff` | src/device.c:2085-2150 | a close quarantines its device if and only if a stream of it was left pending or its status transfer did not stop, and changes nothing but its own position otherwise |
| `Quarantine.ContextFlagIff` | src/device.c:2131-2148 | has_quarantined_device is set if and only if some close decided to quarantine |
| `Quarantine.ExitFreesIff` | src/init.c:138-175 | uvc_exit frees the context if and only if none of its closes quarantined a device |
| `Quarantine.NothingLeaked` | src/init.c:138-175 | when the context is freed every device, stream and transfer has been freed and every handler thread joined |
| `Returns.FitsKept` | src/device.c:2076-2190 | every step keeps each handle where the call under way says: a listed device is open and a linked stream idle, unless the call works on it |
| `Returns.NeverStuck` | src/device.c:2076-2190 | no deadlock of the whole system: whenever a call is under way its next step can be made, or the one step of another thread it waits for can |
| `Returns.CallStepLess` | src/init.c:138-175 | every step of a call but the wake-up of a wait lowers a lexicographic measure over devices, stages, streams and steps |
| `Returns.CanReturn` | src/device.c:2076-2190 | from every reachable state the call under way can return with its own steps and those it waits for, whatever transfers hang |
| `Returns.ReturnedIsDone` | src/device.c:2076-2190 | a call that has returned has done its job: an opened device is listed or freed again, a closed stream unlinked and freed or quarantined, a closed device off the list without streams and freed or quarantined, and after uvc_exit no device is open and the context is freed unless quarantined |
| `InterfaceRelease.ReleasedInterfaceIsQuiet` | src/stream.c:1731-1762 | when the close of a stream releases its interface that stream is quiet, and another stream of the interface can be reached if and only if it is quarantined with an outstanding transfer |
| `InterfaceRelease.ReleasedDeviceIsQuiet` | src/device.c:2131-2150 | when uvc_close releases what is still claimed neither the status transfer nor any transfer of any stream of the device is in flight |
| `InterfaceRelease.ExclusiveAt` | src/stream.c:1051-1054 | in every run no two streams that are open, or about to release, have the same interface of a device; quarantined streams are not counted |
| `InterfaceRelease.ReleasedUnderQuarantined` | src/stream.c:1051-1054 | a run in which a stream opened on the interface of a quarantined one releases it under transfers in flight |
| `Interfaces.DeviceHandle.ClaimIf` | src/device.c:1044-1111 | a successful claim has taken the driver off the interface, with exactly the libusb calls of the source in their order; a guard stays, and a handle guarded so far is still guarded if there is a guard: at every effect all that is taken is armed; on failure the interface is back with the kernel or still armed; other interfaces are untouched |
| `Interfaces.DeviceHandle.GiveBack` | src/device.c:1092-1110 | the interface is disarmed exactly on the outcomes that mean the kernel has it back, and nothing else changes |
| `Interfaces.DeviceHandle.ReleaseIf` | src/device.c:1121-1162 | an interface not claimed is left alone; otherwise one release and, if it succeeds, one reattach, in that order; a release that is handed back leaves the interface neither taken nor armed and its driver bound again, any other leaves both as they were |
| `Interfaces.DeviceHandle.Arm` | src/device.c:1022-1042 | arming adds one interface to the record of a guard, and records nothing without one |
| `Interfaces.DeviceHandle.Disarm` | src/reattach_guard.c:323-330 | disarming removes one interface; one that is taken is exposed from then on |
| `Interfaces.DeviceHandle.ReleaseClaimedIfs` | src/device.c:2054-2066 | releases every claimed interface in ascending order, control last; those whose release failed stay claimed |
| `Interfaces.DeviceHandle.CloseStream` | src/stream.c:1739-1762 | a stream with pending transfers keeps its interface and marks the handle, any other releases it |
| `Interfaces.DeviceHandle.StopStreaming` | src/stream.c:1608-1614 | the releases are exactly those of the cleanly closed streams, in order; the handle is marked if and only if it was or one is pending; everything else keeps its claim and its arming |
| `Interfaces.DeviceHandle.Close` | src/device.c:2076-2150 | quarantines if and only if a stream is or was left pending or the status transfer did not stop, and then releases nothing more |
| `Interfaces.ReleaseOrderIs` | src/device.c:2054-2066 | the release order lists each claimed interface exactly once with the control interface last |
| `Interfaces.CleanCloseReleasesEachOnce` | src/device.c:2080-2150 | a clean close whose releases succeed releases each claimed interface once, orphans included, nothing else, control last, and leaves none claimed |
| `Interfaces.CleanCloseGivesAllBack` | src/device.c:1138-1157 | if the reattaches succeed too, every interface that was claimed is bound to its driver again, not taken and not armed |
| `Interfaces.ControlReleasedLast` | src/device.c:2054-2066 | the control interface is the last release call whether or not releases succeed |
| `Interfaces.ReattachArmed` | src/reattach_guard.c:126-162 | the helper rebinds exactly the armed interfaces whose EBUSY clears in 80 tries, tries each as often as needed, and makes no call for a disarmed one |
| `Interfaces.CrashAtAnyStep` | src/device.c:1022-1162 | on a handle with a guard before its first detach: after a crash at any effect all that is taken is armed, the helper rebinds it, and the disarmed interfaces are left alone |
| `Interfaces.CrashUnguarded` | src/device.c:1034-1038 | where a guard could not be started for some detach, everything else that is taken is still rebound |
| `Interfaces.DeviceHandle.Use` | src/device.c:1044-1162 | over any sequence of claims, releases and stream closes from a fresh handle on, the handle is guarded unless some driver was taken while there was no guard, and it is marked if and only if a stream was left pending |
| `Payload.NothingLostOrInvented` | src/stream.c:766-831 | for every input published frames plus pending bytes are exactly the accepted, clipped bodies in order |
| `Payload.EverySwap` | src/stream.c:678-711 | each swap has the next sequence number, fits its buffers, and is broadcast if and only if nothing since the previous swap was in error |
| `Payload.RoundTrip` | src/stream.c:723-832 | frames cut into payloads in any way come out exactly and in order, at most the last one pending |
| `Payload.RoundTripFrom` | src/stream.c:723-832 | the same for any later start of the stream that finds no image data pending |
| `Payload.LeftOverGoesFirst` | src/stream.c:1179-1184 | image data left pending by an earlier start goes in front of the first frame of the next |
| `Payload.RunNumbers` | src/stream.c:1179-1184 | in every start of the stream the k-th published frame has sequence number 1 + k |
| `Payload.HeaderRoundTrip` | src/stream.c:766-826 | parsing a header recovers the flags, time stamps, metadata and body it was built from |
| `Payload.BadLength` | src/stream.c:734-768 | a payload is ignored if and only if it is empty or its header longer than it, and one with a header of less than two bytes is image data |
| `Payload.ErrorBit` | src/stream.c:774-778 | a payload with the error bit set contributes that and nothing else |
| `Payload.TruncatedHeader` | src/stream.c:789-811 | a header cut off anywhere keeps its flags and the stamps that are whole; a stamp that is not reads as 0 |
| `Payload.IsightIs` | src/stream.c:746-764 | an iSight payload is all image data unless it carries the tag, and a tagged one has none |
| `FrameSplit.FramesAreGroups` | src/stream.c:766-831 | for every input the published frames are those of the groups its payloads fall into: image data and metadata cut to their buffers, and the last time stamps |
| `FrameSplit.GroupsPartition` | src/stream.c:723-832 | the groups and what is pending are all contributing payloads, in order, none twice |
| `FrameSplit.GroupsAreFrames` | src/stream.c:784-831 | a group ends with the payload that completes its frame or in front of the next frame ID, never without a reason and never later |
| `StreamBuffers.StreamHandle.SwapBuffers` | src/stream.c:678-711 | the two buffers change places, the fields move to the hold side, and the broadcast is made if and only if there was no error |
| `StreamBuffers.StreamHandle.ProcessPayload` | src/stream.c:723-832 | the handle after any payload is the state machine's, both buffers still distinct |
| `StreamBuffers.StreamHandle.SkipBadPacket` | src/stream.c:862-866 | a bad packet only marks the frame |
| `StreamBuffers.StreamHandle.ProcessPackets` | src/stream.c:856-874 | the packets of a transfer are taken in order |
| `StreamBuffers.StreamHandle.PopulateData` | src/stream.c:1478-1508 | the user's frame is the whole held frame followed by zero bytes only, within its allocation |
| `StreamBuffers.StreamHandle.PopulateMeta` | src/stream.c:1510-1518 | metadata is that of the held frame, or the previous one's when it has none |
| `StreamBuffers.StreamHandle.Populate` | src/stream.c:1431-1519 | the frame handed to the user is one whole published frame: data, sequence number and metadata, in its own arrays, so it can be filled again |
| `StreamBuffers.PaddedIff` | src/stream.c:1478-1506 | the shortfall is zero-filled if and only if the frame is full or the previous one was short |
| `StreamBuffers.DataBytesIs` | src/stream.c:1485-1506 | the size is that of the held frame or the full one, never that of an earlier frame |
| `StreamBuffers.ShortFramesAlternate` | src/stream.c:1485-1506 | of two equally short frames after a full one only the second is padded |
| `Delivery.DeliveredInOrder` | src/stream.c:1399-1425 | in every start of the stream and every interleaving the callback is called for frames in the order they were published, none twice, a frame held from before at most as the first, with sequence numbers strictly increasing from there while fewer than 2^32 are published |
| `Delivery.DeliveredWhole` | src/stream.c:1399-1519 | each call shows one whole frame followed only by zero bytes, with its own sequence number |
| `Delivery.DeliveredExactly` | src/stream.c:1478-1518 | in every interleaving a call shows the metadata of the latest delivered frame that had any, and the size that follows from the frames delivered before |
| `Delivery.NoLostWakeup` | src/stream.c:1399-1417 | a thread that waits while a frame without errors is held has delivered that frame or mistaken it for the one held before |
| `Delivery.DeliveredAsSent` | src/stream.c:723-832 | whatever frames were sent and however they were cut and interleaved, each call is for the frame held before or shows the sent frame it is for, whole, then only zero bytes |
| `Delivery.DeliveredIffLooked` | src/stream.c:1399-1425 | a frame is delivered if and only if the callback thread looks before the next one is published and does not mistake it for the one held before |
| `Delivery.OfThisRunIff` | src/stream.c:1399-1417 | whatever the threads do the calls of a start are for frames of that start, if and only if it finds no frame held from before |
| `Delivery.StaleFrameDelivered` | src/stream.c:1179-1184 | in any other start a look before the first frame delivers the frame held from before |
| `Delivery.RestartSkipsFrame` | src/stream.c:1405-1417 | a run in which a frame is looked at and not delivered, because it has the number of the frame held from before |
| `Delivery.ErroredNotDelivered` | include/libuvc/libuvc_internal.h:306-308 | a frame with errors that finds the thread waiting is not delivered while no transfer is retired |
| `Delivery.ErroredDelivered` | src/stream.c:700-703 | a run in which a thread that was not waiting takes a frame with errors |
| `Delivery.ErroredDeliveredAfterRetire` | src/stream.c:700-703 | a run in which a retired transfer wakes the waiting thread to a frame with errors |
| `UtList.Prepend` | include/utlist.h:384-394 | the node is in front of the list, links and head-prev-is-tail kept |
| `UtList.Append` | include/utlist.h:396-408 | the node is behind the list, links and head-prev-is-tail kept |
| `UtList.Delete` | include/utlist.h:410-425 | the list without that node, links kept, and the node's own pointers still as they were |
| `UtList.Drain` | include/utlist.h:431-433 | safe iteration that removes and gives back each node visits every node once in order and leaves the list empty |
| `UtListSort.MergeRuns` | include/utlist.h:127-144 | the inner loop appends exactly the stable merge of the two runs and leaves the rest of the list untouched |
| `UtListSort.OnePass` | include/utlist.h:112-147 | one round leaves a whole list that is the pass over runs, and counts one merge if and only if two runs cover it |
| `UtListSort.Sort` | include/utlist.h:100-212 | both sorts end with a list of the same nodes, sorted and stable for any total preorder; the doubly linked one has its prev pointers and tail again |
| `MergeSort.StableSort` | include/utlist.h:100-155 | bottom-up merging yields a sorted, stable permutation for any total preorder |
| `MergeSort.PassDoubles` | include/utlist.h:112-147 | a pass over sorted runs of n leaves sorted runs of 2n |
| `MergeSort.MergeSorted` | include/utlist.h:127-144 | merging two sorted adjacent runs gives a sorted run in the order by comparison and original position |
| `Descriptors.RepairMeets` | src/device.c:1632-1665 | the repair is idempotent, keeps sane descriptors, moves the default interval to the end of the range it overshot, and changes nothing else |
| `Descriptors.ListRepaired` | src/device.c:1648-1664 | of a frame that lists its intervals a default shorter than all becomes the shortest, one longer than all the longest, and any other stays |
| `Descriptors.CompressedSizeIsNotZero` | src/device.c:1636-1642 | without bits per pixel the wrapped 32-bit size of a non-empty picture is never 0 |
| `Descriptors.RepairedSizeIsZeroIff` | src/device.c:1636-1646 | the repaired size is 0 if and only if there is nothing to size or the wrapped product is below one byte |
| `Descriptors.RepairedSizeFits` | src/device.c:1636-1642 | where nothing wraps the repaired size is the picture's bits in whole bytes, or two bytes a pixel |
| `Descriptors.WrappedSizeIsZero` | src/device.c:1637-1639 | 16 bits per pixel at 16384 by 16384 is repaired to 0 |
| `Scan.IntervalsOf` | src/device.c:1769-1780 | n intervals, none 0, then a 0 |
| `DescriptorLayout.FrameRoundTrip` | src/device.c:1671-1788 | the frame parsers read back every field of every descriptor that can be written, in both layouts |
| `DescriptorLayout.FormatRoundTrip` | src/device.c:1527-1615 | the format parsers read back every field they keep, in all three layouts |
| `DescriptorLayout.FormatAcceptedIff` | src/device.c:1562-1565 | a frame-based format block is accepted whole and refused when any of it is cut off |
| `DescriptorLayout.FrameAcceptedIff` | src/device.c:1682-1691 | the same of a frame-based frame block, in both of its forms, once there is a format |
| `DescriptorLayout.IntervalsRoundTrip` | src/device.c:1713-1724 | a written list of intervals is read back with its terminating 0 |
| `DescriptorLayout.InputHeaderRoundTrip` | src/device.c:1510-1522 | the header parser reads back the terminal link, the still method and the endpoint address without its reserved bits |
| `ScanRoundTrip.ScanReadsBack` | src/device.c:1446-1504 | whatever formats and frames an interface has, the scan of its written descriptors refuses no block and ends with exactly these formats, in order, each with its own frames, and the header |
| `Scan.TilingIsUnique` | src/device.c:1483-1500 | the walk steps over the only tiling of the bytes by blocks of declared length |
| `Scan.FormatPlaced` | src/device.c:1527-1615 | formats keep their order and their block's fields |
| `Scan.FramePlaced` | src/device.c:1671-1788 | each frame is under the latest format before it, behind the frames since, repaired for that format |
| `Scan.Shape` | src/device.c:1671-1788 | as many formats as format blocks, and under the last as many frames as frame blocks since |
| `Scan.AddAny` | include/utlist.h:396-408 | appending to the last list, block by block, is the pure grouping of all blocks |
| `FormatLists.DL.Last` | src/device.c:1749-1749 | the prev of the head is the node of the last element |
| `FormatLists.FormatList.AppendFormat` | src/device.c:1547-1547 | a format appended to the doubly linked list, the frames of all others untouched |
| `FormatLists.FormatList.AppendFrame` | src/device.c:1782-1784 | a frame, repaired, appended to the linked list of the last format, and no other list touched |
| `StreamingInterface.ReadIntervals` | src/device.c:1713-1724 | the loop builds the zero-terminated array of the block's intervals with 0 read as 1 |
| `StreamingInterface.Read` | src/device.c:1527-1788 | each parser refuses and reads exactly as specified for its block |
| `StreamingInterface.StreamIf.ParseVs` | src/device.c:1857-1916 | an accepted block is added to the linked lists, a refused one leaves them alone, and it is refused exactly by the frame-based checks |
| `StreamingInterface.StreamIf.Walk` | src/device.c:1483-1504 | the lists are the grouping of the blocks before the first refused one, and the scan succeeds if and only if these tile all the bytes |
| `StreamingInterface.DeviceInfo.ScanStreaming` | src/device.c:1446-1504 | a bad interface index changes nothing; otherwise a record is listed with what was parsed, even after a failure |
| `StreamingInterface.ScanIsDependable` | src/device.c:1713-1731 | every parsed frame has terminated intervals and, without bits per pixel, a buffer size that is not 0 |
| `Catalog.FindDescIsFirst` | src/stream.c:429-470 | the nested lookup finds the first frame of the device with these indices |
| `Negotiation.PickInterval` | src/stream.c:513-541 | the walk ends at the terminating 0 and chooses as specified |
| `Negotiation.WantedIff` | src/stream.c:516-516 | an interval has the wanted rate if and only if a second holds that many of it and no more; 0 takes any, a negative rate none |
| `Negotiation.PickFromFirst` | src/stream.c:513-525 | the first interval of the wanted rate is chosen |
| `Negotiation.PickFromMeets` | src/stream.c:513-525 | no choice if and only if no interval is wanted, and never a division by zero |
| `Negotiation.ContinuousMeets` | src/stream.c:526-541 | in continuous mode an interval is chosen if and only if it is the rate's, in range and on the step grid |
| `Negotiation.UndefinedIff` | src/stream.c:526-533 | a division by zero needs a continuous frame with rate 0, or with step 0 off its minimum |
| `Negotiation.SearchDevice` | src/stream.c:491-546 | the three nested loops try the entries of the device in order |
| `Negotiation.SearchFinds` | src/stream.c:491-546 | the search ends at the first entry of the right format and size that yields an interval, with that entry's indices and interval and the maxima its device reported, having claimed the interface of every eligible one so far |
| `Negotiation.SearchFails` | src/stream.c:491-546 | without such an entry it fails, having claimed the interface of every eligible one |
| `Negotiation.GetStreamCtrl` | src/stream.c:483-551 | without an entry that fits the mode is refused; otherwise the first one is asked for, the call succeeds if and only if transfers and answer allow it, and the block it leaves is the device's answer field by field; the interface of every eligible entry up to there stays claimed |
| `Negotiation.FallbackIsNotZero` | src/stream.c:277-284 | a maximum of 0 is replaced by one that is not, for a frame with a size and no bits per pixel |
| `Probe.DecodeEncode` | src/stream.c:213-272 | decoding an encoded block restores every field of both layouts but the clock, which is the device header's |
| `Probe.SentBlock` | src/stream.c:196-240 | before version 1.10 of the class the 26 common bytes are sent, from it on all 34 |
| `Probe.EncodeDecode` | src/stream.c:213-272 | encoding a decoded block restores the bytes, the clock apart |
| `Probe.EchoRoundTrip` | src/stream.c:196-297 | setting a block and reading it back from a device that keeps it restores it, zero maxima apart |
| `Probe.FixedMaxima` | src/stream.c:276-294 | maxima that are not 0 are kept, a 0 becomes that of the first frame with these indices |
| `Probe.GetMeets` | src/stream.c:196-297 | a GET leaves every field the device sent at its place in the data stage, zero maxima filled in and the clock from the header; a failed one leaves the block and returns its own code |
| `Probe.FullAnswer` | src/stream.c:213-272 | for a full data stage those are the bytes the device sent, padding apart |
| `Probe.ProbeMeets` | src/stream.c:608-644 | a probe succeeds with the requested format and frame and a payload no larger than requested, exactly when the transfers and the device's block allow it; every other field is the device's answer, and a failed transfer's own code is returned |
| `Probe.EchoProbeSucceedsIff` | src/stream.c:608-644 | a device that echoes the block is refused if and only if a requested payload of 0 is filled in from the descriptor |
| `ByteOrder.FromShort` | include/libuvc/libuvc_internal.h:22-26 | two bytes that read back as the value |
| `ByteOrder.FromInt` | include/libuvc/libuvc_internal.h:20-32 | four bytes that read back as the value |
| `Yuv.PixelIsClose` | src/frame.c:142-163 | every channel is within 1.14 of the clamped exact value of the float macro, and less than 0.14 above it |
| `Yuv.Convert` | src/frame.c:164-200 | the unrolled loop writes the pair-by-pair conversion of the whole input |
| `Yuv.PictureIsPixels` | src/frame.c:153-166 | each pixel is computed from its own luma and its pair's chroma |
| `Yuv.ReversedPictures` | src/frame.c:204-253 | a macro that reverses the channels gives the picture with every pixel reversed |
| `Yuv.SwappedPictures` | src/frame.c:335-433 | a macro that reads swapped bytes gives the other's picture of the swapped input |
| `Yuv.Relations` | src/frame.c:204-253 | the BGR macros reverse the RGB ones, and the UYVY macros are the YUYV ones on swapped bytes |
| `Yuv.Frame.EnsureSize` | src/frame.c:42-56 | a buffer of the library's has exactly the needed size afterwards, one of the caller's is left alone and must be large enough |
| `Yuv.Frame.ConvertFrom` | src/frame.c:174-202 | wrong formats and short buffers are refused, otherwise the whole output is the converted input with its description |

## Assumptions

- API calls on one context are serialised; the mutexes give sequential consistency to what they guard.
- A stream is started again only after a stop that did not time out; buffers are at least as large as
  `dwMaxVideoFrameSize`, as they are when the stream was opened with its current block.
- Interface numbers are below 32, and a stream interface is not the control interface.
- The kernel: a hard detach error means the driver is still bound; NOT_FOUND and NOT_SUPPORTED from an attach
  mean there is nothing to give back.
- Condition waits end by a timeout or by a broadcast. The application's callback returns, and the handler thread
  comes out of libusb once its flag is set and the device is closed.
- Allocation succeeds, and fewer than 2^32 frames are published where sequence numbers are compared.

## Left out

- `src/ctrl.c` and the generated control wrappers: one control transfer each.
- `src/frame-mjpeg.c`: libjpeg is not part of this model.
- Device discovery, string descriptors, `uvc_wrap`, diagnostics and the example programs.
- VideoControl descriptors (`uvc_scan_control` and its units): the same walk with easier parsers.
- Still-image descriptors and capture: a still frame block is skipped by the model's parser.
- In-bounds reading by the parsers that do not check lengths: full-length blocks are a precondition (`Scan.Readable`).
- `uvc_stream_get_frame` (the poller) and the choice of an altsetting in `uvc_stream_start`.
- The shared mapping, forking and usbfs calls of the reattach guard: the helper is modelled as running after the owner is gone, on the final record.
- The GUID table of `src/stream.c:84-171`: the search is proved for any test of a GUID.
- The claim and armed masks are sets of numbers below 32 instead of bit masks.
- The lists of streams, devices and streaming interfaces are sequences; `UtList` has their macros on the heap.
- CDL macros, and list macros no file of the repository uses; the sort's counters are unbounded integers.
- Gray conversions of `src/frame.c` and frame duplication: copies of bytes.
- The device's replies in the negotiation are parameters, and a failed claim is not looked at, as in the source.
- Yuv.Frame.ConvertFrom: requires an output of whole rounds of eight pixels with input for each, because the loop writes eight at a time until the output is full.
- StreamingInterface.StreamIf.ParseVs: requires full-length blocks where the parser checks no length, because what it reads otherwise is not defined.
- StreamingInterface.StreamIf.Walk: requires the same of every block it reaches.
- StreamingInterface.DeviceInfo.ScanStreaming: requires the same of the first altsetting's bytes.
