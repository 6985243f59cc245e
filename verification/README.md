# Rockchip HAL models

Dafny models of the stateful parts of the Rockchip Android HALs, with the properties their
callers rely on. `dafny verify dfyconfig.toml` checks all of it.

| file | models |
|---|---|
| `Queues.dfy` | the message queue class: push at the front, pop at the back, a reply slot per id |
| `QueueProtocol.dfy` | the queue's threads as an interleaving of critical sections and condition-variable returns |
| `Stranding.dfy` | which callers can be left waiting |
| `SyncSend.dfy` | what the return of a synchronous send tells its caller |
| `SidebandWindow.dfy` | the sideband window: its handlers, and the buffer protocol between clients, messages and rendering queue on top of `QueueProtocol` |
| `DequeueGuard.dfy` | when `dequeueBuffer` may be called |
| `Shutdown.dfy` | how `release` ends, and that it can |
| `HwMpi.dfy` | the decoder's list of committed frame buffers and its cache of mapped input buffers |
| `Wrappers.dfy` | values that may be missing |
| `Bytes.dfy`, `RknnPool.dfy`, `RknnOutputs.dfy` | tensors in a shared memory pool: offsets, inputs, results, and the buffers allocated for results |
| `Edid.dfy`, `EdidPrinter.dfy` | the CEA-861 audio parser, and a printer it inverts |
| `AudioSettings.dfy`, `SettingsFromEdid.dfy` | the audio settings document, its reconciliation with the display, and the two end to end |
| `TenBit.dfy` | unpacking 10-bit samples |
| `HeapSnap.dfy` | the comparison that heap records are sorted with |
| `Chips.dfy` | recognising the chip from the device tree |
| `Pairs.dfy` | key/value pairs between the media service and its client |

Code that changes state is a class whose methods are proved against functions on values; the
theorems are about those functions, over all inputs or all runs. The two protocols are step
relations: `Enabled` says when a step can happen, `Apply` what it does, `Run` what sequences
of steps are runs. `Disciplined` holds what callers must respect, and nothing else is assumed
of them. Ghost history (tickets, what was sent, what left a queue) is part of the protocol
states only.

## What was found

Where the code does not do what its callers would expect, the code is modelled as it is and
the exact condition is proved.

- `MessageQueue::send` leaves nobody waiting with nothing to come on the id exactly when nobody
  waits at all, or at most one caller waits on an id, each waits on its own message's id, nobody sends once the
  worker is done, and the worker is not stopped while a caller's message is queued
  (`NobodyStrandedIff`). The window keeps to this (`ReleaseNotStranded`).
- `MessageQueue::remove` answers whoever waits on the id, whether or not it removed anything. A
  synchronous return means that the message was handled exactly when at most one caller waits on
  an id, on its own message's, and no id that is sent synchronously is also sent without waiting
  or removed while something is queued; or when nobody waits (`ReturnsAreSafeIff`).
- `MessageQueue::reply`: the guard lets through one id without a slot, mNumReply (`Reply`,
  `GuardIsEnoughIff`).
- `RTSidebandWindow::dequeueBuffer` returns a buffer that is its caller's alone, and stays so,
  exactly when `release` has not been called and no dequeue and no flush request is outstanding
  (`ExclusiveIff`).
- `RockitHwMpi`: a reference is lost for good exactly by a commit of an id that is listed already
  (which reports success), by handing out an unlisted buffer, or by dropping an entry with a
  reference left, as a clear does with buffers that were never given back (`StrandedIff`,
  `SecondCommitLeaksIff`, `DropLeaksIff`, `DropLosesNeverGivenBack`).
- `RockitHwMpi::findDataBuffer` looks at element 0 only, so ids stay distinct exactly when no
  enqueue names a buffer that is listed behind the first (`DistinctAsCodedIff`).
- `rknn_inputs_set` copies every tensor to the base of the pool although it sends running
  offsets; all inputs arrive exactly when at most one of them has any bytes
  (`StackedArriveIff`).
- `rknn_outputs_get` reports success when the pool could not be allocated and leaves every
  pointer as it was; the release that follows goes wrong exactly for the pointers the array
  held (`ReleaseAfterFailedGet`), which after a successful round are stale
  (`FailedGetAfterRound`). On an array that starts with NULL this happens exactly when a get fails
  after one that succeeded and some output is not preallocated (`RoundsFaultIff`).
- `updataFormatForAutoMode` removes an unsupported format once, so it brings the list in line,
  and is idempotent, exactly when no such format was listed twice (`SyncBringsInLine`,
  `SecondSyncChangesNothing`).
- `setSelect` renames the first device node only; it selects an output alone exactly under the
  condition of `SelectIsExclusiveIff`.
- `convert10bitTo8bit` advances a row by `width` bytes although `width` samples take 5/4 of
  that, so the tail of every row is taken from the next one (`InsideOwnRowIff`).
- `readDeviceTree` leaves its buffer without a terminator exactly for a blob of 1023 bytes that
  does not end in NUL (`RewrittenTerminated`).
- `setValue` under a key that is present already is not seen by `getValue`, unless the value is
  the same (`GetAfterSetIff`).
- `RockitHWParam2RTHWParam` sizes a missing array by the counter it has just cleared; the pairs
  arrive exactly when the client brought an array with room, or there are none
  (`FromService`, `ThereAndBack`).

A read or write outside a buffer ends the modelled call and is reported by an out-parameter
(`inside`, `fits`, `overrun`), whose exact condition is part of the contract. What the source
does from there on is not modelled.

## Model

| member | source | states |
|---|---|---|
| `Queues.MessageQueue.constructor` | interfaces/rockit/direct/sideband/MessageQueue.cpp:22-35 | starts empty, with one reply slot for each id |
| `Queues.MessageQueue.Send` | interfaces/rockit/direct/sideband/MessageQueue.cpp:58-85 | rejects exactly the reply ids outside -1 .. mNumReply-1 and then changes nothing; otherwise the message is the last one to be received, and a synchronous send resets its own slot only |
| `Queues.MessageQueue.RemoveMatching` | interfaces/rockit/direct/sideband/MessageQueue.cpp:103-125 | the in-place pass takes out exactly the messages with the id, keeps the others in receive order, and returns the removed ones newest first |
| `Queues.MessageQueue.Receive` | interfaces/rockit/direct/sideband/MessageQueue.cpp:135-157 | returns the oldest message and leaves the rest |
| `Queues.MessageQueue.Reply` | interfaces/rockit/direct/sideband/MessageQueue.cpp:159-170 | writes the slot of the id, none for an id out of range, and overruns the slots exactly for the id mNumReply, which passes the guard |
| `Queues.GuardIsEnoughIff` | interfaces/rockit/direct/sideband/MessageQueue.cpp:162-165 | the ids that pass the guard of `reply` all have slots if and only if mNumReply is not one of those used |
| `Queues.ReversedWithout` | interfaces/rockit/direct/sideband/MessageQueue.cpp:113-124 | filtering the list front to back is filtering the receive order |
| `QueueProtocol.FifoStep` | interfaces/rockit/direct/sideband/MessageQueue.cpp:58-170 | every step of every thread keeps: received followed by pending is what was sent, in order, minus what was removed |
| `QueueProtocol.FifoExactlyOnce` | interfaces/rockit/direct/sideband/MessageQueue.cpp:77-157 | over every run, with whatever callers: each sent message is received, pending or removed, in exactly one of the three and once, in the order of sending |
| `QueueProtocol.FifoWithoutRemove` | interfaces/rockit/direct/sideband/MessageQueue.cpp:77-157 | over every run without `remove`, received followed by pending is exactly what was sent |
| `QueueProtocol.WakeStep` | interfaces/rockit/direct/sideband/MessageQueue.cpp:58-170 | every disciplined step keeps the wake-up invariant: a sleeper is unanswered, and an unanswered caller's own message is still on its way |
| `QueueProtocol.NoLostWakeUp` | interfaces/rockit/direct/sideband/MessageQueue.cpp:77-170 | over every run with at most one synchronous caller per id: a caller that sees `WOULD_BLOCK` has its message queued, being handled, or removed with the remover's reply due; a waiting worker has an empty queue |
| `QueueProtocol.RemoveOnEmptyDoesNothing` | interfaces/rockit/direct/sideband/MessageQueue.cpp:103-109 | a `remove` that begins on an empty queue returns at once: every continuation is a run with it if and only if it is one without it, and ends in the same state |
| `Stranding.TwoCallersStrandOne` | interfaces/rockit/direct/sideband/MessageQueue.cpp:77-98 | for every id, a run in which two synchronous callers share the id, both their messages are answered, and one of them sleeps on with nothing queued, in hand or about to be removed that could wake it |
| `Stranding.OtherReplyIdStrands` | interfaces/rockit/direct/sideband/MessageQueue.cpp:81-98 | for every two ids, a run in which one caller waits on another id than its message's and is left unanswered with nothing on that id to come |
| `Stranding.LateSendStrands` | interfaces/rockit/direct/sideband/MessageQueue.cpp:40-98 | for every id, a run in which a synchronous send comes after the worker has stopped and its caller sleeps |
| `Stranding.EarlyStopStrands` | interfaces/rockit/direct/sideband/MessageQueue.cpp:40-98 | for every two ids, a run in which the worker is told to stop while a caller's message is queued and that caller waits |
| `Stranding.StuckForGood` | interfaces/rockit/direct/sideband/MessageQueue.cpp:87-98 | a caller that waits with nothing on its id to come waits on after every continuation, until its id is removed, a message with the id is sent to a worker that runs, or, if it only missed its wake-up, it wakes by chance |
| `Stranding.DoneStep` | interfaces/rockit/direct/sideband/MessageQueue.cpp:58-170 | every polite step keeps: once the worker is done no unanswered caller's message is queued |
| `Stranding.StuckIsLost` | interfaces/rockit/direct/sideband/MessageQueue.cpp:77-170 | a caller to whom nothing comes cannot count on its own message either |
| `Stranding.PoliteIsSafe` | interfaces/rockit/direct/sideband/MessageQueue.cpp:58-170 | over every run with one caller per id, on its own message's id, no late sends and no early stops: no caller sleeps though answered, and every unanswered one has its message on its way to a worker that runs, or about to be answered |
| `Stranding.NobodyStrandedIff` | interfaces/rockit/direct/sideband/MessageQueue.cpp:58-170 | for any number n of callers allowed per id, with or without waiting on other ids, late sends and early stops: no run leaves a caller waiting with nothing on its id to come, if and only if n is 0, or n is 1, every caller waits on its own message's id, nobody sends once the worker is done, and the worker is not stopped while a caller's message is queued |
| `SyncSend.AnswerStep` | interfaces/rockit/direct/sideband/MessageQueue.cpp:77-170 | under a policy that keeps synchronous ids apart every step, removals included, keeps: each synchronous message not yet handled has a caller waiting for it, and an answered caller's message has been handled and the answer is what its handler said |
| `SyncSend.ReturnedMeansHandled` | interfaces/rockit/direct/sideband/MessageQueue.cpp:77-133 | over every disciplined run under such a policy, in which any id may be removed when the removal begins on an empty queue: a synchronous send returns only after its own message was handled, and returns the status its handler gave |
| `SyncSend.HandlersDecide` | interfaces/rockit/direct/sideband/MessageQueue.cpp:135-170 | over every run: the i-th handler that runs gives the i-th message received its status, and every message received but the one in hand has one |
| `SyncSend.BothWaysAnswersEarly` | interfaces/rockit/direct/sideband/MessageQueue.cpp:77-98 | for every id, a disciplined run without `remove` that sends the id both ways and returns from the synchronous send with its message still queued |
| `SyncSend.RemovedIsNotHandled` | interfaces/rockit/direct/sideband/MessageQueue.cpp:103-133 | for every id, a disciplined run in which a queued synchronous message is removed and its sender returns `INVALID_OPERATION` |
| `SyncSend.SharedSlotAnswersEarly` | interfaces/rockit/direct/sideband/MessageQueue.cpp:77-98 | for every id, a run with two callers on the id, and one with a caller that waits on another id than its message's, in which a synchronous send returns with its message still queued |
| `SyncSend.ReturnsAreSafeIff` | interfaces/rockit/direct/sideband/MessageQueue.cpp:58-170 | for any sets of ids sent synchronously, sent without waiting, and removed while something is queued, and any number n of callers allowed per id: every run returns only handled messages if and only if nothing is sent synchronously, or n is 0, or n is 1, every caller waits on its own message's id, and the first set is disjoint from the other two |
| `SyncSend.RemoveAnswersEarly` | interfaces/rockit/direct/sideband/MessageQueue.cpp:103-133 | for every id and every other one, a disciplined run in which another message is queued, `remove` finds nothing with its id and still makes a synchronous send return `INVALID_OPERATION` while its message is in the handler |
| `SidebandWindow.RTSidebandWindow.FreeHandle` | interfaces/rockit/direct/sideband/RTSidebandWindow.cpp:182-191 | the handle leaves the allocator; freeing one that is not live is a fault |
| `SidebandWindow.RTSidebandWindow.RemainBuffer` | interfaces/rockit/direct/sideband/RTSidebandWindow.cpp:193-198 | the buffer enters the rendering queue last |
| `SidebandWindow.RTSidebandWindow.DequeueFront` | interfaces/rockit/direct/sideband/RTSidebandWindow.cpp:201-213 | the oldest buffer when more than two wait, else none; nothing is erased yet |
| `SidebandWindow.RTSidebandWindow.HandleRenderRequest` | interfaces/rockit/direct/sideband/RTSidebandWindow.cpp:297-305 | does what the protocol's render step does to the queue |
| `SidebandWindow.RTSidebandWindow.HandleDequeueRequest` | interfaces/rockit/direct/sideband/RTSidebandWindow.cpp:307-311 | does what the protocol's dequeue step does; the queue must not be empty |
| `SidebandWindow.RTSidebandWindow.HandleFlush` | interfaces/rockit/direct/sideband/RTSidebandWindow.cpp:313-321 | the loop frees every queued buffer, oldest first, and skips NULL |
| `SidebandWindow.RTSidebandWindow.FreeLeftovers` | interfaces/rockit/direct/sideband/RTSidebandWindow.cpp:110-114 | the loop hands every leftover buffer back, NULL included |
| `SidebandWindow.FreeEachTakes` | interfaces/rockit/direct/sideband/RTSidebandWindow.cpp:110-191 | for any handles and any allocator: exactly the listed handles go, NULL only if it is not skipped |
| `SidebandWindow.FreeEachFaultIff` | interfaces/rockit/direct/sideband/RTSidebandWindow.cpp:110-191 | and freeing them goes wrong if and only if one that is freed is not live or is listed before |
| `SidebandWindow.QueueFollows` | interfaces/rockit/direct/sideband/RTSidebandWindow.cpp:138-145 | the window drives the queue only through steps that respect the queue's discipline |
| `SidebandWindow.ExitStep` | interfaces/rockit/direct/sideband/RTSidebandWindow.cpp:248-295 | every step keeps the exit handshake: the thread stops with the EXIT message and not before, and the sender returns after that |
| `SidebandWindow.InvStep` | interfaces/rockit/direct/sideband/RTSidebandWindow.cpp:102-321 | every disciplined step of clients and render thread keeps the queue, exit, order and holding invariants together |
| `SidebandWindow.EachBufferInOnePlace` | interfaces/rockit/direct/sideband/RTSidebandWindow.cpp:193-227 | over every disciplined run each live buffer is with the client, in one waiting render request or once in the rendering queue (less the buffer `dequeueBuffer` has returned and the thread has yet to erase), never in two; no double free, no erase on an empty queue |
| `SidebandWindow.EraseHitsReturnedBuffer` | interfaces/rockit/direct/sideband/RTSidebandWindow.cpp:307-311 | the handle the render thread erases is the one `dequeueBuffer` returned, and two buffers stay behind |
| `SidebandWindow.BackInOrder` | interfaces/rockit/direct/sideband/RTSidebandWindow.cpp:193-215 | buffers leave the rendering queue in the order they entered it; `dequeueBuffer` reads the oldest that has not left, and reads one if and only if more than two are queued |
| `SidebandWindow.StoppedForGood` | interfaces/rockit/direct/sideband/RTSidebandWindow.cpp:258-290 | a stopped render thread never receives again |
| `SidebandWindow.OrderlyShutdown` | interfaces/rockit/direct/sideband/RTSidebandWindow.cpp:248-295 | when the synchronous EXIT send has returned, the thread has received every message up to EXIT in order, and receives none after it |
| `SidebandWindow.LeftoversFreedOnce` | interfaces/rockit/direct/sideband/RTSidebandWindow.cpp:102-114 | `release` then frees exactly the queued buffers, each once, none of them with the client or in an unserved request |
| `SidebandWindow.ReleaseNotStranded` | interfaces/rockit/direct/sideband/RTSidebandWindow.cpp:248-295 | in every reachable state no thread, the one in `release` that waits for EXIT included, waits with nothing to come, and each can count on its own message |
| `SidebandWindow.OnlyClientsStayIff` | interfaces/rockit/direct/sideband/RTSidebandWindow.cpp:102-114 | after `release` only the client's own buffers stay live if and only if no render request was sent too late to be served |
| `Shutdown.ReleaseSucceeds` | interfaces/rockit/direct/sideband/RTSidebandWindow.cpp:248-295 | over every disciplined run the synchronous EXIT send, once it returns, returns success |
| `Shutdown.EndStep` | interfaces/rockit/direct/sideband/RTSidebandWindow.cpp:102-295 | every step keeps what the next row rests on: a thread waits for EXIT until its send has returned, the render thread runs on no further than EXIT, and a stopped one has answered |
| `Shutdown.ReleaseCanEnd` | interfaces/rockit/direct/sideband/RTSidebandWindow.cpp:102-295 | no deadlock: from every reachable state after the call of `release`, whatever is queued, steps of the render thread and of the thread in `release` alone lead to where the EXIT send has returned and the leftovers can be freed |
| `DequeueGuard.FutureComes` | interfaces/rockit/direct/sideband/RTSidebandWindow.cpp:102-114 | the future of the rendering queue and the allocator that the next row speaks of is what comes: every step of the render thread and the freeing loop of `release` keep it, and it is the present when nothing is outstanding or `release` is through |
| `DequeueGuard.ExclusiveIff` | interfaces/rockit/direct/sideband/RTSidebandWindow.cpp:201-227 | in every reachable state with more than two queued: the buffer `dequeueBuffer` reads is nobody else's and survives all that is to come, if and only if `release` has not been called and no dequeue and no flush request is outstanding |
| `DequeueGuard.EarlyDequeueReturnsSameBuffer` | interfaces/rockit/direct/sideband/RTSidebandWindow.cpp:201-215 | with a dequeue request outstanding it is the handle returned before |
| `DequeueGuard.FlushDuringCallFrees` | interfaces/rockit/direct/sideband/RTSidebandWindow.cpp:201-213 | a flush between the read and the send of `dequeueBuffer` gets the handle freed, which stays live without it |
| `DequeueGuard.ReleaseDuringCallFrees` | interfaces/rockit/direct/sideband/RTSidebandWindow.cpp:102-114 | so does a `release` between the two |
| `DequeueGuard.DequeueGuardIsNeeded` | interfaces/rockit/direct/sideband/RTSidebandWindow.cpp:201-215 | a disciplined run to a state with a dequeue request outstanding, where another `dequeueBuffer` is not exclusive |
| `DequeueGuard.FlushGuardIsNeeded` | interfaces/rockit/direct/sideband/RTSidebandWindow.cpp:138-215 | one to a state with a flush request and no dequeue request outstanding |
| `DequeueGuard.ReleaseGuardIsNeeded` | interfaces/rockit/direct/sideband/RTSidebandWindow.cpp:102-215 | and one to a state after `release` was called, with neither outstanding |
| `HwMpi.RockitHwMpi.FindMppBuffer` | interfaces/rockit/hw/hidl/1.0/utils/hw/mpi/RockitHwMpi.cpp:132-145 | the first entry with the id |
| `HwMpi.RockitHwMpi.FindDataBuffer` | interfaces/rockit/hw/hidl/1.0/utils/hw/mpi/RockitHwMpi.cpp:188-201 | as coded: element 0 if it has the id, else nothing |
| `HwMpi.Find` | interfaces/rockit/hw/hidl/1.0/utils/hw/mpi/RockitHwMpi.cpp:188-201 | with either search a found entry has the requested id |
| `HwMpi.RockitHwMpi.CommitBuffer` | interfaces/rockit/hw/hidl/1.0/utils/hw/mpi/RockitHwMpi.cpp:716-801 | the whole new state, and success even for an id that is listed already |
| `HwMpi.RockitHwMpi.DequeueFrame` | interfaces/rockit/hw/hidl/1.0/utils/hw/mpi/RockitHwMpi.cpp:625-714 | the whole new state: the entry goes to the client and the frame's buffer gains a reference |
| `HwMpi.RockitHwMpi.GiveBackBuffer` | interfaces/rockit/hw/hidl/1.0/utils/hw/mpi/RockitHwMpi.cpp:803-832 | the whole new state: the entry goes to the decoder and its buffer loses a reference; an unknown id changes nothing |
| `HwMpi.RockitHwMpi.EnqueuePacket` | interfaces/rockit/hw/hidl/1.0/utils/hw/mpi/RockitHwMpi.cpp:469-576 | the whole new state; the packet is built on a listed mapping of its own id, on none at end of stream, and the result reports every failure |
| `HwMpi.RockitHwMpi.FreeDataBuffer` | interfaces/rockit/hw/hidl/1.0/utils/hw/mpi/RockitHwMpi.cpp:225-238 | the first entry with the id goes and its mapping is undone |
| `HwMpi.RockitHwMpi.FreeDataBufferList` | interfaces/rockit/hw/hidl/1.0/utils/hw/mpi/RockitHwMpi.cpp:240-251 | every mapping is undone, in order |
| `HwMpi.RockitHwMpi.CleanMppBuffer` | interfaces/rockit/hw/hidl/1.0/utils/hw/mpi/RockitHwMpi.cpp:163-185 | the backward in-place removal drops exactly the site's entries and keeps the others in order |
| `HwMpi.RockitHwMpi.ControlGroupClear` | interfaces/rockit/hw/hidl/1.0/utils/hw/mpi/RockitHwMpi.cpp:879-887 | the whole new state, which `ClearKeepsLent`, `ClearUnmapsAll` and `MappedAnewAfterClear` say the meaning of |
| `HwMpi.RockitHwMpi.Destroy` | interfaces/rockit/hw/hidl/1.0/utils/hw/mpi/RockitHwMpi.cpp:281-315 | both lists empty, every mapping undone |
| `HwMpi.DropSiteMembers` | interfaces/rockit/hw/hidl/1.0/utils/hw/mpi/RockitHwMpi.cpp:163-173 | an entry survives the clean-up if and only if it is at the other site, and ids stay distinct |
| `HwMpi.DropSiteConcat` | interfaces/rockit/hw/hidl/1.0/utils/hw/mpi/RockitHwMpi.cpp:163-173 | the clean-up works piece by piece, so the survivors keep their order |
| `HwMpi.CommitInvStep` | interfaces/rockit/hw/hidl/1.0/utils/hw/mpi/RockitHwMpi.cpp:469-909 | every call keeps the listed ids distinct and each entry backed by the buffer imported for its id |
| `HwMpi.SiteIsLatestEvent` | interfaces/rockit/hw/hidl/1.0/utils/hw/mpi/RockitHwMpi.cpp:632-641 | over every call sequence an entry's site is the client exactly when the latest event on it is a dequeue |
| `HwMpi.ReferenceBalance` | interfaces/rockit/hw/hidl/1.0/utils/hw/mpi/RockitHwMpi.cpp:706-820 | when the decoder hands out listed instances, the references on an entry's buffer are 1 + dequeues - give-backs since the commit that created it |
| `HwMpi.ReferenceBalanceIff` | interfaces/rockit/hw/hidl/1.0/utils/hw/mpi/RockitHwMpi.cpp:706-820 | they are so throughout a call sequence if and only if the decoder hands out the listed instance at every dequeue |
| `HwMpi.LedgerCounts` | interfaces/rockit/hw/hidl/1.0/utils/hw/mpi/RockitHwMpi.cpp:706-820 | the reckoning is one for the commit, plus the dequeues, minus the give-backs since that commit, each counted by itself |
| `HwMpi.NeverNegativeIff` | interfaces/rockit/hw/hidl/1.0/utils/hw/mpi/RockitHwMpi.cpp:803-820 | the client's reckoning is never negative throughout a call sequence if and only if a listed id is given back once for its commit and once for each dequeue since then, and no more often |
| `HwMpi.ReferencesNeverNegative` | interfaces/rockit/hw/hidl/1.0/utils/hw/mpi/RockitHwMpi.cpp:706-820 | then the references on every listed buffer are never negative, however often buffers are handed out |
| `HwMpi.OneReferenceIff` | interfaces/rockit/hw/hidl/1.0/utils/hw/mpi/RockitHwMpi.cpp:706-820 | when the decoder hands out listed instances: the references are 1 while the buffer is out or was never given back, and 0 otherwise, throughout a call sequence if and only if no listed buffer is handed out twice and only held ones are given back |
| `HwMpi.ClearKeepsLent` | interfaces/rockit/hw/hidl/1.0/utils/hw/mpi/RockitHwMpi.cpp:879-887 | after any call sequence a group clear keeps exactly the entries out at the client, in order, and each of them can still be given back |
| `HwMpi.StrandedStepIff` | interfaces/rockit/hw/hidl/1.0/utils/hw/mpi/RockitHwMpi.cpp:469-909 | a call leaves a buffer referenced and unlisted if and only if it was so before, or the call imports it for a listed id, hands it out unlisted, or drops its entry with a reference left |
| `HwMpi.StrandedIff` | interfaces/rockit/hw/hidl/1.0/utils/hw/mpi/RockitHwMpi.cpp:469-909 | over every call sequence a buffer ends referenced and unlisted if and only if some call of the sequence did one of these |
| `HwMpi.SecondCommitLeaksIff` | interfaces/rockit/hw/hidl/1.0/utils/hw/mpi/RockitHwMpi.cpp:757-781 | the buffer a commit imports is never put, whatever follows, if and only if the id was listed already |
| `HwMpi.DropLeaksIff` | interfaces/rockit/hw/hidl/1.0/utils/hw/mpi/RockitHwMpi.cpp:150-185 | a clear or the destructor leaves behind for good, of the buffers not lost before, exactly those whose entry it drops with a reference left |
| `HwMpi.DropLosesNeverGivenBack` | interfaces/rockit/hw/hidl/1.0/utils/hw/mpi/RockitHwMpi.cpp:879-887 | with single hand-outs and held buffers given back, a clear loses exactly the buffers with the decoder that were never given back; the destructor also those that are out |
| `HwMpi.EveryMappingOnce` | interfaces/rockit/hw/hidl/1.0/utils/hw/mpi/RockitHwMpi.cpp:188-251 | over every call sequence, with either search, each mapping made is in the list or has been undone, one of the two and once, and belongs to its entry's id |
| `HwMpi.ClearUnmapsAll` | interfaces/rockit/hw/hidl/1.0/utils/hw/mpi/RockitHwMpi.cpp:240-315 | over every call sequence and with either search: after a group clear, and after the destructor, no input buffer is listed and every mapping ever made has been undone, once, those that stood oldest first; the destructor leaves no entry at all |
| `HwMpi.MappedAnewAfterClear` | interfaces/rockit/hw/hidl/1.0/utils/hw/mpi/RockitHwMpi.cpp:504-520 | then the next successful enqueue of any id maps it, exactly once: enqueued again it finds the mapping |
| `HwMpi.DataClearUndoesOldest` | interfaces/rockit/hw/hidl/1.0/utils/hw/mpi/RockitHwMpi.cpp:225-238 | over every call sequence, clearing a listed buffer undoes the oldest of its mappings that stand, and takes out that entry and no other |
| `HwMpi.DataClearOfUnlisted` | interfaces/rockit/hw/hidl/1.0/utils/hw/mpi/RockitHwMpi.cpp:225-238 | clearing a buffer that is not listed changes nothing |
| `HwMpi.ListsInOrder` | interfaces/rockit/hw/hidl/1.0/utils/hw/mpi/RockitHwMpi.cpp:203-223 | over every call sequence both lists are in the order in which their entries were made |
| `HwMpi.MappedOnceWithFullSearch` | interfaces/rockit/hw/hidl/1.0/utils/hw/mpi/RockitHwMpi.cpp:504-520 | with a search over every element, from any point on until a buffer is cleared: exactly one mapping is made for it if it comes to be listed and was not, and none otherwise |
| `HwMpi.DistinctAsCodedIff` | interfaces/rockit/hw/hidl/1.0/utils/hw/mpi/RockitHwMpi.cpp:188-223 | as coded, the listed ids stay distinct throughout a call sequence if and only if no enqueue names a buffer that is listed behind the first |
| `HwMpi.ThreeEnqueuesMapTwice` | interfaces/rockit/hw/hidl/1.0/utils/hw/mpi/RockitHwMpi.cpp:188-201 | three enqueues after which one buffer is mapped twice |
| `RknnPool.CurOffset` | interfaces/neuralnetworks/1.0/librknnhal_bridge/RockchipNeuralnetworksBuilder.cpp:197-200 | the inner loop computes the sum of the sizes before the tensor |
| `RknnPool.RegionsTile` | interfaces/neuralnetworks/1.0/librknnhal_bridge/RockchipNeuralnetworksBuilder.cpp:250-280 | every byte of the pool lies in the region of one tensor, and of only one |
| `RknnPool.InputsSet` | interfaces/neuralnetworks/1.0/librknnhal_bridge/RockchipNeuralnetworksBuilder.cpp:181-230 | fails exactly for an empty pool; sends each tensor's index, offset and length; leaves each tensor copied over the pool's base |
| `RknnPool.SentInTurn` | interfaces/neuralnetworks/1.0/librknnhal_bridge/RockchipNeuralnetworksBuilder.cpp:195-216 | what is sent gives each tensor its index and a place as long as the tensor, the first at 0, each where the one before it ends, the last at the end of the pool |
| `RknnPool.ServerInputs` | interfaces/neuralnetworks/1.0/default/RKNeuralnetworks.cpp:121-130 | the server's input i has the index sent and the pool's bytes at location i |
| `RknnPool.PlacedThrough` | interfaces/neuralnetworks/1.0/default/RKNeuralnetworks.cpp:155-166 | tensors placed at their offsets do not touch each other: each is what its location shows, for any number of tensors |
| `RknnPool.PlacedInputsArrive` | interfaces/neuralnetworks/1.0/librknnhal_bridge/RockchipNeuralnetworksBuilder.cpp:195-216 | with the copies at the offsets that are sent, every input arrives at the server |
| `RknnPool.StackedArriveIff` | interfaces/neuralnetworks/1.0/librknnhal_bridge/RockchipNeuralnetworksBuilder.cpp:195-216 | as coded, all inputs of given sizes arrive whatever they contain if and only if at most one of the sizes is not 0 |
| `RknnPool.OneNonEmptyArrives` | interfaces/neuralnetworks/1.0/librknnhal_bridge/RockchipNeuralnetworksBuilder.cpp:195-216 | in particular a single input arrives as coded |
| `RknnPool.InputsRoundTrip` | interfaces/neuralnetworks/1.0/librknnhal_bridge/RockchipNeuralnetworksBuilder.cpp:181-230 | client and server end to end: when at most one tensor has any bytes, the server has exactly the client's inputs, or none has any and the call fails |
| `RknnOutputs.Builder.FillSizes` | interfaces/neuralnetworks/1.0/librknnhal_bridge/RockchipNeuralnetworksBuilder.cpp:250-263 | every preallocated output keeps the caller's size, any other has four bytes for each element if wanted as float and its native size otherwise; the pool is their total |
| `RknnOutputs.Builder.Layout` | interfaces/neuralnetworks/1.0/librknnhal_bridge/RockchipNeuralnetworksBuilder.cpp:271-287 | the nested loops send the prefix sums |
| `RknnOutputs.Builder.ServerOutputs` | interfaces/neuralnetworks/1.0/default/RKNeuralnetworks.cpp:147-171 | writing through the pointers places every result at its offset |
| `RknnOutputs.Builder.CopyResults` | interfaces/neuralnetworks/1.0/librknnhal_bridge/RockchipNeuralnetworksBuilder.cpp:300-310 | the last loop leaves each server result in its own target and binds the new blocks |
| `RknnOutputs.Builder.OutputsGet` | interfaces/neuralnetworks/1.0/librknnhal_bridge/RockchipNeuralnetworksBuilder.cpp:247-314 | the whole call on the array's own fields: sizes as above; after success each buffer holds the server's result, in a new block of exactly that size unless it is the caller's; otherwise every pointer and block is left alone |
| `RknnOutputs.Builder.OutputsRelease` | interfaces/neuralnetworks/1.0/librknnhal_bridge/RockchipNeuralnetworksBuilder.cpp:316-324 | frees the buffer of each output that is not preallocated, once, NULL being no free at all |
| `RknnOutputs.CopiedOutHolds` | interfaces/neuralnetworks/1.0/librknnhal_bridge/RockchipNeuralnetworksBuilder.cpp:300-310 | later copies do not touch the targets of earlier ones, and the caller's blocks keep their lengths |
| `RknnOutputs.ResultsArrive` | interfaces/neuralnetworks/1.0/librknnhal_bridge/RockchipNeuralnetworksBuilder.cpp:300-310 | what the server computed for output i is what the caller finds in `outputs[i].buf` |
| `RknnOutputs.OutputIsRight` | interfaces/neuralnetworks/1.0/librknnhal_bridge/RockchipNeuralnetworksBuilder.cpp:250-310 | the same about one output, from what it was, its attributes, and the heap before and after |
| `RknnOutputs.ReleaseFreesWhatGetAllocated` | interfaces/neuralnetworks/1.0/librknnhal_bridge/RockchipNeuralnetworksBuilder.cpp:300-324 | release frees exactly the blocks its get allocated, each once and none of the caller's |
| `RknnOutputs.ReleaseFaultsIff` | interfaces/neuralnetworks/1.0/librknnhal_bridge/RockchipNeuralnetworksBuilder.cpp:316-324 | for any heap and any array, a release frees what is not there if and only if some output that is not preallocated has a pointer to no block or to one an earlier output freed |
| `RknnOutputs.ReleaseAfterFailedGet` | interfaces/neuralnetworks/1.0/librknnhal_bridge/RockchipNeuralnetworksBuilder.cpp:247-324 | after a get whose pool was not allocated, over any array, exactly the pointers the array held before decide it |
| `RknnOutputs.FailedGetAfterRound` | interfaces/neuralnetworks/1.0/librknnhal_bridge/RockchipNeuralnetworksBuilder.cpp:247-324 | after a successful round such a get and a release go wrong if and only if some output is not preallocated |
| `RknnOutputs.FailedGetOverNulls` | interfaces/neuralnetworks/1.0/librknnhal_bridge/RockchipNeuralnetworksBuilder.cpp:247-324 | over an array with NULL for every buffer to free they do no harm |
| `RknnOutputs.RoundsBalance` | interfaces/neuralnetworks/1.0/librknnhal_bridge/RockchipNeuralnetworksBuilder.cpp:247-324 | over any alternation of successful gets and releases on one array, whatever its pointers, nothing stays allocated and nothing is freed that was not there |
| `RknnOutputs.RoundsFaultIff` | interfaces/neuralnetworks/1.0/librknnhal_bridge/RockchipNeuralnetworksBuilder.cpp:247-324 | over any alternation of gets, failed ones included, and releases on an array that starts with NULL: nothing stays allocated, and something is freed that was not there if and only if some output is not preallocated and a get fails after one that succeeded |
| `Edid.HdmiAudioInfors.constructor` | interfaces/rksoundsetting/audio_hw_hdmi.cpp:311-319 | no descriptors, no layout |
| `Edid.HdmiAudioInfors.Checksum` | interfaces/rksoundsetting/audio_hw_hdmi.cpp:78-98 | 0 if and only if the 128 bytes add up to a multiple of 256 |
| `Edid.SumIsAdditive` | interfaces/rksoundsetting/audio_hw_hdmi.cpp:78-98 | the sum that is looked at is that of the bytes: it adds up over pieces and of one byte is the byte |
| `Edid.HdmiAudioInfors.ParseDescriptor` | interfaces/rksoundsetting/audio_hw_hdmi.cpp:143-153 | one descriptor from three bytes |
| `Edid.AudioBlockBytes` | interfaces/rksoundsetting/audio_hw_hdmi.cpp:121-164 | an audio block byte for byte, for any buffer: how many descriptors, the fields of each from its three bytes, the layout untouched, and when it is read at all |
| `Edid.SpeakerBlockBytes` | interfaces/rksoundsetting/audio_hw_hdmi.cpp:171-186 | a speaker block: first byte the low eight bits of the layout, three bits of the second the high ones, the descriptors untouched |
| `Edid.OtherBlockBytes` | interfaces/rksoundsetting/audio_hw_hdmi.cpp:204-252 | no other block has any effect |
| `Edid.HdmiAudioInfors.ParseCeaAudio` | interfaces/rksoundsetting/audio_hw_hdmi.cpp:121-164 | the block's descriptors replace the earlier ones, if there is room for one; says whether the block lies in the buffer |
| `Edid.HdmiAudioInfors.ParseExtensionsCea` | interfaces/rksoundsetting/audio_hw_hdmi.cpp:188-255 | for any 128 bytes the loop is the walk over the data blocks; it ends, versions other than 3 change nothing, and it says whether the walk stays in the buffer |
| `Edid.WalkInsideIff` | interfaces/rksoundsetting/audio_hw_hdmi.cpp:204-252 | the walk reads nothing outside the buffer if and only if every data block it visits lies in it |
| `Edid.HdmiAudioInfors.ParseExtensions` | interfaces/rksoundsetting/audio_hw_hdmi.cpp:258-299 | only a CEA extension with a correct checksum has an effect, for any 128 bytes |
| `Edid.ExtensionBytes` | interfaces/rksoundsetting/audio_hw_hdmi.cpp:258-299 | an extension has an effect only with a correct checksum, tag 2 and version 3, and then that of the walk from byte 4 to the offset in byte 2 |
| `Edid.WrongByteIsNoticed` | interfaces/rksoundsetting/audio_hw_hdmi.cpp:258-275 | changing any one byte of an extension that passes its checksum takes away its effect |
| `Edid.HdmiAudioInfors.ParseHdmiAudio` | interfaces/rksoundsetting/audio_hw_hdmi.cpp:381-412 | the effects of the extension blocks add up, at most seven of them and none after an empty read (`NodeRoundTrip`, `StopsAtEmptyRead`); says whether every walk stays in its block |
| `Edid.StopsAtEmptyRead` | interfaces/rksoundsetting/audio_hw_hdmi.cpp:403-411 | whatever follows an empty read is not looked at |
| `Edid.HdmiAudioInfors.IsSupportFormat` | interfaces/rksoundsetting/audio_hw_hdmi.cpp:432-447 | true if and only if some parsed descriptor has the format |
| `EdidPrinter.BlockRoundTrip` | interfaces/rksoundsetting/audio_hw_hdmi.cpp:121-186 | parsing a printed data block anywhere in a buffer yields its meaning |
| `EdidPrinter.WalkRoundTrip` | interfaces/rksoundsetting/audio_hw_hdmi.cpp:204-252 | the walk over printed blocks stops where they end, visits exactly their starts, and yields the last audio block's descriptors and the last speaker block's layout |
| `EdidPrinter.ExtensionRoundTrip` | interfaces/rksoundsetting/audio_hw_hdmi.cpp:258-299 | a printed extension passes its checksum and yields the meaning of its blocks |
| `EdidPrinter.ExtensionsRoundTrip` | interfaces/rksoundsetting/audio_hw_hdmi.cpp:401-412 | over the extensions that are read, with any others behind them, the last audio and the last speaker block count |
| `EdidPrinter.NodeRoundTrip` | interfaces/rksoundsetting/audio_hw_hdmi.cpp:302-412 | the whole node, for any base block: what is parsed is the meaning of the blocks of exactly as many extensions as its byte 126 says, but no more than seven and no more than there are |
| `EdidPrinter.CountedNodeRoundTrip` | interfaces/rksoundsetting/audio_hw_hdmi.cpp:302-412 | a base block that counts its extensions has all of them read if they are at most seven, else the first seven |
| `EdidPrinter.DescriptorsRoundTrip` | interfaces/rksoundsetting/audio_hw_hdmi.cpp:142-157 | each printed short audio descriptor comes back with its format, channels, rates, and word length or bit rate, which are 0 for the formats that have none |
| `AudioSettings.RkAudioSettingManager.GetBitstreamFormat` | interfaces/rksoundsetting/RkAudioSettingManager.cpp:731-754 | 1 if and only if the format is in the bitstream list |
| `AudioSettings.RkAudioSettingManager.GetDecodeFormat` | interfaces/rksoundsetting/RkAudioSettingManager.cpp:690-714 | 1 if and only if the format is in the decode list |
| `AudioSettings.RkAudioSettingManager.GetFormat` | interfaces/rksoundsetting/RkAudioSettingManager.cpp:441-452 | both bitstream outputs share one list |
| `AudioSettings.RkAudioSettingManager.GetBitstreamDevice` | interfaces/rksoundsetting/RkAudioSettingManager.cpp:810-832 | 1 if and only if some device node has the name |
| `AudioSettings.RkAudioSettingManager.AddFormatNode` | interfaces/rksoundsetting/RkAudioSettingManager.cpp:183-220 | appends to one list and leaves the other |
| `AudioSettings.RkAudioSettingManager.DelectFormatNode` | interfaces/rksoundsetting/RkAudioSettingManager.cpp:222-258 | removes the first node with the format from one list |
| `AudioSettings.RemoveFirstAt` | interfaces/rksoundsetting/RkAudioSettingManager.cpp:236-252 | removing takes out one node, the first with the format, and keeps all others in order |
| `AudioSettings.RkAudioSettingManager.SetFormat` | interfaces/rksoundsetting/RkAudioSettingManager.cpp:425-434 | edits the list of the output, appending or removing one, leaves the other, and does nothing for another output or command |
| `AudioSettings.RkAudioSettingManager.SetBitstreamDevice` | interfaces/rksoundsetting/RkAudioSettingManager.cpp:836-851 | renames the first device node if it has a text |
| `AudioSettings.RkAudioSettingManager.SetAudioSettingSelect` | interfaces/rksoundsetting/RkAudioSettingManager.cpp:546-561 | sets the two flags to opposite values where they exist |
| `AudioSettings.RkAudioSettingManager.SetSelect` | interfaces/rksoundsetting/RkAudioSettingManager.cpp:394-417 | the whole document after selecting an output; a device node must exist only where the source renames it |
| `AudioSettings.RkAudioSettingManager.GetSelect` | interfaces/rksoundsetting/RkAudioSettingManager.cpp:368-387 | whether the output is selected, by its flag and its device node |
| `AudioSettings.RkAudioSettingManager.UpdataFormatForAutoMode` | interfaces/rksoundsetting/RkAudioSettingManager.cpp:494-517 | the bitstream list, and only that list, is synchronised with what was parsed from the EDID node, for any node; says whether parsing stays in its blocks |
| `AudioSettings.RkAudioSettingManager.SyncFormats` | interfaces/rksoundsetting/RkAudioSettingManager.cpp:501-513 | the loop over the table is the synchronisation |
| `AudioSettings.SyncCount` | interfaces/rksoundsetting/RkAudioSettingManager.cpp:501-513 | for any list: a supported format is there at least once, an unsupported one occurs once less, others occur as often as before |
| `AudioSettings.SyncBringsInLine` | interfaces/rksoundsetting/RkAudioSettingManager.cpp:494-517 | afterwards each table format is listed exactly when its level is supported, if and only if no format that has to go was listed twice |
| `AudioSettings.SyncByName` | interfaces/rksoundsetting/RkAudioSettingManager.cpp:494-517 | the six formats by name: each listed exactly when a descriptor has its number (AC3 2, EAC3 10, DTS 7, DTSHD 11, TRUEHD and MLP 12), all others as often as before |
| `AudioSettings.SyncDropsThenAppends` | interfaces/rksoundsetting/RkAudioSettingManager.cpp:501-513 | for any list, row by row comes to dropping one of each unsupported format and then appending the missing supported ones in table order; what stays keeps its order |
| `AudioSettings.SyncKeepsAtMostOnce` | interfaces/rksoundsetting/RkAudioSettingManager.cpp:494-517 | at most once before is at most once after, and then the list is in line |
| `AudioSettings.SecondSyncChangesNothing` | interfaces/rksoundsetting/RkAudioSettingManager.cpp:494-517 | a second run with the same EDID changes nothing, if and only if no format that has to go was listed twice |
| `AudioSettings.SyncKeepsOthersInOrder` | interfaces/rksoundsetting/RkAudioSettingManager.cpp:494-517 | formats outside the table stay, in their order |
| `AudioSettings.SelectIsExclusiveIff` | interfaces/rksoundsetting/RkAudioSettingManager.cpp:368-417 | for any document, selecting an output makes it the only selected one if and only if the flag it needs exists and, for a bitstream output, the device list can name it and no node that keeps its text names the other bitstream output |
| `AudioSettings.SelectIsExclusive` | interfaces/rksoundsetting/RkAudioSettingManager.cpp:368-417 | with one device node that has a text, exactly the selected output reads as selected |
| `AudioSettings.RunsRefineBag` | interfaces/rksoundsetting/RkAudioSettingManager.cpp:368-517 | over every sequence of public calls the bitstream list and the decode list are bags in which adding increments and deleting removes one, and nothing but editing output 0 changes the second; a format is reported exactly when its count is positive; the number of device nodes never changes |
| `SettingsFromEdid.PrintedKinds` | interfaces/rksoundsetting/audio_hw_hdmi.cpp:432-447 | a format is supported exactly when one of the printed descriptors has it |
| `SettingsFromEdid.DescriptorsDecideFormats` | interfaces/rksoundsetting/RkAudioSettingManager.cpp:494-517 | from the display's printed descriptors to the settings: over the extensions that are read, each of the six formats, by name, ends up listed exactly when a descriptor of the last audio block has its number, others keep their order, and again changes nothing |
| `SettingsFromEdid.NoAudioBlockClearsTable` | interfaces/rksoundsetting/RkAudioSettingManager.cpp:494-517 | for a display without audio descriptors no table format stays listed |
| `TenBit.TwoBytesSuffice` | interfaces/rockit/direct/RTMetadataRetrieverCallback.cpp:363-370 | the two bytes looked at always hold the ten bits of the sample |
| `TenBit.FetchIsTopBits` | interfaces/rockit/direct/RTMetadataRetrieverCallback.cpp:363-373 | the result is the top eight of bits [10n, 10n + 10) of the little-endian bit stream |
| `TenBit.ByteIsItsBits` | interfaces/rockit/direct/RTMetadataRetrieverCallback.cpp:363-373 | what a field of the bit stream is: the first eight bits make up the first byte |
| `TenBit.FieldFrom` | interfaces/rockit/direct/RTMetadataRetrieverCallback.cpp:397-401 | and a stream that starts at byte a is the stream from bit 8 a on |
| `TenBit.PackThenFetch` | interfaces/rockit/direct/RTMetadataRetrieverCallback.cpp:363-373 | packing any 10-bit samples and fetching gives each sample / 4 |
| `TenBit.Convert10bitTo8bit` | interfaces/rockit/direct/RTMetadataRetrieverCallback.cpp:375-415 | in bits: for every row r of both planes and every column j, `dst[r * width + j]` is bits 2 to 9 of the ten that start 10 j bits behind source byte r * width; no byte behind the last row is written |
| `TenBit.ConvertRow` | interfaces/rockit/direct/RTMetadataRetrieverCallback.cpp:398-399 | one row holds its samples and nothing outside it changes |
| `TenBit.WritesFit` | interfaces/rockit/direct/RTMetadataRetrieverCallback.cpp:268-268 | the rows fit in the buffer that is allocated for them |
| `TenBit.LastReadIsReached` | interfaces/rockit/direct/RTMetadataRetrieverCallback.cpp:397-412 | the largest source index read is (H + H/2 - 1) * stride + 10 * (W - 1) / 8 + 1, and it is read |
| `TenBit.InsideOwnRowIff` | interfaces/rockit/direct/RTMetadataRetrieverCallback.cpp:383-401 | sample j is made of its own row's bytes if and only if 5j < 4(W - 1), and the last sample of a row never is |
| `HeapSnap.CompareHeapRecords` | interfaces/rockit/hw/hidl/services/heapsnap.cpp:172-203 | the loop with its early stop is the recursive comparison |
| `HeapSnap.CutMeans` | interfaces/rockit/hw/hidl/services/heapsnap.cpp:187-200 | what counts of a backtrace: its part up to its first zero, or all of it |
| `HeapSnap.CompareIsLex` | interfaces/rockit/hw/hidl/services/heapsnap.cpp:187-200 | from any index on, the sign is the lexicographic order of the backtraces cut at their first zero, and 0 is equality of the cuts |
| `HeapSnap.CompareIsOrder` | interfaces/rockit/hw/hidl/services/heapsnap.cpp:172-203 | for any backtrace length: descending size, then that lexicographic order |
| `HeapSnap.CompareIsPreorder` | interfaces/rockit/hw/hidl/services/heapsnap.cpp:172-203 | the sign flips with the arguments, and the order is transitive |
| `HeapSnap.SortedOrderIsUnique` | interfaces/rockit/hw/hidl/services/heapsnap.cpp:314-314 | two sorted arrangements of the same records show the same sizes and cut backtraces in the same order |
| `Chips.Strnlen` | interfaces/rockit/direct/RTChips.cpp:67-67 | the first NUL, or the bound |
| `Chips.ReplaceTerminators` | interfaces/rockit/direct/RTChips.cpp:65-71 | the loop ends, stays in the buffer, turns every NUL of the blob into a space, changes no other byte of it, and adds one space to a blob that does not end in NUL |
| `Chips.Match` | interfaces/rockit/direct/RTChips.cpp:42-50 | the first table entry whose name occurs, or none if none does |
| `Chips.StringsJoined` | interfaces/rockit/direct/RTChips.cpp:63-71 | the strings of a blob, joined by NULs, are the blob, and none has a NUL in it |
| `Chips.ChipOfName` | interfaces/rockit/direct/include/RTChips.h:68-92 | every row of the table gives a chip one of its own names |
| `Chips.ReadDeviceTree` | interfaces/rockit/direct/RTChips.cpp:52-82 | for any node, the first table entry with a name inside one of its NUL-separated strings, with the chip of that name; says whether the search stays in the buffer, which it does exactly for a blob that ends in NUL or is shorter than 1023 bytes |
| `Chips.RewrittenTerminated` | interfaces/rockit/direct/RTChips.cpp:63-71 | the rewritten buffer is terminated if and only if the blob ends in NUL or is shorter than 1023 bytes |
| `Chips.RewrittenOccurs` | interfaces/rockit/direct/RTChips.cpp:42-73 | a name without NUL and space occurs in the rewritten string if and only if it occurs inside one of the blob's strings |
| `Chips.MostSpecificIff` | interfaces/rockit/direct/RTChips.cpp:42-50 | for any table: the first match is never a part of another name that occurs, for every text, if and only if no name is part of a later one |
| `Chips.ChipListMostSpecific` | interfaces/rockit/direct/include/RTChips.h:68-92 | the chip table is in such an order |
| `Chips.AnswerIsMostSpecific` | interfaces/rockit/direct/RTChips.cpp:42-73 | end to end: no name of the table that contains the recognised one occurs in any of the node's strings |
| `Pairs.ServiceBuffer.SetValue` | interfaces/rockit/hw/hidl/1.0/utils/RockitHwInterface.cpp:53-58 | one pair more in use |
| `Pairs.ServiceBuffer.GetValue` | interfaces/rockit/hw/hidl/1.0/utils/RockitHwInterface.cpp:41-51 | the value of the first pair in use with the key, 0 if there is none |
| `Pairs.ServiceBuffer.FromNull` | interfaces/rockit/hw/hidl/client/RockitHwClient.cpp:258-263 | a missing parameter block leaves no pair in use |
| `Pairs.ClientBuffer.ToService` | interfaces/rockit/hw/hidl/client/RockitHwClient.cpp:221-228 | all fields and all pairs in use are handed over |
| `Pairs.ClientBuffer.FromService` | interfaces/rockit/hw/hidl/client/RockitHwClient.cpp:230-290 | all fields and all pairs in use are taken over and the rest of the array stays, and every pair that is written fits, if and only if the client brought an array with room or no pair is in use; without an array and without an allocation the pairs are dropped |
| `Pairs.ThereAndBack` | interfaces/rockit/hw/hidl/client/RockitHwClient.cpp:221-290 | client to service and back restores every field, and every pair in use if and only if the receiver has room for them |
| `Pairs.GetAfterSetIff` | interfaces/rockit/hw/hidl/1.0/utils/RockitHwInterface.cpp:41-58 | a value that is set is the value that is got if and only if the key was not there, or was there with that value |
| `Pairs.GetEachSet` | interfaces/rockit/hw/hidl/1.0/utils/hw/mpi/RockitHwMpi.cpp:653-679 | values set under pairwise distinct keys are all got back |

## Left out

- Liveness: that a thread that can run does run. `NoLostWakeUp` says that no wake-up is missed and `ReleaseCanEnd` that there is always a way on, not that the scheduler takes it.
- The status of a synchronous send: its callers read `mReplyStatus` and other threads write it under different mutexes; the model reads and writes it atomically.
- `receive` with a time-out: it waits again in the same loop.
- QueueProtocol.Enabled: ids are those with a reply slot. Handlers do not answer `WOULD_BLOCK`, as none in the repository does.
- SidebandWindow.DequeueFront: one `dequeueBuffer` call at a time, and `mRenderingQueue` is read and changed atomically; the source shares the vector between threads without a lock.
- SidebandWindow.Disciplined: `release` is called once, the client frees, queues and returns only what it holds, it calls `dequeueBuffer` only with no dequeue or flush request outstanding, and neither `flush` nor `release` while a `dequeueBuffer` is between its read and its send. For the calls around `dequeueBuffer` `DequeueGuard` says what goes wrong otherwise.
- Allocator, DRM, gralloc and plane calls, apart from which handles are live.
- HwMpi.RockitHwMpi.EnqueuePacket: the packet's flags and time stamps, and file descriptors that are not a mapping's.
- HwMpi.RockitHwMpi.CommitBuffer: an import that yields no buffer; the library's answer is taken to be one new buffer per import.
- HwMpi.DropLeaksIff: what `mpp_buffer_group_clear` and `mpp_buffer_group_put` do to buffers that are still referenced, and the decoder's own references; their source is not part of the repository.
- `init`, `query`, `flush`, `reset` and `bufferReady` of the decoder, and the NULL-list branches its `init` rules out.
- RknnPool.InputsSet: totals above INT_MAX, where the 32-bit sums wrap; the enum conversions of tensor types and formats; a server call that fails.
- RknnOutputs.Builder.OutputsGet: `malloc` returning NULL; preallocated buffers shorter than their stated size or shared between outputs.
- `rknn_init`, `rknn_query` and `rknn_run`: they forward.
- Edid.HdmiAudioInfors.ParseExtensionsCea: what is made of the bytes behind the 128-byte block when a data block reaches past it; the model reports it and stops.
- Edid.HdmiAudioInfors.ParseCeaAudio: the array of an earlier audio block, which is dropped without being freed.
- The mutex around the parsed descriptors, the retries of the first read, and the translation of layouts to channel masks.
- AudioSettings.RkAudioSettingManager.DelectFormatNode: `format` nodes without a text, on which the source dereferences NULL; the look-ups skip them.
- `setMode`, `getMode`, the XML syntax and saving to disk.
- TenBit.FetchData: sample numbers whose tenfold exceeds 32 bits.
- Colour conversion and the other pixel formats.
- The dump, the symbol table and the signal handling of heapsnap.
- `readCpuInforNode` and `readEfuse`; only the first has an effect, and it calls the same `match`.
- Chips.ReadDeviceTree: what is found behind the buffer for a blob of 1023 bytes without a final NUL; the model reports it and stops.
- Pairs.ClientBuffer.FromService: what follows a pair that is written outside the client's array.
- `RTSubtitleSink`, `RTGraphicWindowApi`, `RTSurfaceCallback`, `DrmVopRender`, `RockitPlayer*`, `RockitMetadataRetriever`, `RkOutputManager` and the HIDL services: drawing, probing and forwarding.
