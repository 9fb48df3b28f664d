# Verified model of walb-tools' block IO, crash recovery and concurrency core

walb-tools keeps incremental backups of block devices. This project models, in Dafny, the parts of it in which
scheduling, a crash or an in-place layout has to agree with something much simpler, and proves that they do:

- **Asynchronous block writer** (`RangeUtil`, `BlockWrites`, `WriterState`, `WriterSteps`, `Serializer`, `WriterOps`,
  `WriterMachine`, `AsyncBdevWriter`, `SimpleBdevWriter`). The writer reorders, merges, skips and overlaps writes. The
  kernel is an adversary: it completes pending requests in any order, and until a request completes the bytes under it
  may hold anything. Requests name a buffer in memory, and callers may write to all memory but the buffers of queued
  writes. `WriterMachine` is the transition system of all interleavings with its invariant; the class
  `AsyncBdevWriter` has the loops of the source, and every change it makes is one of those steps.
- **Promotion of a cold snapshot and its recovery** (`LvNames`, `ColdToBase`, `VolLvCache`, `ArchiveVolInfo`). The
  power may fail between any two LVM commands or file replacements, and any command may fail, any number of times,
  also during recovery, which is repeated in the running server or after a restart.
- **Archive volume states and actions** (`ArchiveStates`, `ArchiveVolState`): handlers take the volume's lock, check, and
  start before they release it; the stop flag is outside the lock and changes in between.
- **`BoundedQueue` and `ParallelConverter`** as interleaved steps of any number of threads.
- **`QueueFile`** byte by byte (`QueueBytes`, `QueueLayout`, `QueueFile`): a deque in a mapped file, with its checksums
  and with crashes inside `gc` and `reserveFrontSpace`.
- **Ring-buffer read-ahead** (`AsyncBdevReader`), **ring allocator** (`BlockMultiBuffer`), **interval boundary map**
  (`NonOverlappedRanges`), **aligned splitting** (`AddressUtil`), **range locking** (`RangeMutex`) and the **streaming
  hash** (`SipHash`).

`dafny verify dfyconfig.toml` checks everything.

Reading aid: statements such as `hide ShapeInv, SetInv;` keep a proof small by not unfolding those predicates; they
assume nothing. State that only the proof needs is `ghost`.

## What turned out not to hold as hoped

Each of these has its exact condition and an input on which the code fails it.

- Merging into the *first* fetched IO can move a write in front of a later, overlapping one. It is harmless if and only
  if `MergeHarmless` (`MergeKeepsFifoIffHarmless`, `AsyncBdevWriter.Prepare`). Input: three one-block `prepare` calls,
  after which the two writers leave different devices (`MergeReorders`).
- `SimpleBdevWriter::discard` overtakes queued writes, `AsyncBdevWriter::discard` does not. They agree if and only if
  `EarlyHarmless` (`EarlyDiscardIffHarmless`). Input: a write and a discard of its block (`DiscardOvertakes`). The
  asynchronous one also does not count clipped discards.
- An idle writer takes itself for a busy one if and only if its buffer is below two logical blocks
  (`AsyncBdevWriter.IdleLooksBusyIff`), for instance with a buffer of 512 bytes.
- `isOverlapped` has 32-bit size parameters and is right everywhere if and only if both sizes fit
  (`OverlapTestExactWhen32Bit`). Input: a range of 2^32 bytes (`OverlapTestFails`).
- A base image name is read back if and only if the volume is not called `tmp` (`BaseRoundTrip`).
- Recovery fails if and only if not `CanRecover` (`ArchiveVolInfo.Recover`). Input: a temporary image and the cold image
  of the same gid above the base (`RecoveryFailsOn`). A promotion never leaves such a disk. After renaming the temporary
  image back, the cache does not list the cold snapshot until the next restart.
- "No action starts while a stop is pending" fails for a handler that passed its checks before the flag was set. An action
  can start exactly while its admitted handler has the lock (`CanStartIff`), under a pending stop it was admitted before
  the flag was set, and at most one such start happens (`LateStartWasAdmitted`, `OneLateStart`); from when the stop
  handler gets the lock there is none (`StoppingDrains`). Input: `ActionStartsWhileStopping`. The same holds of the
  transactions that take in data (`LateTransactionWasAdmitted`, `OneLateTransaction`, `NoneReceivedWhileStopping`).
- A resize of a `BoundedQueue` in use is safe if and only if `ResizeSafeIff` says so. Input: `ResizeStrandsPusher`.
- When `ParallelConverter::pop` returns false everything was delivered if and only if a worker was started or nothing was
  pushed (`FalseMeansAllDelivered`). Input: `NoWorkerLosesItems`.
- An empty `BlockMultiBuffer` refuses every request if and only if its head and tail are as in `RefusesAllIff`. Input: four
  calls on a new buffer (`KillEmptyBuffer`).
- The total size of a `QueueFile` record is right if and only if its data has at most 2^32 - 17 bytes
  (`TotalSizeExactIff`); it first fails at 2^32 - 16.

## Model

| member | source | states |
|---|---|---|
| RangeUtil.OverlapMeansSharedByte | include/range_util.hpp:7-10 | for non-empty ranges of 32-bit size the overlap test holds exactly when some byte lies in both |
| RangeUtil.OverwrittenMeansCovered | include/range_util.hpp:12-15 | for non-empty ranges of 32-bit size the test holds exactly when every byte of the first lies in the second |
| RangeUtil.OverlapTestExactWhen32Bit | include/range_util.hpp:7-10 | the test is right at every pair of positions if and only if both sizes fit in 32 bits |
| RangeUtil.OverlapTestFails | include/range_util.hpp:7-10 | a range of 2^32 bytes overlaps nothing by the test, though it shares a byte |
| BlockWrites.SkippedDoNotShow | src/bdev_writer.cpp:196-201 | writes left out, each wholly rewritten by a later one, change no byte of the final device |
| BlockWrites.CanMergeIff | src/bdev_writer.cpp:23-40 | two non-empty writes may be merged exactly when one request from the buffer of the first, as long as both, does what the two do one after the other, on every device and whatever else the memory holds |
| BlockWrites.MergedIsBacked | src/bdev_writer.cpp:43-54 | if the memory holds both writes in their buffers, it holds the merged one |
| BlockWrites.MergedByte | src/bdev_writer.cpp:43-54 | byte by byte what a log with the merged write leaves, compared with the log in call order |
| BlockWrites.MergeKeepsFifoIffHarmless | src/bdev_writer.cpp:57-68 | merging into an earlier write leaves what appending would, on every device, if and only if the last later write to each of its bytes leaves that byte as the merged write would |
| BlockWrites.DisjointMergeIsHarmless | src/bdev_writer.cpp:57-68 | no overlap with the fetched IOs behind the target makes the merge harmless |
| BlockWrites.MergeCanReorder | src/bdev_writer.cpp:57-68 | three one-block writes for which the merge leaves a different byte than the call order |
| Serializer.ScanMissesNothing | src/bdev_writer.hpp:344-350 | an IO of the set that overlaps the new one starts inside the scanned key interval |
| Serializer.HitsAll | src/bdev_writer.hpp:344-360 | the scan visits exactly the queued IOs that overlap the given one |
| Serializer.MarkOverlapped | src/bdev_writer.cpp:192-204 | nOverlapped becomes the number of earlier queued IOs that overlap; exactly the unsubmitted ones wholly covered become Overwritten; nothing else changes |
| Serializer.ReleaseOverlapped | src/bdev_writer.cpp:207-219 | the IOs that overlap the deleted one wait for one less; exactly those with nothing left to wait for and not skipped join the ready set, whose size counter stays its sum |
| Serializer.EraseOldest | src/bdev_writer.cpp:222-233 | the loop that never advances its iterator ends and removes exactly the oldest IO |
| WriterSteps.OldestIsFirstOfEqualRange | src/bdev_writer.cpp:222-233 | FIFO deletion and insertion-ordered equal keys put the oldest IO first in its equal range |
| WriterSteps.PendingDisjoint | src/bdev_writer.cpp:94-117 | two requests in the kernel's hands never share a byte |
| WriterSteps.KernelDev | include/aio_util.hpp:417-440 | whatever requests the kernel completes, outside the ranges still in flight the device holds the last landed write of each byte |
| WriterSteps.QuiescentDevice | src/bdev_writer.cpp:310-317 | with nothing in flight the device is the FIFO result of the queue, skipped IOs included |
| WriterMachine.InvStep | src/bdev_writer.cpp:57-352 | every step of the code and of the kernel keeps the writer's invariant |
| WriterMachine.RunKeepsInv | src/bdev_writer.cpp:57-352 | the invariant holds in every state of every run |
| WriterMachine.RunSerializesOverlaps | src/bdev_writer.hpp:312-325 | in every state of every run no IO is submitted while an earlier queued one overlaps it |
| WriterMachine.RunBacksRequests | src/bdev_writer.cpp:107-110 | in every state of every run the memory holds the bytes of each pending request at the address the request names, whatever else callers write to memory meanwhile |
| WriterMachine.RunCountsOverlaps | src/bdev_writer.cpp:192-219 | in every state of every run nOverlapped equals the number of earlier, not yet deleted IOs that overlap |
| WriterMachine.RunKeepsSizes | src/bdev_writer.hpp:207-224 | in every state of every run processingSize, fetchedSize and totalSize are the sums over their segments |
| WriterMachine.QuietRunIsFifo | src/bdev_writer.cpp:310-331 | at every quiet point of every run the device is the FIFO result, normal + discard = written + overwritten, and written and overwritten are the volumes of the submitted and of the skipped IOs |
| WriterMachine.DrainedFacts | src/bdev_writer.cpp:310-317 | an empty processing queue leaves serializer, ready set and aio queue empty, as the asserts demand |
| WriterMachine.FrontPlace | src/bdev_writer.cpp:153-166 | equal_range in the ready set finds the front IO if it is there |
| AsyncBdevWriters.ThresholdsPositive | src/bdev_writer.hpp:555-562 | both thresholds are positive if and only if the buffer holds two logical blocks |
| AsyncBdevWriters.QueueDepth | include/aio_util.hpp:135-137 | the aio queue is as deep as the buffer has logical blocks, up to 1024 |
| AsyncBdevWriters.AsyncBdevWriter.IdleLooksBusyIff | src/bdev_writer.hpp:559-562 | an idle writer looks busy, and so waits for a missing IO, if and only if the buffer is below two logical blocks |
| AsyncBdevWriters.AsyncBdevWriter.constructor | src/bdev_writer.hpp:505-514 | an empty writer whose queue order agrees with the call order; fit for use if and only if the buffer holds two logical blocks |
| AsyncBdevWriters.AsyncBdevWriter.KernelWait | include/aio_util.hpp:417-440 | at least one pending request completes, any may; the invariant holds and no key is lost |
| AsyncBdevWriters.AsyncBdevWriter.WaitForFront | src/bdev_writer.cpp:169-178 | the front IO is complete, found in the done set or waited for; its key exists, so the wait does not throw |
| AsyncBdevWriters.AsyncBdevWriter.WaitAny | src/bdev_writer.cpp:181-189 | at least one completion moves to the done set |
| AsyncBdevWriters.AsyncBdevWriter.AioSubmit | include/aio_util.hpp:232-255 | every prepared request becomes pending |
| AsyncBdevWriters.AsyncBdevWriter.SubmitReady | src/bdev_writer.cpp:94-117 | ends with an empty ready set or a full aio queue, and changes nothing only if it took nothing |
| AsyncBdevWriters.AsyncBdevWriter.FindFront | src/bdev_writer.cpp:153-166 | the search finds the front IO in the ready set exactly if it is there |
| AsyncBdevWriters.AsyncBdevWriter.TryEraseFront | src/bdev_writer.cpp:153-166 | a skipped front IO leaves the ready set |
| AsyncBdevWriters.AsyncBdevWriter.ForceComplete | src/bdev_writer.cpp:120-139 | terminates with the front IO complete or dropped |
| AsyncBdevWriters.AsyncBdevWriter.WaitForAnIoCompletion | src/bdev_writer.cpp:320-331 | the front IO, and only it, is deleted, with the invariant kept |
| AsyncBdevWriters.AsyncBdevWriter.FetchNext | src/bdev_writer.cpp:340-346 | the next fetched IO enters the serializer with the invariant kept |
| AsyncBdevWriters.AsyncBdevWriter.MakeRoom | src/bdev_writer.cpp:336-339 | terminates with less than half a buffer in process and less than half a queue in flight; does nothing if that was so |
| AsyncBdevWriters.AsyncBdevWriter.SubmitIfEnough | src/bdev_writer.cpp:347-349 | without force, changes nothing below half a buffer and half a queue of ready IOs; else submits until the ready set is empty or the aio queue full |
| AsyncBdevWriters.AsyncBdevWriter.ProcessIos | src/bdev_writer.cpp:334-352 | terminates; every fetched IO is in process, and with force nothing is left in the ready set |
| AsyncBdevWriters.AsyncBdevWriter.WaitForAllProcessingIos | src/bdev_writer.cpp:310-317 | terminates with nothing queued or in flight; its final asserts hold |
| AsyncBdevWriters.AsyncBdevWriter.Prepare | src/bdev_writer.hpp:518-532 | refused and counted exactly when the range is not on the device; an accepted write keeps agreement with the call order if and only if it does not merge or merges harmlessly; its buffer must leave alone those of queued writes |
| AsyncBdevWriters.AsyncBdevWriter.MergesIff | src/bdev_writer.cpp:57-68 | a write is merged exactly when there is a fetched IO, both have at most 1 MiB, and one request from the buffer of the first fetched IO does the work of both |
| AsyncBdevWriters.AsyncBdevWriter.Enqueue | src/bdev_writer.cpp:57-68 | the write goes behind the queue or into the first fetched IO, and nowhere else; every queued IO is still what the memory holds in its buffer |
| AsyncBdevWriters.AsyncBdevWriter.Submit | src/bdev_writer.hpp:538-540 | no write is lost or reordered; less than half a buffer remains of what was in process, and unless the aio queue is full less than half a buffer and half a queue of ready IOs stay unstarted |
| AsyncBdevWriters.AsyncBdevWriter.WaitForAll | src/bdev_writer.hpp:542-545 | the device is the FIFO result of the queue order, and of the call order where they agree; block counts balance |
| AsyncBdevWriters.AsyncBdevWriter.Discard | src/bdev_writer.cpp:298-307 | drains first, then discards, so a discard takes effect in call order; clipped ones change nothing |
| SimpleBdevWriters.SimpleBdevWriter.Prepare | src/bdev_writer.hpp:439-453 | queues an accepted write and counts a clipped one |
| SimpleBdevWriters.SimpleBdevWriter.Submit | src/bdev_writer.hpp:454-465 | every queued write reaches the device in order; written blocks balance the accepted ones |
| SimpleBdevWriters.SimpleBdevWriter.Discard | src/bdev_writer.hpp:466-472 | a discard reaches the device before the writes still queued |
| SimpleBdevWriters.EarlyDiscardIffHarmless | src/bdev_writer.hpp:466-472 | doing a discard before the queued writes leaves what doing it after them would if and only if they leave its bytes as it would |
| SimpleBdevWriters.RunBoth | src/bdev_writer.hpp:417-565 | for every sequence of prepare, discard, submit and waitForAll calls in which no merge or discard disturbs a write it overtakes, and every completion order, both writers leave the same device and account for the same blocks; it ends early only at a call that refills a buffer still queued, and never if no buffer is refilled before the next drain |
| SimpleBdevWriters.MergeReorders | src/bdev_writer.cpp:57-68 | three prepare calls after which the plain and the asynchronous writer leave different bytes |
| SimpleBdevWriters.DiscardOvertakes | src/bdev_writer.hpp:466-472 | a write and a discard of its block after which they leave different bytes |
| LvNames.AtoiReadsItoa | src/archive_vol_info.cpp:23-36 | a printed 64-bit gid is read back |
| LvNames.AtoiExact | src/archive_vol_info.cpp:23-36 | digits are read as their number if it fits in 64 bits and refused if not |
| LvNames.BaseRoundTrip | src/archive_vol_info.cpp:7-13 | a base image name is read back as its volume if and only if the volume is not called tmp |
| LvNames.TmpRoundTrip | src/archive_vol_info.cpp:39-47 | the temporary name of a cold image is read back as volume and gid |
| LvNames.SnapRoundTrip | src/archive_vol_info.cpp:58-74 | cold and restored names are read back as volume and gid |
| LvNames.TmpRestoredRoundTrip | src/archive_vol_info.cpp:58-74 | temporary restored names are read back as volume and gid |
| LvNames.OneClass | src/archive_vol_info.cpp:7-98 | no name is read as two kinds of image |
| LvNames.NamesDiffer | src/archive_vol_info.hpp:488-498 | base, cold and temporary names of a volume never clash and determine the gid |
| ColdToBase.PhaseNames | src/archive_vol_info.cpp:522-546 | in every phase of a promotion, which of the base and temporary images exist tells the phase |
| ColdToBase.TakeBaseName | src/archive_vol_info.cpp:541-543 | once the base file names the cold snapshot, the rename gives a base image that holds it |
| ColdToBase.RenameBack | src/archive_vol_info.cpp:567-572 | renaming the temporary image back gives the disk before the promotion, but for the size and permission of the cold image |
| VolLvCaches.SearchCold | src/archive_vol_info.cpp:101-111 | the greatest cold gid not above the given one, or none if there is none |
| VolLvCaches.BuildCache | src/archive_vol_info.cpp:165-224 | the cache built from any names lists, under each gid, an image whose name reads as that gid, and none only if there is none; with printed names it is complete and exact |
| VolLvCaches.KnownSettled | src/archive_vol_info.cpp:527-546 | the cache of a server still running fits the disk after a promotion or its undoing |
| ArchiveVolInfos.ArchiveVolInfo.RemoveBeforeGid | src/archive_vol_info.cpp:282-306 | the timestamps below the gid go; of the images and cache entries only cold ones below the gid go; an entry goes only with its image, and if no command fails no listed cold image below the gid is left on the disk; everything else stays, at any crash point |
| ArchiveVolInfos.ArchiveVolInfo.RemoveOneCold | src/archive_vol_info.cpp:289-299 | the image leaves the disk and the entry the cache, or, if the command fails, neither |
| ArchiveVolInfos.ArchiveVolInfo.FinishPromotion | src/archive_vol_info.cpp:540-545 | the temporary image is the base image and the base file says so; its timestamp and the older ones are gone, and if no command fails no listed older cold image is left |
| ArchiveVolInfos.ArchiveVolInfo.MakeColdToBase | src/archive_vol_info.cpp:522-546 | if nothing fails, the cold snapshot is the base image and no listed older cold image is left; wherever power or a command fails, the disk is in one of four recoverable phases and a running server knows it |
| ArchiveVolInfos.ArchiveVolInfo.Recover | src/archive_vol_info.cpp:549-588 | after any failure of a promotion or of a recovery, in the running server or after a restart, it finds the timestamp it reads and ends with the promotion undone or complete; on any other disk it succeeds exactly under the stated condition, and says what is then on the disk |
| ArchiveVolInfos.ArchiveVolInfo.RecoverWithBase | src/archive_vol_info.cpp:561-575 | a temporary image not above the base leaves the disk with its timestamp, one above it becomes the cold image again; nothing else changes |
| ArchiveVolInfos.RecoveryFailsOn | src/archive_vol_info.cpp:567-572 | a disk on which recovery fails |
| ArchiveVolInfos.ArchiveVolInfo.VerifyColds | src/archive.cpp:1884-1899 | exactly the listed cold images without a timestamp are removed from the cache, and on success none of them is left on the disk; cut anywhere, no other image is touched |
| ArchiveVolInfos.ArchiveVolInfo.ApplyPrologue | src/archive.cpp:160-185 | on a volume at rest or left by a failed promotion: recovery first, then the newest listed cold snapshot above the base and up to the gid is promoted, unless the base is being applied; the conditions of the promotion are met |
| ArchiveVolInfos.PromoteThroughCrashes | src/archive_vol_info.cpp:522-588 | for every point at which power or a command fails in a promotion and any number of such failures in recovery, retried live or after restarts, the first recovery without failure leaves a base image that holds what the base file names: the old one with the cold image back, or the cold one |
| ArchiveStates.InvStep | src/archive.cpp:517-2560 | every admission, start, commit, rollback and end of a handler, and every change of the stop flag, keeps the invariant |
| ArchiveStates.OneTransaction | src/state_machine.hpp:86-143 | in every state of every run at most one state transaction is in flight, with a way back and a way on in the table |
| ArchiveStates.ActionsExclude | src/archive_constant.hpp:31-90 | in every state of every run the actions running together and the state they run in are allowed, and each counter is its number of holders, at most 1 |
| ArchiveStates.CanStartIff | src/archive.cpp:2421-2432 | an action can start exactly while its admitted handler has the lock, whatever the stop flag says |
| ArchiveStates.LateStartWasAdmitted | src/archive.cpp:2056-2061 | an action that starts while a stop is pending was admitted before the flag was set, and its handler has had the lock ever since |
| ArchiveStates.OneLateStart | src/archive.cpp:2056-2061 | at most one action starts while a stop is pending |
| ArchiveStates.StoppingDrains | src/archive.cpp:2061-2068 | once the flag is set and no admitted action has the lock, as when the stop handler gets it, the running actions only become fewer |
| ArchiveStates.NoneReceivedWhileStopping | src/archive.cpp:2056-2068 | from any moment at which the flag is set, nobody has the lock and the volume is in none of FullSync, HashSync, WdiffRecv and Resync, it enters none of them while the flag is set |
| ArchiveStates.LateTransactionWasAdmitted | src/archive.cpp:546-566 | a volume that enters one of these states under a pending stop is moved there by the handler that had the lock when the flag was set and ever since |
| ArchiveStates.OneLateTransaction | src/archive.cpp:546-566 | this happens at most once |
| ArchiveStates.StopNeedsFlag | src/archive.cpp:2056-2072 | the state Stop is reached only after the flag was set |
| ArchiveStates.StartsIdle | src/archive.cpp:547-566 | when a full or hash backup, a resync, a stop, start, init, clear or reset starts, no action runs |
| ArchiveStates.ActionStartsWhileStopping | src/archive.cpp:2421-2432 | a run in which an action starts after the flag was set |
| ArchiveStates.AllowedIsReachable | src/archive_constant.hpp:31-90 | every allowed combination of state and actions occurs in some run, so the exclusions are exact |
| ArchiveStates.StartIff | src/archive_constant.hpp:64-90 | an action can start in a state next to a set of running actions, in some run, if and only if: nothing runs; or it is a restore next to one merge, apply or replication; or a resize next to a merge; in the states it accepts |
| ArchiveStates.HandlerCanStart | src/archive.cpp:517-2560 | every handler is admitted and can start in some run |
| ArchiveStates.HandlerPath | src/archive.cpp:517-2560 | the state each handler starts in, passes through and commits |
| ArchiveVolStates.ArchiveVolState.TryChange | src/state_machine.hpp:113-125 | succeeds exactly on an unlocked machine in state from with the edge in the table, and then locks it |
| ArchiveVolStates.ArchiveVolState.Close | src/state_machine.hpp:98-139 | a commit or a rollback keeps the invariant and unlocks the machine |
| ArchiveVolStates.ArchiveVolState.Enter | src/archive.cpp:2421-2426 | a handler with the lock is admitted exactly when its checks pass; what the checks exclude is in NoneReceivedWhileStopping, StoppingDrains, StartsIdle and StartIff |
| ArchiveVolStates.ArchiveVolState.BeginHandler | src/archive.cpp:1946-2080 | an admitted handler starts exactly when its edge is free, and else gives the lock back |
| ArchiveVolStates.ArchiveVolState.BeginResync | src/archive.cpp:1114-1122 | an archived volume passes through Stopped and SyncReady under one lock, so a failed resync rolls back to SyncReady |
| ArchiveVolStates.ArchiveVolState.StartAction | src/archive.cpp:2111-2128 | an admitted action takes its counter from 0 to 1, even if the stop flag was set meanwhile |
| ArchiveVolStates.ArchiveVolState.EndAction | src/action_counter.hpp:84-89 | the counter goes from 1 to 0 |
| BoundedQueues.NoLostWakeup | include/thread_util.hpp:812-989 | in every interleaving: FIFO, bounded, and a thread that sleeps un-notified really has to wait |
| BoundedQueues.PopOutcome | include/thread_util.hpp:976-989 | at every step of every run: a pop gets the oldest undelivered item exactly if there is one and the queue has not failed, sleeps exactly if there is none and the queue is open, and returns with nothing exactly if the queue has failed or is closed with everything delivered |
| BoundedQueues.PushOutcome | include/thread_util.hpp:967-975 | at every step of every run: a push adds its item exactly if the queue is open and has room, sleeps exactly if it is open and full, and ends without adding exactly if it is closed or failed |
| BoundedQueues.EndMeansAllDelivered | include/thread_util.hpp:904-914 | without a failure a pop that returns with nothing means that everything that is ever pushed was delivered |
| BoundedQueues.AfterClose | include/thread_util.hpp:910-943 | after sync nothing more is pushed, after fail nothing is pushed or popped, and nobody is left asleep un-notified |
| BoundedQueues.ResizeSafeIff | include/thread_util.hpp:861-865 | a resize keeps that exactly when the items fit and no sleeping pusher could go on |
| BoundedQueues.ResizeStrandsPusher | include/thread_util.hpp:861-865 | a resize after which an empty queue has a pusher asleep |
| ParallelConverters.InvStep | include/thread_util.hpp:1077-1146 | every step keeps each item in exactly one place with its own value |
| ParallelConverters.DeliversInOrder | include/thread_util.hpp:1085-1101 | in every interleaving the consumer got conv(t0), conv(t1), ... in push order, each once |
| ParallelConverters.FalseMeansAllDelivered | include/thread_util.hpp:1085-1110 | when pop returns false, every pushed item was delivered if and only if a worker was started or nothing was pushed |
| ParallelConverters.RunPopReturns | include/thread_util.hpp:1085-1145 | in every state of every run: a pop after sync, or for an item pushed to a started converter, can always be answered by finitely many steps of workers, sync and consumer |
| ParallelConverters.PathsEnd | include/thread_util.hpp:1085-1145 | no sequence of such steps goes on for ever |
| ParallelConverters.NoWorkerLosesItems | include/thread_util.hpp:1105-1110 | without a worker it returns false with an item undelivered |
| QueueBytes.ChecksumPartial | include/checksum.hpp:24-41 | the loop adds the little-endian words, the last one padded with zeros |
| QueueBytes.PartialConcat | include/checksum.hpp:11-19 | cut at any multiple of four, the sum may be continued in a second call |
| QueueBytes.HeaderRoundTrip | include/queue_file.hpp:29-39 | a header is read back from its 28 bytes |
| QueueBytes.UpdatedHeaderIsValid | include/queue_file.hpp:410-422 | the words of a header whose checksum was updated sum to 0, and it is accepted |
| QueueBytes.AcceptedIff | include/queue_file.hpp:410-422 | a header is accepted exactly if it has the preamble and the checksum an update would give it |
| QueueBytes.DamagedHeaderRefused | include/queue_file.hpp:410-418 | any change within one word of an accepted header copy makes it refused |
| QueueBytes.MixedCopyRefused | include/queue_file.hpp:410-418 | a copy of old and new words, where at most three words change, is old, new or refused |
| QueueLayout.ReadRecord | include/queue_file.hpp:41-76 | at the k-th record's offset the size, data, toPrev and checksum of the k-th item are found |
| QueueLayout.AppendRecord | include/queue_file.hpp:135-147 | the writes of pushBack turn the bytes of a queue into those of the queue with one more item at the end |
| QueueLayout.PrependRecord | include/queue_file.hpp:155-166 | the writes of pushFront turn them into those with one more item in front |
| QueueLayout.DropFirst | include/queue_file.hpp:202-206 | without its first record the rest is a queue |
| QueueLayout.DropLast | include/queue_file.hpp:207-210 | going back by toPrev from the end drops exactly the last item |
| QueueLayout.Relocated | include/queue_file.hpp:249-256 | the copied live region holds the same items under the moved header |
| QueueFiles.TotalSizeExactIff | include/queue_file.hpp:78-80 | the 32-bit total size is right if and only if the data has at most 2^32 - 17 bytes |
| QueueFiles.PrevRecord | include/queue_file.hpp:316-320 | from every record after the first, and from the end, toPrev leads to the previous one |
| QueueFiles.CutHeaderReads | include/queue_file.hpp:219-226 | while the two header copies are replaced one after the other, one of the two headers is always read |
| QueueFiles.DamageDetected | include/queue_file.hpp:400-409 | with one header copy damaged in one word the other is read, whichever it is; with both damaged the file is refused |
| QueueFiles.CutBetweenWordsIsTorn | include/queue_file.hpp:219-226 | a header copy cut between two words is the old one, the new one or refused, as long as the offsets stay in their 4 GiB |
| QueueFiles.CopyApart | include/queue_file.hpp:248-250 | arbitrary bytes in the target of the copy leave the old queue readable |
| QueueFiles.QueueFile.PushBack | include/queue_file.hpp:135-147 | the item goes behind the others |
| QueueFiles.QueueFile.PushFront | include/queue_file.hpp:155-166 | the item goes before the others; cut while space is reserved, the file opens to the old items, or, in the first sync, to the last synced header over untouched records |
| QueueFiles.QueueFile.PopFront | include/queue_file.hpp:202-206 | the first item goes; fails exactly on an empty queue |
| QueueFiles.QueueFile.PopBack | include/queue_file.hpp:207-210 | the last item goes; fails exactly on an empty queue |
| QueueFiles.QueueFile.Front | include/queue_file.hpp:184-187 | returns the first item |
| QueueFiles.QueueFile.Back | include/queue_file.hpp:198-201 | returns the last item |
| QueueFiles.QueueFile.Clear | include/queue_file.hpp:215-218 | the queue is empty |
| QueueFiles.QueueFile.VerifyAll | include/queue_file.hpp:366-382 | over records whose sizes and links are intact, whatever their data, both walks end and succeed exactly if every record passes; in a valid file every one does |
| QueueFiles.DamagedRecordFails | include/queue_file.hpp:448-456 | a record with any change within one word of its data does not pass, and the walks still find it |
| QueueFiles.DamagedFieldFails | include/queue_file.hpp:448-456 | so does one with another preamble or checksum |
| QueueFiles.QueueFile.Sync | include/queue_file.hpp:219-226 | both copies become the current header; cut, the file reads as the old header or the new one, records untouched |
| QueueFiles.QueueFile.MoveTo | include/queue_file.hpp:248-256 | cut anywhere between copy and header change, the file reopens to the same items |
| QueueFiles.QueueFile.Gc | include/queue_file.hpp:233-259 | the items move to the start of the file and it shrinks; cut in the first sync it opens to the items or to the last synced header over untouched records, cut anywhere later to the items |
| QueueFiles.QueueFile.ReserveFrontSpace | include/queue_file.hpp:260-286 | the asked space is free before the first record, items unchanged; cut in the first sync it opens to the items or to the last synced header over untouched records, cut anywhere later to the items |
| QueueFiles.QueueFile.Open | include/queue_file.hpp:388-409 | opening a file gives the queue under its first accepted header and makes both headers the same; which header that is after damage is in DamageDetected |
| QueueFiles.OpenFile | include/queue_file.hpp:400-409 | a file is refused exactly if neither of its headers is accepted |
| QueueFiles.QueueFile.Create | include/queue_file.hpp:388-399 | a new file holds the empty queue and is synced |
| AsyncBdevReaders.FreeSizeIs | src/bdev_reader.cpp:5-16 | getFreeSize is the ring size minus the bytes in use |
| AsyncBdevReaders.AsyncBdevReader.IoSizeFacts | src/bdev_reader.cpp:86-101 | the request has the full size unless it ends at the edge or the device end, is whole blocks, and is 0 exactly when there is no room for a full request or the device ends |
| AsyncBdevReaders.AsyncBdevReader.PrepareAheadIo | src/bdev_reader.cpp:53-65 | adds one request, or none because the aio queue is full, the ring has no room, or the device ends |
| AsyncBdevReaders.AsyncBdevReader.InFlightIff | src/bdev_reader.hpp:36-50 | a slot is in flight exactly when its stream position is requested and not yet readable, so no request lands on an unread byte |
| AsyncBdevReaders.AsyncBdevReader.WaitForIo | src/bdev_reader.cpp:67-74 | the oldest request's bytes become readable; bytes not in flight are untouched |
| AsyncBdevReaders.AsyncBdevReader.PrepareAvailableData | src/bdev_reader.cpp:76-84 | fails exactly when everything up to the end of the device was delivered |
| AsyncBdevReaders.AsyncBdevReader.Consume | src/bdev_reader.cpp:28-39 | one copy that does not cross the edge delivers the next device bytes |
| AsyncBdevReaders.AsyncBdevReader.Read | src/bdev_reader.cpp:41-51 | returns exactly the next bytes of the device, and fails exactly when fewer are left |
| AddressUtil.GetAlignedSize | src/address_util.hpp:13-24 | the largest power of two, up to 2^31, that divides the address |
| AddressUtil.GetMaxAlignedSize | src/address_util.hpp:48-58 | the largest power of two not above the size |
| AddressUtil.OneBitIsPow2 | src/address_util.hpp:27-31 | one bit set means a power of two |
| AddressUtil.IsAlignedIoIff | src/address_util.hpp:34-37 | isAlignedIo holds exactly for a power of two that divides the address |
| AddressUtil.NestedOrDisjoint | src/address_util.hpp:34-37 | two aligned IOs that share a block are nested |
| AddressUtil.SplitIoToAligned | src/address_util.hpp:65-82 | terminates; each piece is the largest aligned one possible under the cap |
| AddressUtil.GreedyTiles | src/address_util.hpp:65-82 | the pieces tile the range |
| AddressUtil.SplitIsCoarsest | src/address_util.hpp:65-82 | every other aligned tiling under the same cap has all its boundaries, so none has fewer pieces |
| BlockMultiBuffers.BlockMultiBuffer.Alloc | include/memory_buffer.hpp:282-297 | succeeds exactly under the capacity tests and then gives a range apart from all live ones; says where the head is afterwards, also after a refusal |
| BlockMultiBuffers.BlockMultiBuffer.Free | include/memory_buffer.hpp:304-320 | exactly that allocation goes; the scan ends with the tail on a live allocation or the head |
| BlockMultiBuffers.LiveApart | include/memory_buffer.hpp:282-320 | live allocations lie inside the buffer and share no block |
| BlockMultiBuffers.FitsIff | include/memory_buffer.hpp:282-290 | for every head and tail, exactly which requests are served |
| BlockMultiBuffers.RefusesAllIff | include/memory_buffer.hpp:282-290 | every request is refused exactly when the tail is one block ahead of the head, or the head at the last block and the tail at one of the first two |
| BlockMultiBuffers.IdleServesIff | include/memory_buffer.hpp:282-290 | with head and tail together, exactly the requests that fit before the end or before the head are served |
| BlockMultiBuffers.StaysDead | include/memory_buffer.hpp:282-290 | a refusal does not end that state |
| BlockMultiBuffers.KillEmptyBuffer | include/memory_buffer.hpp:282-320 | four calls that leave an empty buffer refusing every request |
| NonOverlappedRangeMaps.FitsIffFree | binsrc/writer-verifier.cpp:514-527 | cond1 and cond2 hold exactly when the range overlaps no held one |
| NonOverlappedRangeMaps.NonOverlappedRanges.TryInsert | binsrc/writer-verifier.cpp:456-463 | succeeds exactly when the range overlaps no held one, and then holds it too |
| NonOverlappedRangeMaps.NonOverlappedRanges.Erase | binsrc/writer-verifier.cpp:464-469 | removes just that range |
| NonOverlappedRangeMaps.NonOverlappedRanges.VerifyAll | binsrc/writer-verifier.cpp:478-502 | on any map, the alternation check passes exactly if the map is the boundary map of some set of disjoint ranges; so always in a valid one |
| RangeMutexes.HeldApart | binsrc/write_overlapped_and_verify.cpp:176-194 | in every interleaving overlapping ranges are never held together |
| RangeMutexes.LocksIffFree | binsrc/write_overlapped_and_verify.cpp:176-185 | in every interleaving an idle thread gets a range exactly when nobody has a block of it |
| RangeMutexes.HolderProceeds | binsrc/write_overlapped_and_verify.cpp:270-296 | a thread that has a range can always take its next step towards the unlock |
| RangeMutexes.LargestNumberWroteLast | binsrc/write_overlapped_and_verify.cpp:270-296 | once all threads are done each block holds the data of the thread that noted the largest number for it |
| RangeMutexes.FinalWriter | binsrc/write_overlapped_and_verify.cpp:417-432 | the maximum loop names exactly that thread |
| SipHashes.AbsorbAppend | include/siphash.hpp:66-96 | absorbing two parts equals absorbing the first and then its rest with the second |
| SipHashes.SipHash.Compress | include/siphash.hpp:66-96 | a fragment of any length, also empty, is appended to the message |
| SipHashes.SipHash.Finalize | include/siphash.hpp:100-103 | the hash of the message so far, with the length byte in the last word |
| SipHashes.HashFragments | include/siphash.hpp:66-146 | however the message is cut, the hash is that of the whole by the block-wise definition |
| SipHashes.WordByte | include/siphash.hpp:80-90 | words are read little-endian, byte by byte |
| SipHashes.LastBlockIs | include/siphash.hpp:130-137 | the last word is the bytes behind the last multiple of eight, zeros, and the length modulo 256 as its highest byte |
| SipHashes.PublishedHash | include/siphash.hpp:53-146 | the model gives the hash that appendix A of the paper "SipHash: a fast short-input PRF" publishes for its 15-byte message |

## Left out

- 32-bit aio keys: keys are unbounded, so the case of a key that wraps around to one still in use is not modelled (include/aio_util.hpp:405-411).
- Failed aio requests, exceptions of the kernel interface and the destructors that wait for outstanding requests.
- The bound that clips requests is an opaque parameter; how it is computed from the device size is not modelled.
- 64-bit overflow of device offsets in the writer, and of `size_`/`offLb + sizeLb`; offsets are unbounded.
- AsyncBdevWriters.AsyncBdevWriter.Prepare: requests of 2^32 bytes or more are excluded, because the overlap test is wrong for them.
- What the device shows after a discard is a parameter of the discard.
- BoundedQueues.NoLostWakeup: the time a thread takes to get the mutex after a wake-up, and hence progress, is not modelled.
- ParallelConverters.FalseMeansAllDelivered: the two queues enter as the FIFO queues that `NoLostWakeup` shows them to be; blocking on a full queue is not modelled there.
- QueueFiles.QueueFile.PushBack: crashes during plain pushes and pops are not modelled, because the source promises nothing before the next sync; the file size is not rounded up to pages.
- QueueFiles.QueueFile.Sync: a torn header copy is assumed to fail its checksum or to equal the old or the new copy; `CutBetweenWordsIsTorn` proves that for a cut between words of headers whose offsets stay in their 4 GiB, beyond that a torn copy with the same word sum would be accepted.
- QueueFiles.QueueFile.VerifyAll: with a damaged size or link field the walks of the source may leave the file or not end; not modelled.
- QueueFiles.OpenFile: the source does not look at the records when it opens a file; that an accepted header stands over intact records is a condition here.
- AsyncBdevWriters.AsyncBdevWriter.Prepare: a buffer counts as in use until its IO leaves the queue, which is when the writer frees it; that its request completes earlier is not visible to a caller.
- VolLvCaches.BuildCache: the thin-pool filter and restored images are not modelled; promotion and recovery assume names as printed, without leading zeros in the gid.
- ArchiveVolInfos.ArchiveVolInfo.RemoveBeforeGid: the diff files it also removes are not modelled.
- ArchiveVolInfos.ArchiveVolInfo.MakeColdToBase: the cached base size is assumed right; it goes stale when the promoted image is larger than the old base, which snapshots of the base are not.
- ArchiveStates.InvStep: the debug handlers that set the state directly, the limit on foreground tasks, and the data transferred by the handlers.
- AsyncBdevReaders.AsyncBdevReader.Read: the device does not change while it is read; a start offset beyond the device or off a block boundary is excluded.
- RangeMutexes.HeldApart: only start offset 0, since the lock index is the device address while the bitmap has the size of the area.
- Meta-state algebra, diff merging and packing, log formats, full and hash synchronisation protocols: not part of this model.
- Thread pools, sockets, command-line tools, compressors and random generators.
