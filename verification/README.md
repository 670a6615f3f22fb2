# Tobacco, verified

A Dafny model of the parts of the Tobacco kernel that are hard to get right, and proofs about them:
capability IPC, the scheduler, the blocking protocol that ties tasks, scheduler and IPC together,
page tables and address spaces, the two allocators, and the formats the kernel loads programs from.

Each part has the same shape. A `...Model` file states what the code computes, over values. The
`...Laws`, `...Runs` and similar files prove properties of that model: invariants of every reachable
state, refinement of a simpler reference, round trips, conservation. The `...Answers` files say what
each operation answers in every case and what it leaves behind, in terms of the arguments and the state
before the call: success and every refusal, each with its exact condition. A file named after the component
(`Ipc`, `Scheduler`, `Process`, `Paging`, `Physmem`, `Space`, `Elf`, `Loader`, `BootLoader`, `Heap`, `Cpio`) holds the
code in the form the kernel has it, with classes, arrays, rings and loops, each method proved equal to
the model's function. `dafny verify dfyconfig.toml` checks the whole project.

| part | model | laws | running form |
|---|---|---|---|
| capability IPC | IpcModel | IpcLineage, IpcInvariant, IpcPreservation, IpcTransfer, IpcViews, IpcRuns, IpcLaws, IpcAnswers, IpcLedger | Ipc |
| scheduler | SchedModel | SchedLaws, SchedAnswers | Scheduler |
| tasks, scheduler and IPC together | JointModel | JointLaws, JointMoves, JointProtocol, JointSteps, JointBlocking, JointRuns, JointAnswers | Process |
| page tables | PagingModel, PageEntry | PagingTree, PagingLaws, PagingRefine, PagingRuns, PagingBoot, PagingSupply, PagingEdits, PagingMisuse, PagingAnswers | Paging |
| frame allocator | PhysmemModel | PhysmemLaws, PhysmemRuns, PhysmemBoot | Physmem |
| address spaces | SpaceModel | SpaceFrames, SpaceTree, SpaceLaws, SpaceMap, SpaceUser, SpaceLife, SpaceSystem, SpaceOverflow, SpaceMirror, SpaceKernel, SpaceRuns, SpaceAnswers | Space |
| ELF loader | ElfModel, LoaderModel | ElfLaws, LoaderPages, LoaderBytes, LoaderLaws, LoaderBuild, LoaderBoot, LoaderSupply, LoaderNeeds, ElfAnswers, LoaderAnswers, BootAnswers | Elf, Loader, BootLoader |
| heap | HeapModel | HeapLaws, HeapBlocks, HeapSafety, HeapRuns, HeapAnswers | Heap |
| CPIO archive | CpioModel | CpioLaws, CpioAccepted, CpioAnswers | Cpio |

## Main results

- **IPC.** The kernel's own invariant, strengthened (RECEIVE stays with the target, each generation is
  attached to at most one queued message), is inductive over every operation. Revocation is open to
  exactly the holder of the capability, exact, and terminates; cleanup of a task leaves nothing held by
  it, aimed at it or derived from it; transfer is all-or-nothing, and end to end the receiver is told a
  handle that resolves to the attenuated child; mailboxes refine FIFO queues of whole messages,
  attachments included, over whole runs; generation search needs at most one probe more than there are
  active capabilities; and a revoked handle stays dead until the counter wraps.
- **Scheduler.** Exactly FIFO round-robin: the starvation guard and the rollback branch are unreachable,
  and every wait is at most 16 ticks, a bound that a run from boot attains.
- **Joint protocol.** In every run the endpoint's wait flag, the task's state and the scheduler's blocked
  list agree, wake-ups never fail, spawning never runs out of endpoints, and a tick wakes exactly the
  tasks whose deadline has come.
- **Page tables.** Every run of the mapper is a run of a flat map of pages, while frames are freed and
  reused and other clients of the frame allocator do as they like with frames that hold no page table;
  the audit reports exactly whether the record table has overflowed.
- **Address spaces.** Creating, building, mapping in, writing through and destroying one space changes no
  translation and no page of any other, nor of the kernel, in every run over any number of spaces. When
  calls of the kernel's mapper come in between, every space follows them through the tables it shares: in
  every run from boot each space translates its own pages and, wherever its root or low table has an
  entry, what the kernel translates at that moment.
- **Loading.** An image is accepted if and only if it meets one declarative condition. A process image
  is loaded byte for byte or not at all; it is loaded exactly when the image is accepted and the allocator
  supplies its tables and pages, and a failed build leaves the set of frames in use unchanged. Loading
  into the boot address space succeeds exactly when its pages are unmapped and supplied; when it fails
  it brings every translation back and leaves in use exactly the page tables it made.
- **Allocators and formats.** The heap keeps a tiling in a normal form that is unique, so allocating and
  freeing restores the same blocks; clients that stay in their payloads never cause a corruption report.
  The frame allocator refines a set, which at boot holds exactly the whole frames of the usable regions.
  An archive is accepted exactly if it is a well-formed chain of entries, and one written by the build
  tool parses back to its entries.

Some promises fail for some arguments or states, and the exact condition is proved for each:

- task id 0 matches a free endpoint; `register` refuses it, the other entry points rely on their callers
  (`IpcLedger.StepKeepsInvIff`, `IpcLedger.StepConservesIff`, with witnesses in `IpcLedger.ZeroIdBreaks`);
- a blocking receive made on behalf of a task that is already asleep clears the flag it sleeps on
  (`JointBlocking.ReceiveJointIff`, with a run from boot in `JointRuns.SecondReceiveReached`);
- destroying an address space loses the frames that do not fit the recycle stack
  (`SpaceLife.DestroyExact`, with a run from boot in `SpaceOverflow.OverflowHappens`);
- freeing a frame that holds a page table of the kernel lets the next mapping redirect pages that were
  not touched (`PagingMisuse.FreedOkIff`, with a run from boot in `PagingMisuse.FreedTableMisleads`), and
  of the writes to a page table some are harmless and some are not (`PagingMisuse.WrittenOkIff`, with one
  of each on the boot tables in `PagingMisuse.BootWrites`);
- a page the kernel maps later is seen by an existing space exactly if the kernel's table above it was
  there when the space was created (`SpaceRuns.RunTranslates`; `SpaceRuns.CreateLinks` and
  `SpaceRuns.BuildLinks` at the beginning, `SpaceRuns.CallLinks` and `SpaceRuns.StepLinks` from then on;
  with a run from boot in `SpaceRuns.MappedTooLate`);
- with several bin/init entries the index records the size of the last and a lookup returns the first
  (`CpioAccepted.AcceptedArchive`, `CpioAccepted.TwoInits`).

## Model

| member | source | states |
|---|---|---|
| `IpcModel.EncodeDecode` | src/ipc.rs:1592-1607 | decoding an encoded handle gives back slot and generation; the handle fits 64 bits |
| `IpcModel.DecodeEncode` | src/ipc.rs:1592-1607 | encoding what a handle decodes to gives back the handle; the slot is in range and the generation is not 0 |
| `IpcInvariant.FreshProbes` | src/ipc.rs:744-758 | generation search ends after at most one probe more than there are taken generations, wraparound included, with a generation that is not taken |
| `IpcInvariant.GenerationsBound` | src/ipc.rs:744-758 | at most eight generations per endpoint are active, so a free one always exists |
| `IpcInvariant.AllocateFresh` | src/ipc.rs:744-758 | the allocated generation is in 1 to 2^56-1 and used by no active capability, no parent link and no queued message, also when registering |
| `IpcPreservation.RegisterKeepsInv` | src/ipc.rs:344-375 | registering keeps the full IPC invariant |
| `IpcPreservation.UnregisterKeepsInv` | src/ipc.rs:377-401 | cleanup re-establishes the invariant it breaks midway |
| `IpcPreservation.CleanupBranches` | src/ipc.rs:377-401 | the generations removed by cleanup are closed under delegation, contain all that is held or aimed at the task, and spare every other root |
| `IpcPreservation.GrantKeepsInv` | src/ipc.rs:417-451 | granting between non-zero tasks keeps the invariant |
| `IpcPreservation.RevokeKeepsInv` | src/ipc.rs:453-470 | revoking keeps the invariant |
| `IpcPreservation.ResolveKeepsState` | src/ipc.rs:583-612 | under the invariant resolving never reaches its cleanup branch, and returns a live capability of the owner with the required rights and a registered target |
| `IpcPreservation.SendKeepsInv` | src/ipc.rs:767-800 | sending to a non-zero task keeps the invariant |
| `IpcPreservation.SendCapabilityCases` | src/ipc.rs:614-623 | sending through a capability is sending to its target, or a refusal without effect |
| `IpcPreservation.ReceiveCases` | src/ipc.rs:802-823 | receiving fails without effect or takes the head of the own queue; what is delivered is in `IpcAnswers.ReceiveAnswer` |
| `IpcPreservation.ReceiveKeepsInv` | src/ipc.rs:802-823 | receiving keeps the invariant |
| `IpcTransfer.TransferCases` | src/ipc.rs:646-732 | a transfer changes nothing or commits, and commits only when every check holds |
| `IpcTransfer.TransferKeepsInv` | src/ipc.rs:646-732 | transfer keeps the invariant |
| `IpcTransfer.TransferAtomic` | src/ipc.rs:646-732 | on an error the whole state is unchanged; on success exactly one message and one attenuated child appear, and the handle in the message resolves for the receiver to that child |
| `IpcRuns.StepKeepsInv` | src/ipc.rs:930-941 | every operation keeps the invariant |
| `IpcRuns.Reach` | src/ipc.rs:930-941 | the invariant holds in every state a run reaches |
| `IpcRuns.StepGenerations` | src/ipc.rs:744-758 | until the counter wraps a step makes active only a generation never used before |
| `IpcRuns.RevokedStaysDead` | src/ipc.rs:583-612 | a generation that is gone resolves for no owner and with no rights in any later state |
| `IpcLaws.RevokedHandleDies` | src/ipc.rs:453-470 | a handle revoked from slot 1 or above never resolves again while the counter does not wrap |
| `IpcRuns.StepRefinesMail` | src/ipc.rs:237-264 | every step of the mailboxes is a step of FIFO queues of whole messages: a send appends one, a receive takes the head, a revocation or cleanup takes off exactly the attachments that went, nothing else touches a queue |
| `IpcLaws.DeliveryIsFifo` | src/ipc.rs:767-823 | over every run each task receives a prefix of what was accepted for it, once, intact and in strictly increasing sequence order, with its handle and rights unless the attached capability went meanwhile |
| `IpcLaws.RevokeIff` | src/ipc.rs:453-470 | a handle can be revoked exactly by the task that holds the capability it names, slot 0 included |
| `IpcLaws.RevokeExact` | src/ipc.rs:453-549 | revoking a held capability, whichever slot it is in, removes precisely the capability and its transitive descendants (for slot 0 the strict descendants) and leaves all other slots unchanged |
| `IpcLaws.RevokeExactQueues` | src/ipc.rs:532-549 | revoking a held capability strips exactly the queued attachments of removed generations; payloads, order and other messages stay |
| `IpcLaws.RevokeReport` | src/ipc.rs:472-549 | the report counts the slots that were cleared, those of them other than the one named, and the queued attachments taken off |
| `IpcLaws.AttachedOnce` | src/ipc.rs:1564-1590 | each generation is attached to at most one queued message |
| `IpcLaws.UnregisterExact` | src/ipc.rs:377-401 | after cleanup precisely the capabilities held by the task, aimed at it, or derived from one that was, are gone |
| `IpcLaws.UnregisterSpares` | src/ipc.rs:377-401 | every other endpoint keeps its slot-0 capability, its wait flag and all its queued messages, each with its attachment unless that capability went |
| `IpcLaws.UnregisterAnswer` | src/ipc.rs:377-401 | unregistering succeeds exactly for a registered task and reports the messages it drops |
| `IpcAnswers.RegisterAnswer` | src/ipc.rs:344-375 | registering opens an empty mailbox with one capability, the own one with all four rights; refused exactly for task 0, a registered task, or when all eight endpoints are taken |
| `IpcAnswers.SelfAnswer` | src/ipc.rs:403-415 | a registered task's own handle names its slot 0; a task that is not registered has none |
| `IpcAnswers.GrantAnswer` | src/ipc.rs:417-451 | granting between non-zero tasks succeeds exactly under the four checks and each refusal has its own; on success one free slot of the owner, and nothing else, changes to a root capability with the target and exactly the rights asked for |
| `IpcAnswers.GrantedResolves` | src/ipc.rs:417-451 | the handle returned by a grant resolves for the owner exactly if the rights required are among those granted |
| `IpcAnswers.RevokeRefused` | src/ipc.rs:453-470 | revoking is refused exactly for a handle that names nothing, with the reason, and then changes nothing |
| `IpcAnswers.ResolveAnswer` | src/ipc.rs:583-612 | a handle resolves exactly if it names a capability of the owner with the required rights, and to that capability; otherwise the reason is told |
| `IpcAnswers.SendAnswer` | src/ipc.rs:767-800 | sending between registered tasks fails exactly on a message that is too long or a full mailbox; on success the message, numbered next, is last in the receiver's queue and nothing else changes |
| `IpcAnswers.SendCapabilityAnswer` | src/ipc.rs:614-623 | sending through a capability fails exactly for its name, its SEND right, the length or a full mailbox, in that order |
| `IpcAnswers.TransferAnswer` | src/ipc.rs:646-732 | a transfer is refused exactly for the first check that fails and then without effect; otherwise the receiver gets child and message |
| `IpcAnswers.ReceiveAnswer` | src/ipc.rs:802-823 | a registered task gets all five fields of the head of its mailbox, unless that is empty or longer than the buffer, when nothing changes |
| `IpcAnswers.ReceivedResolves` | src/ipc.rs:802-823 | whatever happened while the message was queued, a received handle resolves for the receiver exactly for the rights told with it |
| `IpcAnswers.TransferReceived` | src/ipc.rs:646-823 | the receiver of a committed transfer is told the handle the transfer returned, and it resolves to the source's target with the attenuated rights |
| `IpcAnswers.WaitingAnswer` | src/ipc.rs:825-831 | the wait flag of exactly the named task is set, or the task is not registered and nothing changes |
| `IpcLedger.RunConserves` | src/ipc.rs:868-928 | in every run sent = received + queued + dropped, granted = revoked + active, created = destroyed + registered |
| `IpcLedger.GrantKeepsInvIff` | src/ipc.rs:417-451 | granting keeps the invariant exactly unless task 0 is owner or target and every check of the call passes |
| `IpcLedger.SendKeepsInvIff` | src/ipc.rs:767-800 | sending keeps the invariant exactly unless the receiver is task 0, an endpoint is free and the call's checks pass |
| `IpcLedger.StepKeepsInvIff` | src/ipc.rs:862-866 | for every operation with any arguments: the invariant is kept exactly if nothing is put in or aimed at a free endpoint |
| `IpcLedger.StepConservesIff` | src/ipc.rs:862-866 | for every operation with any arguments: conservation is kept exactly unless task 0 is unregistered while an endpoint is free |
| `IpcLedger.ZeroIdBreaks` | src/ipc.rs:862-866 | right after initialization, granting, sending, waiting and unregistering as task 0 succeed and break the invariant or conservation |
| `Ipc.IpcState.AllocateGeneration` | src/ipc.rs:744-758 | the probing loop computes the specified generation within the probe bound |
| `Ipc.IpcState.StripQueued` | src/ipc.rs:532-549 | the loop over rings strips exactly the attachments of one generation and counts them |
| `Ipc.IpcState.RevokeBranch` | src/ipc.rs:486-512 | the recursion removes exactly the branch and reports the true counts |
| `Ipc.IpcState.RevokeCapability` | src/ipc.rs:453-470 | revocation as it runs equals the specification, report included |
| `Ipc.IpcState.Register` | src/ipc.rs:344-375 | registration as it runs equals the specification |
| `Ipc.IpcState.Unregister` | src/ipc.rs:377-401 | the two cleanup loops terminate and equal the specification |
| `Ipc.IpcState.Grant` | src/ipc.rs:417-451 | granting as it runs equals the specification |
| `Ipc.IpcState.Resolve` | src/ipc.rs:583-612 | resolution as it runs equals the specification, stale cleanup included |
| `Ipc.IpcState.Send` | src/ipc.rs:767-800 | sending into the ring equals appending to the queue |
| `Ipc.IpcState.Transfer` | src/ipc.rs:646-732 | transfer as it runs equals the specification |
| `Ipc.IpcState.Dequeue` | src/ipc.rs:802-823 | receiving from the ring equals taking the head of the queue |
| `Ipc.IpcState.SetWaiting` | src/ipc.rs:825-831 | sets exactly one flag |
| `SchedLaws.AlwaysHead` | src/scheduler.rs:386-406 | on an ordered queue the choice is the head and the starvation guard does not fire |
| `SchedLaws.PreemptRotates` | src/scheduler.rs:341-384 | preemption is exactly a rotation; its rollback branch is unreachable |
| `SchedLaws.DispatchTakesHead` | src/scheduler.rs:268-306 | a blocking dispatch runs the head and appends the blocked task to the blocked list |
| `SchedLaws.WakeEffect` | src/scheduler.rs:308-330 | waking moves one task from the blocked list to the tail, or fails exactly when the queue is full |
| `SchedLaws.StepKeepsInv` | src/scheduler.rs:171-406 | every operation keeps ready, blocked and current tasks distinct, non-zero and disjoint and the queue in order of arrival, and never uses the guard |
| `SchedLaws.RunKeepsInv` | src/scheduler.rs:482-529 | the invariant holds in every state reached by permitted operations |
| `SchedLaws.EnqueueInvIff` | src/scheduler.rs:179-201 | enqueueing breaks the invariant exactly when it queues a blocked task |
| `SchedLaws.MoveBounded` | src/scheduler.rs:268-406 | every move keeps elapsed plus possible further waiting of each queued task within 16 ticks |
| `SchedLaws.WaitBounded` | src/scheduler.rs:5-7 | in every run of the ticking system each dispatched task waited at most 16 ticks, below the starvation limit of 18 |
| `SchedLaws.WaitBoundAttained` | src/scheduler.rs:5-7 | a run from boot, eight arrivals and eight quanta, in which a task waits exactly 16 ticks |
| `SchedAnswers.EnqueueAnswer` | src/scheduler.rs:179-201 | queueing is refused exactly for task 0 and on a full queue, does nothing for a task that is queued or running, and otherwise appends it |
| `SchedAnswers.BeginAnswer` | src/scheduler.rs:203-225 | starting a task takes it off queue and blocked list and begins a fresh slice; finishing it takes it off everywhere |
| `SchedAnswers.BlockAnswer` | src/scheduler.rs:240-266 | a known task leaves processor or queue for the end of the blocked list, if that has room |
| `SchedAnswers.WakeAnswer` | src/scheduler.rs:308-330 | a blocked task goes to the tail of the queue with the present tick; on a full queue it stays blocked |
| `SchedAnswers.SelectAnswer` | src/scheduler.rs:386-406 | on a queue in any order: the head, unless somebody has waited 18 ticks; then the first of those that waited longest |
| `SchedAnswers.StaysAnswer` | src/scheduler.rs:268-384 | preemption and blocking dispatch do nothing when there is nothing to do |
| `SchedulerImpl.Scheduler.SelectNextOffset` | src/scheduler.rs:386-406 | the scan equals the specified choice |
| `SchedulerImpl.Scheduler.RemoveOffset` | src/scheduler.rs:440-460 | shifting in the ring equals removal from the sequence |
| `SchedulerImpl.Scheduler.EnqueueAt` | src/scheduler.rs:179-201 | enqueueing in the ring equals the specification |
| `SchedulerImpl.Scheduler.BlockTask` | src/scheduler.rs:240-266 | blocking as it runs equals the specification |
| `SchedulerImpl.Scheduler.WakeTask` | src/scheduler.rs:308-330 | waking as it runs equals the specification |
| `SchedulerImpl.Scheduler.BlockCurrentAndDispatch` | src/scheduler.rs:268-306 | dispatch as it runs equals the specification |
| `SchedulerImpl.Scheduler.PreemptCurrent` | src/scheduler.rs:341-384 | preemption as it runs equals the specification |
| `SchedulerImpl.Scheduler.BeginTask` | src/scheduler.rs:203-212 | starting a task equals the specification |
| `SchedulerImpl.Scheduler.FinishTask` | src/scheduler.rs:214-225 | finishing a task equals the specification |
| `JointLaws.StartJoint` | src/process.rs:540-577 | the joint invariant holds at boot |
| `JointLaws.RoomToWake` | src/scheduler.rs:308-330 | with a live task outside the ready queue, the queue has room: a wake-up cannot fail |
| `JointProtocol.SendMessageJoint` | src/ipc.rs:1013-1066 | sending keeps the joint invariant and never reports a failed wake-up |
| `JointProtocol.SendThroughJoint` | src/ipc.rs:1020-1026 | the same through a capability |
| `JointProtocol.SendGrantJoint` | src/ipc.rs:1028-1053 | the same with a capability attached |
| `JointProtocol.CancelWaitJoint` | src/ipc.rs:994-1007 | cancelling wakes the target exactly when its endpoint waits, and keeps the joint invariant |
| `JointProtocol.ExpireJoint` | src/process.rs:1360-1382 | of the first n slots exactly those whose deadline has come are ready with the reason ByTimeout; every other slot is unchanged |
| `JointProtocol.TimerTickJoint` | src/process.rs:1360-1382 | a tick times out exactly the blocked waiters with a deadline other than 0 that is not after the tick; tasks without a deadline or with a later one sleep on |
| `JointSteps.SpawnJoint` | src/process.rs:929-1006 | spawning fails exactly when all slots hold live tasks, and keeps the joint invariant |
| `JointSteps.MarkRunningJoint` | src/process.rs:1008-1023 | starting a ready task when none is current keeps the joint invariant |
| `JointSteps.ExitJoint` | src/process.rs:1025-1096 | exit and cleanup of a task in any state, repeated or not, keep the joint invariant |
| `JointSteps.WakeReasonJoint` | src/process.rs:1384-1413 | taking the wake reason and completing a restart keep the joint invariant |
| `JointBlocking.CanReceiveIff` | src/ipc.rs:734-742 | exactly the registered tasks may receive on their own endpoint |
| `JointBlocking.PollJoint` | src/ipc.rs:1068-1087 | a receive that does not block always keeps the joint invariant, and finds nothing for a sleeping task |
| `JointBlocking.ReceiveJointIff` | src/ipc.rs:1068-1087 | a blocking receive keeps the agreement, and does not fail to block, exactly when its caller is not asleep |
| `JointBlocking.BlockSyscallJointIff` | src/ipc.rs:1089-1112 | the blocking system call keeps the agreement exactly when its caller is not asleep; it is refused exactly when the mailbox is empty and the caller cannot hand over the processor; a refusal changes nothing |
| `JointRuns.PreemptJoint` | src/process.rs:1118-1166 | a timer preemption switches exactly when the slice is used up and somebody is ready, and never stops halfway |
| `JointRuns.StepJoint` | src/process.rs:1243-1382 | every step keeps the joint invariant; no send fails to wake, no blocking receive fails to block |
| `JointRuns.RunAgrees` | src/process.rs:1243-1382 | in every state of every run the flag, the state and the blocked list of each live task agree, and a waiting endpoint has an empty queue |
| `JointRuns.RunNeverFailsToWake` | src/ipc.rs:1055-1066 | WakeFailed is unreachable in every run |
| `JointRuns.RunMeetsDeadlines` | src/process.rs:1360-1382 | in every run, right after a tick nobody waits past a deadline, who was due is ready by timeout, and who was not due is as before |
| `JointRuns.SecondReceiveBreaks` | src/ipc.rs:1068-1087 | two blocking receives in a row on behalf of one task break the agreement |
| `JointRuns.SecondReceiveReached` | src/ipc.rs:1068-1087 | such a run exists from boot: spawn a task, receive, and receive again for the sleeper |
| `JointAnswers.SpawnAnswer` | src/process.rs:929-1006 | a new task is numbered next, owns the address space it was given, is ready at the tail of the queue and has its mailbox |
| `JointAnswers.RunAnswer` | src/process.rs:1008-1023 | starting a task changes its state and gives it the processor with a fresh slice, and nothing else |
| `JointAnswers.ExitAnswer` | src/process.rs:1025-1096 | an exit empties the slot but for number and address space, and takes the task off scheduler and IPC |
| `JointAnswers.SendMessageAnswer` | src/ipc.rs:1013-1066 | the sender is told what IPC answers; on success a receiver asleep on its mailbox, and no other task, is ready with that reason |
| `JointAnswers.SendThroughAnswer` | src/ipc.rs:1020-1066 | the same through a capability |
| `JointAnswers.SendGrantAnswer` | src/ipc.rs:1028-1066 | the same with a capability attached |
| `JointAnswers.CancelAnswer` | src/ipc.rs:994-1007 | cancelling a wait that is not there changes nothing; otherwise the sleeper, and no other task, is ready with that reason |
| `JointAnswers.ReceiveSleepsAnswer` | src/ipc.rs:1068-1087 | a blocking receive on an empty mailbox puts the caller to sleep without a deadline |
| `JointAnswers.ReceiveAnswer` | src/ipc.rs:1068-1087 | otherwise tasks and scheduler are left alone and the answer is that of IPC |
| `JointAnswers.BlockAnswer` | src/process.rs:1266-1318 | the caller of the blocking system call sleeps with the deadline it gave, and the head of the queue runs in its own address space |
| `JointAnswers.BlockReadyAnswer` | src/ipc.rs:1089-1112 | with a message waiting the call returns at once and changes nothing |
| `JointAnswers.PreemptAnswer` | src/process.rs:1118-1166 | a preemption swaps the states of the running task and the head of the queue, and answers with the address space of the latter |
| `JointAnswers.ReasonAnswer` | src/process.rs:1384-1413 | taking the wake reason clears it and ends the pending call after a timeout or a cancel; completing a restart ends it; nothing else changes |
| `Process.ProcessTable.Spawn` | src/process.rs:929-1006 | creation as it runs equals the specification |
| `Process.ProcessTable.ExitAndCleanUp` | src/process.rs:1025-1096 | exit and cleanup as they run equal the specification |
| `Process.ProcessTable.BlockForIpc` | src/process.rs:1243-1264 | blocking as it runs equals the specification |
| `Process.ProcessTable.BlockForIpcSyscall` | src/process.rs:1266-1318 | the blocking switch as it runs equals the specification |
| `Process.ProcessTable.Wake` | src/process.rs:1320-1358 | wake-up by message or cancel equals the specification |
| `Process.ProcessTable.ExpireIpcDeadlines` | src/process.rs:1360-1382 | the loop over slots equals the specification |
| `Process.ProcessTable.OnTimerInterrupt` | src/process.rs:1118-1166 | preemption as it runs equals the specification |
| `Process.ProcessTable.FinishSend` | src/ipc.rs:1055-1066 | finishing a send equals the specification |
| `Process.ProcessTable.Receive` | src/ipc.rs:1068-1087 | the blocking receive as it runs equals the specification |
| `Process.ProcessTable.ReceiveNow` | src/ipc.rs:1068-1087 | receiving without blocking as it runs equals the specification |
| `Process.ProcessTable.BlockSyscall` | src/ipc.rs:1089-1112 | the blocking system call as it runs equals the specification |
| `Process.ProcessTable.CancelWait` | src/ipc.rs:994-1007 | cancelling as it runs equals the specification |
| `PageEntry.LeafWord` | src/paging.rs:1155-1155 | the word written for a page decodes to its frame and flags |
| `PageEntry.WidenWord` | src/paging.rs:1279-1285 | or-ing the writable and user bits of a request into an entry opens exactly those permissions |
| `PageEntry.LinkWord` | src/paging.rs:1287-1296 | the word that links a new table decodes to its frame, present, with the request's writable and user bits |
| `PagingTree.WalkIsLeafAt` | src/paging.rs:718-794 | under the tree invariant intermediate entries take nothing away: the page's own bits decide its permissions |
| `PagingTree.WidenOk` | src/paging.rs:1275-1286 | opening up an intermediate entry changes no translation |
| `PagingTree.LinkOk` | src/paging.rs:1287-1300 | hooking in an empty table changes no translation |
| `PagingTree.LeafOk` | src/paging.rs:1151-1155 | writing a page entry changes the translation along its own path and no other |
| `PagingLaws.PathIsPage` | src/paging.rs:721-725 | canonical addresses have equal indices exactly when they lie in the same page |
| `PagingLaws.MapFromOk` | src/paging.rs:1137-1163 | mapping below any table: tree and pool stay sound, translations change as specified, success exactly when unmapped and supplied |
| `PagingRefine.MapPageRefines` | src/paging.rs:1116-1164 | a map gives exactly the target page the requested frame and permissions, a failed map changes no translation, and the answer follows from what was mapped there and what the pool supplies |
| `PagingRefine.UnmapPageRefines` | src/paging.rs:1166-1212 | an unmap succeeds exactly on a managed, aligned, 4 KiB mapping, returns its frame and removes exactly that page; otherwise nothing changes |
| `PagingRefine.RecordsAfterMap` | src/paging.rs:536-560 | recording keeps the record table sound, duplicate-free and, without overflow, complete |
| `PagingRefine.RecordsAfterUnmap` | src/paging.rs:562-573 | forgetting keeps the record table sound and complete |
| `PagingRefine.AuditExact` | src/paging.rs:1214-1273 | the audit reports no violation, or exactly one if the record table has overflowed |
| `PagingRuns.MapKeepsInv` | src/paging.rs:1116-1164 | a map keeps tree, records and guard pages |
| `PagingRuns.MapNewKeepsInv` | src/paging.rs:885-913 | mapping a new page succeeds exactly when the allocator can supply page and tables; on failure the page's frame goes back |
| `PagingRuns.UnmapKeepsInv` | src/paging.rs:1166-1212 | an unmap keeps tree, records and guard pages |
| `PagingBoot.BootAgrees` | src/main.rs:45-68 | the boot tables translate as the identity on the first gigabyte and map nothing else |
| `PagingBoot.RunRefines` | src/paging.rs:1116-1212 | in every reachable state every canonical address translates as in a flat map of pages, with frames freed and reused and other clients taking, freeing and writing frames that hold no page table |
| `PagingBoot.RunAudit` | src/paging.rs:1214-1273 | in every such state the audit reports a violation exactly when the record table has overflowed |
| `PagingSupply.BootSupplies` | src/physmem.rs:115-189 | the allocator of the boot regions supplies the mapper when the boot tables lie in protected memory |
| `PagingSupply.CallDraws` | src/paging.rs:885-913 | every call of the mapper uses the pool as a run of the frame allocator does, a page it could not map included |
| `PagingEdits.TreeUnique` | src/paging.rs:718-794 | memory and root determine where every table is |
| `PagingEdits.MapEdits` | src/paging.rs:1116-1164 | a map writes only table frames, there only entries on the way to its page, opens up at most what was asked for, and adds tables on that way alone |
| `PagingEdits.NewPageEdits` | src/paging.rs:885-913 | the same for a new page, mapped or not |
| `PagingEdits.UnmapEdits` | src/paging.rs:1166-1212 | the same for an unmap, which adds no table |
| `PagingMisuse.FreedOkIff` | src/physmem.rs:231-257 | after another client's free some tree is sound with the pool exactly if the frame holds no page table, is not in use, or finds the recycle stack full |
| `PagingMisuse.TableReused` | src/paging.rs:1275-1300 | if the last-level table of a page is the next frame handed out, mapping a page 2 MiB away redirects the first page to the new frame |
| `PagingMisuse.FreedTableMisleads` | src/paging.rs:1275-1300 | from boot: map a page, free its last-level table, which the allocator accepts, map the page 2 MiB further; the first page now translates to the second one's frame |
| `PagingMisuse.WrittenOkIff` | src/paging.rs:1275-1300 | overwriting one entry of a page table keeps the tree and every translation exactly if the entry goes on to the same table with rights enough for all below it, or ends with the same translation |
| `PagingMisuse.BootWrites` | src/main.rs:45-68 | on the boot tables one write that changes memory is harmless and another makes address 0 untranslated |
| `PagingAnswers.MapAnswer` | src/paging.rs:1116-1164 | a page is mapped, or refused for the first reason that applies: alignment, range, reach, what is there, frames for tables |
| `PagingAnswers.NewAnswer` | src/paging.rs:885-913 | a new page is the next frame of the pool, or refused for the first reason that applies |
| `PagingAnswers.UnmapAnswer` | src/paging.rs:1166-1212 | unmapping returns the frame that was mapped, or says why not |
| `PagingAnswers.RecordAnswer` | src/paging.rs:536-560 | a mapping is written over its old record, else into a free one, else it is only counted as an overflow |
| `PagingAnswers.AuditAnswer` | src/paging.rs:1214-1273 | in any state, sound or not, the audit counts the active records that do not tell the truth, one for lost records and one for a mapped guard |
| `Paging.MapperState.RecordMapping` | src/paging.rs:536-560 | the two record loops equal the specification |
| `Paging.MapperState.ForgetMapping` | src/paging.rs:562-573 | the record loop equals the specification |
| `Paging.MapperState.EnsureNextTable` | src/paging.rs:1275-1300 | table creation as it runs equals the specification |
| `Paging.MapperState.MapPage` | src/paging.rs:1116-1164 | mapping as it runs equals the specification |
| `Paging.MapperState.MapNewPage` | src/paging.rs:885-913 | mapping a new page as it runs equals the specification |
| `Paging.MapperState.UnmapPage` | src/paging.rs:1166-1212 | unmapping as it runs equals the specification |
| `Paging.MapperState.PermissionAudit` | src/paging.rs:1214-1273 | the audit loop counts exactly the violations |
| `PhysmemLaws.IssuedThenFresh` | src/physmem.rs:191-229 | handed-out frames followed by new ones are all frames in order, without duplicates |
| `PhysmemLaws.AllocateRefines` | src/physmem.rs:191-229 | allocation returns an aligned, unprotected frame not in use, the head of the pool, and fails only when every frame is in use |
| `PhysmemLaws.IssuedIff` | src/physmem.rs:259-276 | the issued test is membership in the frames handed out |
| `PhysmemLaws.FreeRefines` | src/physmem.rs:231-257 | freeing succeeds exactly on a frame in use while the recycle stack has room, and removes exactly it |
| `PhysmemLaws.Conservation` | src/physmem.rs:278-301 | in use + recycled + new = allocatable, allocatable + skipped = total, and the counter is the size of the set in use |
| `PhysmemLaws.PoolSound` | src/physmem.rs:191-257 | the frames still to be handed out are distinct, aligned, unprotected and not in use |
| `PhysmemLaws.AllocateKeepsUndo` | src/physmem.rs:191-257 | up to 128 allocations can always be undone, since allocation drains the recycle stack first |
| `PhysmemRuns.BootInv` | src/physmem.rs:115-189 | with disjoint boot regions the invariant holds at boot and nothing is in use |
| `PhysmemRuns.RunRefines` | src/physmem.rs:191-257 | every run is a run of a set of frames |
| `PhysmemRuns.RunAllocatesFresh` | src/physmem.rs:191-229 | in every run no protected frame and no frame in use is handed out |
| `PhysmemBoot.BootExact` | src/physmem.rs:115-189 | after boot a frame can be handed out exactly if it lies wholly in one of the first 16 usable regions and above the protected memory; the counters are computed from the boot map alone |
| `PhysmemBoot.BootComplete` | src/physmem.rs:151-189 | with at most 16 usable regions the allocatable frames are exactly the whole frames of available memory above the protected part |
| `Physmem.FrameAllocator.AddMemoryRegion` | src/physmem.rs:151-189 | adding a region equals the specification |
| `Physmem.FrameAllocator.Allocate` | src/physmem.rs:191-229 | allocation as it runs equals the specification |
| `Physmem.FrameAllocator.Bump` | src/physmem.rs:206-228 | the region loop equals the specification |
| `Physmem.FrameAllocator.IsIssued` | src/physmem.rs:259-276 | the region scan equals the specification |
| `Physmem.FrameAllocator.Free` | src/physmem.rs:231-257 | freeing as it runs equals the specification |
| `SpaceTree.FilledTree` | src/paging.rs:249-289 | the tables of a new space form a sound tree that shares the kernel's tables |
| `SpaceTree.FilledLeaf` | src/paging.rs:249-289 | along every path the new space translates as the kernel, and not at all in the user area |
| `SpaceLife.CreateOk` | src/paging.rs:249-289 | creation succeeds exactly when three reachable frames are available, gives the kernel's translations outside an empty user gigabyte, and on failure leaves the frames in use as they were; the kernel's translations never change |
| `SpaceUser.MapUserOk` | src/paging.rs:311-361 | mapping a user page succeeds exactly when it is free, within capacity and supplied; exactly that page appears, zeroed, at the cost of one frame and one more for the first page in its 2 MiB; only own frames are written; table capacity, missing tables and inactivity cannot fail it |
| `SpaceLife.DestroyExact` | src/paging.rs:407-456 | destruction frees exactly the first frames of pages, then tables in reverse, as many as the recycle stack has room for; exactly the others stay in use; the report counts both parts and is complete exactly if there was room; the active space is refused |
| `SpaceFrames.FreeEachExact` | src/paging.rs:428-445 | of a list of distinct frames in use exactly the first ones are freed, as many as fit, and they become the head of the pool |
| `SpaceSystem.StepIsolates` | src/paging.rs:249-456 | every operation on one space leaves the translations and pages of all other spaces and of the kernel as they were, and keeps all spaces sound and disjoint |
| `SpaceSystem.RunIsolates` | src/paging.rs:249-456 | in every run over any number of spaces all are sound, no two share a frame, and the kernel's translations never change; runs with mapper calls in between are those of `SpaceRuns.RunFollows` |
| `SpaceSystem.SpacesPermitted` | src/paging.rs:249-456 | for the kernel's mapper everything done to address spaces is permitted client behaviour, over the kernel's tree of that moment, which `SpaceRuns.StepFollows` carries from step to step |
| `SpaceMirror.FollowOk` | src/paging.rs:249-289 | when the kernel's tables grow, the tree of a space that shares them grows with them and stays sound |
| `SpaceMirror.MirrorLeaf` | src/paging.rs:249-289 | below its own root and low table a space has the kernel's leaf where it has the table above, and none elsewhere |
| `SpaceKernel.CallStep` | src/paging.rs:885-1212 | a call of the kernel's mapper keeps the kernel and every existing space sound, each with the tree that follows the kernel's new one |
| `SpaceKernel.CallSupplied` | src/paging.rs:885-913 | such a call always finds the allocator in a state with the pool it leaves |
| `SpaceKernel.StepMirrors` | src/paging.rs:249-456 | every operation on spaces keeps the kernel's tables shared by all of them, the new and changed ones included |
| `SpaceRuns.SpaceStep` | src/paging.rs:249-456 | an operation on spaces keeps the kernel sound, its translations as they were, and all spaces following it |
| `SpaceRuns.StepFollows` | src/paging.rs:249-1212 | every step, a mapper call or an operation on spaces, keeps kernel and spaces sound and the kernel in agreement with its flat map |
| `SpaceRuns.RunFollows` | src/paging.rs:249-1212 | over every run of mapper calls and space operations the kernel translates as its flat map and every space shares the kernel's tables of that moment |
| `SpaceRuns.SpaceSees` | src/paging.rs:249-289 | a space translates its listed pages in the user gigabyte, and elsewhere as the kernel does if its own entry above is present, else not at all |
| `SpaceRuns.RunTranslates` | src/paging.rs:249-1212 | from boot on, in every such run, every space translates every canonical address by its page list or the kernel's flat map |
| `SpaceRuns.CreateLinks` | src/paging.rs:249-289 | a new space has exactly the entries above that the kernel has at that moment |
| `SpaceRuns.CallLinks` | src/paging.rs:1116-1212 | no call of the mapper changes which entries above a space has |
| `SpaceRuns.BuildLinks` | src/elf.rs:228-282 | so has a space built from an image |
| `SpaceRuns.StepLinks` | src/paging.rs:249-456 | no operation on spaces changes which entries above any remaining space has |
| `SpaceRuns.MappedTooLate` | src/paging.rs:1116-1164 | from boot: create a space, then map a first kernel page; the kernel translates it and the space does not |
| `SpaceAnswers.CreateAnswer` | src/paging.rs:249-289 | a space is created from the first three frames of the pool, or refused exactly for want of frames: none left, or the next one out of reach |
| `SpaceAnswers.MapAnswer` | src/paging.rs:311-361 | a user page is mapped, or refused for the first reason that applies |
| `SpaceAnswers.AuditAnswer` | src/paging.rs:371-405 | in any state the audit passes exactly if the space is in use, its whole page list is true and the stack guard is unmapped |
| `SpaceOverflow.TwoDestroyed` | src/paging.rs:428-445 | destroying two spaces with more than 128 frames between them fills the recycle stack and is reported incomplete |
| `SpaceOverflow.FullSpacesOverflow` | src/paging.rs:407-456 | wherever 138 reachable frames are free, two full spaces can be created and destroyed and frames are lost |
| `SpaceOverflow.OverflowHappens` | src/paging.rs:407-456 | a machine with one megabyte of free memory reaches that right after boot |
| `SpaceImpl.AddressSpace.AllocateTable` | src/paging.rs:458-467 | table allocation as it runs equals the specification |
| `SpaceImpl.AddressSpace.Initialize` | src/paging.rs:249-289 | creation as it runs equals the specification |
| `SpaceImpl.AddressSpace.MapUserPage` | src/paging.rs:311-361 | mapping as it runs equals the specification |
| `SpaceImpl.AddressSpace.Destroy` | src/paging.rs:407-456 | the two freeing loops equal the specification |
| `ElfLaws.ValidateIff` | src/elf.rs:443-603 | an image is accepted exactly when one declarative condition on header, table and loadable segments holds, spelled out without the checking functions, and the plan lists exactly those segments |
| `ElfLaws.ValidateSound` | src/elf.rs:443-603 | accepted segments are inside file and region, W^X and pairwise page-disjoint, at most 64 pages, with an executable entry |
| `ElfAnswers.NumberAnswer` | src/elf.rs:692-713 | numbers are read little endian |
| `ElfAnswers.HeaderAnswer` | src/elf.rs:494-560 | which bytes of a program header are type, flags, offset, address, sizes and alignment, and the segment they ask for |
| `ElfAnswers.PlanAnswer` | src/elf.rs:443-603 | an accepted plan names entry point, lowest and highest page and the number of pages |
| `ElfAnswers.ValidateAnswer` | src/elf.rs:443-603 | an image is refused for the first thing that is wrong with it, and for nothing else |
| `Elf.ValidateImage` | src/elf.rs:443-603 | the validation loop equals the specification |
| `LoaderPages.AllRequestsOk` | src/elf.rs:235-255 | segments and stack are at most 65 distinct user pages, none of them the guard page |
| `LoaderPages.MapAllOk` | src/elf.rs:235-255 | mapping them succeeds exactly when the pool supplies the pages and one table per 2 MiB that lacks it, and draws exactly those; after a failure everything taken can be returned |
| `LoaderBytes.CopyFromOk` | src/elf.rs:632-661 | copying a segment puts every file byte where its header says and changes no other byte |
| `LoaderBytes.OverlayOne` | src/elf.rs:257-259 | with page-disjoint segments each byte of a page is decided by the one segment it belongs to |
| `LoaderLaws.LoadedOk` | src/elf.rs:228-282 | every byte of every segment page is the file byte its header assigns, or zero; stack zeroed and writable; guard unmapped |
| `LoaderBuild.AuditOk` | src/paging.rs:371-405 | the audit of such a space always passes |
| `LoaderBuild.BuildOk` | src/elf.rs:228-282 | building succeeds exactly when the image is accepted and the pool supplies three tables, one per 2 MiB and the pages; it loads the image exactly or leaves the set of frames in use unchanged; only free frames are written, and the kernel's translations stay |
| `LoaderAnswers.BuildAnswer` | src/elf.rs:228-282 | a bad image is refused with the complaint about the file, a good one exactly if the frames it needs, three tables first, cannot be had, and with the reason; otherwise entry point and stack top are those of the plan |
| `Loader.MapSegment` | src/elf.rs:236-245 | the page loop equals the specification |
| `Loader.CopySegment` | src/elf.rs:632-661 | the copy loop equals the specification |
| `Loader.Audit` | src/paging.rs:371-405 | the audit loop equals the specification |
| `Loader.CreateProcessImage` | src/elf.rs:228-282 | the whole build as it runs equals the specification |
| `LoaderBoot.MapPagesOk` | src/elf.rs:372-427 | mapping the pages one by one: each goes where nothing was mapped, is zeroed and answers its request; after a failure the pages mapped so far lie over the old translations and nothing else changed |
| `LoaderBoot.RollbackOk` | src/elf.rs:663-671 | discarding the pages, last one first, brings every translation back and returns every page |
| `LoaderBoot.LoadImageOk` | src/elf.rs:368-441 | a load puts every byte of the image in place or brings every translation back; MappingLost cannot happen; contents of frames that were not free never change |
| `LoaderSupply.RollbackFrees` | src/elf.rs:663-671 | every free of a rollback is accepted: the recycle stack has room for all pages |
| `LoaderSupply.LoadUse` | src/elf.rs:368-441 | a load is a run of the frame allocator; in use afterwards are the old frames, the new page tables and, on success only, the pages |
| `LoaderNeeds.LoadIff` | src/elf.rs:368-441 | a load succeeds exactly when the image is accepted, none of its pages is mapped, and the pool supplies a frame for each page and for each table on their ways that is not there yet |
| `BootAnswers.LoadAnswer` | src/elf.rs:368-441 | a load is refused for what is wrong with the file, then for the first obstacle among its pages: one that is taken, or one for which, after those before it, frame or tables cannot be had |
| `BootLoader.MapBootPages` | src/elf.rs:372-427 | the page loop equals the specification |
| `BootLoader.RollbackMappings` | src/elf.rs:663-671 | the rollback loop equals the specification |
| `BootLoader.LoadBootImage` | src/elf.rs:368-441 | the whole load as it runs equals the specification |
| `HeapLaws.NormalUnique` | src/heap.rs:522-565 | the live blocks determine the free ones: the tiling without touching free blocks is unique |
| `HeapLaws.TiledMetadata` | src/heap.rs:343-418 | the metadata check passes on every tiling |
| `HeapBlocks.CoalesceOk` | src/heap.rs:522-565 | coalescing ends in the normal form and leaves live blocks alone |
| `HeapBlocks.CarveOk` | src/heap.rs:217-284 | taking and splitting a block keeps the normal form and adds exactly one live block of the requested shape |
| `HeapBlocks.ReleasedOk` | src/heap.rs:286-308 | releasing removes exactly one live block and returns to the normal form |
| `HeapSafety.AllocOk` | src/heap.rs:217-284 | a valid request fails only if no free block fits size, alignment and canaries; the new block is new, aligned and guarded |
| `HeapSafety.FreeOk` | src/heap.rs:286-318 | freeing succeeds exactly on the address of a live block and never reports corruption |
| `HeapSafety.LiveApart` | src/heap.rs:448-478 | live payloads with their canaries are pairwise disjoint |
| `HeapSafety.ClientWriteOk` | src/heap.rs:448-478 | a write inside a live payload disturbs no canary and not the sentinel |
| `HeapSafety.AllocFreeRestores` | src/heap.rs:217-318 | allocating and freeing restores the same live and free blocks |
| `HeapSafety.AllFree` | src/heap.rs:522-565 | with nothing live the heap is one free block |
| `HeapRuns.RunNeverCorrupt` | src/heap.rs:320-341 | in every run with well-behaved clients no free reports corruption, and the metadata check, the sentinel check and the canary check of every live block pass |
| `HeapRuns.DoubleFreeReported` | src/heap.rs:503-520 | a second free is reported as such while fewer than 16 other frees succeeded and the address was not handed out again |
| `HeapRuns.AddressAligned` | src/heap.rs:217-284 | addresses, not just offsets, have the requested alignment |
| `HeapAnswers.AllocAnswer` | src/heap.rs:217-284 | a request of size 0 or bad alignment is invalid, one for which no free block has a place is out of memory, and otherwise the lowest place in the first block that has one is taken |
| `HeapAnswers.FreeAnswer` | src/heap.rs:286-318 | in any state: a live block is refused exactly if a canary is damaged; an address without one is a double free exactly if it is among the last sixteen freed, else an invalid pointer |
| `HeapAnswers.MetadataAnswer` | src/heap.rs:343-418 | the metadata check passes exactly if every block is good and every byte after the sentinel lies in exactly one |
| `HeapImpl.KernelHeap.CheckMetadata` | src/heap.rs:343-418 | the nested statistics loops equal the metadata check |
| `HeapImpl.KernelHeap.Allocate` | src/heap.rs:217-284 | allocation as it runs equals the specification |
| `HeapImpl.KernelHeap.CoalesceFreeBlocks` | src/heap.rs:522-565 | the nested loops terminate and equal the specification |
| `HeapImpl.KernelHeap.Release` | src/heap.rs:286-318 | freeing as it runs equals the specification |
| `CpioModel.ParseEntry` | src/initramfs.rs:386-455 | on arbitrary bytes a parsed entry ends after it starts and inside the archive |
| `CpioLaws.ParseEntryBack` | src/initramfs.rs:386-455 | parsing where an entry was written returns its name, data and mode and the offset after it |
| `CpioLaws.RoundTrip` | src/initramfs.rs:324-384 | an archive of at most 32 valid entries with a regular bin/init parses to the same paths, sizes and modes in order |
| `CpioAccepted.FindFromListing` | src/initramfs.rs:255-277 | on arbitrary bytes a lookup returns the first listed entry of that name, and fails only if there is none |
| `CpioAccepted.AcceptedArchive` | src/initramfs.rs:324-384 | any accepted archive: the index lists exactly the entries, /bin/init is found and regular, and the recorded size is that of the last such entry, which agrees with the lookup exactly if first and last have the same size |
| `CpioAccepted.TwoInits` | src/initramfs.rs:368-371 | an accepted archive for which recorded size and lookup differ |
| `CpioAnswers.HexAnswer` | src/initramfs.rs:457-477 | a field of eight characters is read exactly if all are digits, and never overflows |
| `CpioAnswers.EntryAnswer` | src/initramfs.rs:386-455 | an entry is parsed exactly if the bytes are one, and the result is what they say |
| `CpioAnswers.EntryErrors` | src/initramfs.rs:386-455 | why bytes are no entry, in the order the checks are made |
| `CpioAnswers.ArchiveAnswer` | src/initramfs.rs:324-384 | an archive is accepted exactly if it is a chain of at most 32 entries and a trailer, followed by zeros only, with an init program that is a regular file; the index counts what the chain holds |
| `CpioAnswers.ArchiveErrors` | src/initramfs.rs:324-384 | for a sound chain the two checks at the end are told apart |
| `CpioLaws.FindBack` | src/initramfs.rs:255-277 | looking a path up finds the data of the first entry with that name |
| `CpioLaws.ShippedArchive` | tools/mkinitramfs.rs:135-141 | the archive the build tool writes is accepted and its init program is found |
| `Cpio.ParseHexField` | src/initramfs.rs:457-477 | the digit loop equals the specified value |
| `Cpio.IsValidPath` | src/initramfs.rs:479-502 | the scan accepts exactly the relative paths of plain components that are not empty, "." or ".." |
| `Cpio.ParseEntryAt` | src/initramfs.rs:386-455 | the checks of one entry, with the loop over header fields and the path scan, equal the specification |
| `Cpio.Parse` | src/initramfs.rs:324-384 | the parsing loop equals the specification |
| `Cpio.Lookup` | src/initramfs.rs:255-277 | the lookup loop equals the specification |
| `Cpio.ArchiveWriter.AppendEntry` | tools/mkinitramfs.rs:143-165 | appending an entry equals the specification |
| `Cpio.ArchiveWriter.PadToFour` | tools/mkinitramfs.rs:167-171 | pads with the fewest zero bytes to a multiple of four |

## Left out

- Statistics and denial counters, logging, `invlpg`, interrupt masking: erased; each public operation is atomic. The counters that are kept are natural numbers, so saturation at 2^64 is not modelled.
- Rights are sets of the four rights instead of bit masks, a message is its used bytes instead of a 64-byte buffer, and page-table entries are records; `PageEntry` relates the records to the 64-bit words.
- Mailboxes inside the endpoint array are values that are replaced, as the kernel's `Copy` structs are; rings, tables and counters are otherwise updated in place.
- Parent and child waiting (`wait_child`, `wake_waiting_parent`) and `spawn_legacy`: outside the joint invariant, because a wait target of 0 acts as a wildcard and legacy tasks have no address space.
- Saved register contexts, user buffers and program installation in the task table; test scripts of all components.
- `yield_current` of the scheduler: not used by the protocol.
- Heap block magic numbers and the self-test helpers that corrupt and repair canaries on purpose.
- Exit and cleanup are one step, and a failed cleanup of heap or pages does not influence the joint protocol.
- `validate_image` reads its alignment test as arithmetic on natural numbers; `usize` is 64 bits wide.
- Multiboot parsing: memory regions are an input, assumed pairwise disjoint; the memory protected at boot is an input, aligned to a page.
- Physical memory is seen as tables or as bytes; that no frame is used both ways is part of the address-space invariant.
- Ipc.IpcState.Resolve: asks for unique generations, which the invariant gives, because its stale-cleanup branch recurses over children by generation and need not end without it; the branch is unreachable under the invariant (`IpcPreservation.ResolveKeepsState`).
- Ipc.IpcState.Transfer: asks for unique generations for the same reason, since it resolves two handles.
- Ipc.IpcState.Dequeue: asks for unique generations for the same reason, since it resolves the task's own handle.
- Ipc.IpcState.RevokeBranch: asks for unique generations and sound tables for the same reason; every reachable state has them (`IpcRuns.Reach`).
- Ipc.IpcState.RevokeCapability: asks for sound tables for the same reason.
- Ipc.IpcState.Unregister: asks for unique generations for the same reason, since it revokes branches.
- Process.ProcessTable.ExitAndCleanUp: asks for unique generations in the IPC tables, since it unregisters the task.
- Process.ProcessTable.Receive: asks for unique generations in the IPC tables, since it dequeues.
- Process.ProcessTable.ReceiveNow: asks for unique generations in the IPC tables, since it dequeues.
- Process.ProcessTable.BlockSyscall: asks for unique generations in the IPC tables, since it checks the task's own handle.
- Process.ProcessTable.CancelWait: asks for unique generations in the IPC tables, since it resolves a handle.
- PagingMisuse.WrittenOkIff: one entry at a time, with the tables where they were; a write that moves tables and still translates alike is not characterised.
- LoaderBoot.LoadImageOk: a page of a segment and the stack page that cannot be mapped are one error with its cause; the source names them PageMappingFailed and StackMappingFailed.
