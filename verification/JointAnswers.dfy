/** What every step of the joint protocol answers and leaves in the task table, field by field. */
module JointAnswers {
  import opened Common
  import opened JointModel
  import opened JointLaws
  import opened JointMoves
  import opened JointProtocol
  import opened JointSteps
  import opened JointBlocking
  import opened JointRuns
  import I = IpcModel
  import IInv = IpcInvariant
  import IP = IpcPreservation
  import IT = IpcTransfer
  import IA = IpcAnswers
  import S = SchedModel
  import SL = SchedLaws
  import SA = SchedAnswers

  // ---- life cycle

  /** A new task is numbered next, owns the address space it was given, is ready at the tail of the queue and has its mailbox. */
  lemma SpawnAnswer(k: Kernel, root: nat) returns (i: nat)
    requires Joint(k) && root != 0 && exists j :: 0 <= j < |k.tasks| && !IsLive(k.tasks[j])
    ensures i < |k.tasks| && !IsLive(k.tasks[i]) && I.Register(k.ipc, k.nextId).1 == Ok(())
    ensures Spawn(k, root)
            == (Kernel(k.tasks[i := Task(k.nextId, Ready, root, true, false, false, 0, NoReason)], k.nextId + 1,
                       k.sched.(queue := k.sched.queue + [S.Entry(k.nextId, k.sched.ticks)]), I.Register(k.ipc, k.nextId).0),
                Some(k.nextId))
  {
    SpawnJoint(k, root);
    i := FreeTask(k.tasks).value;
    FreeEndpoint(k, i);
    RegisterSigs(k.ipc, k.nextId, I.Find(k.ipc.endpoints, 0).value);
    EnqueueNew(k.tasks, k.nextId, k.sched, i);
  }

  /** Starting a ready task changes its state and gives it the processor with a fresh slice. */
  lemma RunAnswer(k: Kernel, id: nat, i: nat)
    requires Joint(k) && i < |k.tasks| && IsLive(k.tasks[i]) && k.tasks[i].id == id
    ensures MarkRunning(k, id)
            == Kernel(k.tasks[i := k.tasks[i].(state := Running)], k.nextId,
                      k.sched.(queue := SA.Others(k.sched.queue, id), blocked := SA.OtherIds(k.sched.blocked, id), current := id, slice := 0), k.ipc)
  {
    FindLive(k.tasks, k.nextId, i);
    SA.BeginAnswer(k.sched, id);
  }

  /** An exit empties the slot but for number and address space, and takes the task off scheduler and IPC. */
  lemma ExitAnswer(k: Kernel, id: nat, i: nat)
    requires Joint(k) && i < |k.tasks| && IsLive(k.tasks[i]) && k.tasks[i].id == id
    ensures var after := Exit(k, id);
            && after.tasks == k.tasks[i := Task(id, Exited, k.tasks[i].root, false, false, false, 0, NoReason)] && after.nextId == k.nextId
            && after.sched.queue == SA.Others(k.sched.queue, id) && after.sched.blocked == SA.OtherIds(k.sched.blocked, id)
            && after.sched.current == (if k.sched.current == id then 0 else k.sched.current) && after.sched.ticks == k.sched.ticks
            && after.ipc == I.Unregister(k.ipc, id).0
  {
    FindLive(k.tasks, k.nextId, i);
    SA.BeginAnswer(k.sched, id);
  }

  // ---- waking

  /** What a wake-up makes of one slot. */
  function Woken(t: Task, id: nat, reason: WakeReason): Task
  {
    if t.state.Blocked? && t.id == id then Task(t.id, Ready, t.root, t.resources, false, t.restart, 0, reason) else t
  }

  ghost predicate AllWoken(before: seq<Task>, after: seq<Task>, id: nat, reason: WakeReason)
  {
    |after| == |before| && forall i :: 0 <= i < |after| ==> after[i] == Woken(before[i], id, reason)
  }

  lemma WakeAnswer(k: Kernel, id: nat, reason: WakeReason, i: nat, e: nat)
    requires Joint(k) && id != 0 && I.Find(k.ipc.endpoints, id) == Some(e) && i < |k.tasks| && IsLive(k.tasks[i]) && k.tasks[i].id == id
    ensures k.ipc.endpoints[e].waiting <==> k.tasks[i].state.Blocked?
    ensures forall ipc :: var (after, ok) := WakeWaiter(WithIpc(k, ipc), id, reason);
              (ok <==> k.tasks[i].state.Blocked?) && AllWoken(k.tasks, after.tasks, id, reason) && after.ipc == ipc && (!ok ==> after == WithIpc(k, ipc))
  {
    FindLive(k.tasks, k.nextId, i);
    var x := TaskOf(k, e);
    OnlySlot(k, id, i, e);
    var t := k.tasks[i];
    if t.state.Blocked? { WakeSched(k.tasks, k.nextId, k.sched, i, t.(state := Ready, waiting := false, deadline := 0, reason := reason)); }
  }

  /** Once a message is queued: its number is the answer, and a receiver asleep on it is ready with that reason. */
  lemma FinishAnswer(k: Kernel, ipc: I.State, sequence: nat, receiver: nat, e: nat)
    requires Joint(k) && receiver != 0 && I.Find(k.ipc.endpoints, receiver) == Some(e)
    ensures var (after, r) := FinishSend(WithIpc(k, ipc), sequence, k.ipc.endpoints[e].waiting, receiver);
            r == Ok(sequence) && AllWoken(k.tasks, after.tasks, receiver, ByMessage) && after.ipc == ipc
  {
    var i := TaskOf(k, e);
    WakeAnswer(k, receiver, ByMessage, i, e);
    OnlySlot(k, receiver, i, e);
  }

  lemma SendMessageAnswer(k: Kernel, sender: nat, receiver: nat, bytes: seq<Byte>)
    requires Joint(k) && receiver != 0
    ensures var (ipc, sent) := I.SendTo(k.ipc, sender, receiver, bytes);
            var (after, r) := SendMessage(k, sender, receiver, bytes);
            match sent
            case Err(e) => after == k && r == Err(e)
            case Ok((sequence, _)) => r == Ok(sequence) && AllWoken(k.tasks, after.tasks, receiver, ByMessage) && after.ipc == ipc
  {
    var e := IP.SendCases(k.ipc, sender, receiver, bytes);
    var (ipc, sent) := I.SendTo(k.ipc, sender, receiver, bytes);
    assert WithIpc(k, k.ipc) == k;
    if sent.Ok? { FinishAnswer(k, ipc, sent.value.0, receiver, e); }
  }

  lemma SendThroughAnswer(k: Kernel, sender: nat, handle: nat, bytes: seq<Byte>)
    requires Joint(k)
    ensures var (ipc, sent) := I.SendCapability(k.ipc, sender, handle, bytes);
            var (after, r) := SendThrough(k, sender, handle, bytes);
            match sent
            case Err(e) => after == k && r == Err(e)
            case Ok((sequence, _, receiver)) => r == Ok(sequence) && AllWoken(k.tasks, after.tasks, receiver, ByMessage) && after.ipc == ipc
  {
    var receiver := IP.SendCapabilityCases(k.ipc, sender, handle, bytes);
    var e := IP.SendCases(k.ipc, sender, receiver, bytes);
    var (ipc, sent) := I.SendCapability(k.ipc, sender, handle, bytes);
    assert WithIpc(k, k.ipc) == k;
    if sent.Ok? { FinishAnswer(k, ipc, sent.value.0, receiver, e); }
  }

  lemma SendGrantAnswer(k: Kernel, sender: nat, destination: nat, source: nat, requested: I.Rights, bytes: seq<Byte>)
    requires Joint(k)
    ensures var (ipc, sent) := I.Transfer(k.ipc, sender, destination, source, requested, bytes);
            var (after, r) := SendGrant(k, sender, destination, source, requested, bytes);
            match sent
            case Err(e) => after == k && r == Err(e)
            case Ok((sequence, _, receiver, _)) => r == Ok(sequence) && AllWoken(k.tasks, after.tasks, receiver, ByMessage) && after.ipc == ipc
  {
    var receiver, e, slot, j, t, from := IT.TransferCases(k.ipc, sender, destination, source, requested, bytes);
    var (ipc, sent) := I.Transfer(k.ipc, sender, destination, source, requested, bytes);
    assert WithIpc(k, k.ipc) == k;
    if sent.Ok? {
      IInv.FindUnique(k.ipc.endpoints, e);
      FinishAnswer(k, ipc, sent.value.0, receiver, e);
    }
  }

  /** Cancelling a wait that is not there changes nothing; otherwise the sleeper is ready with that reason and its flag is down. */
  lemma CancelAnswer(k: Kernel, requester: nat, handle: nat)
    requires Joint(k)
    ensures var (after, r) := CancelWait(k, requester, handle);
            match I.Resolve(k.ipc, requester, handle, {I.Cancel}).1
            case Err(e) => after == k && r == Err(e)
            case Ok(cap) =>
              && (r == Ok(cap.target) || (r == Err(I.NotWaiting) && after == k))
              && AllWoken(k.tasks, after.tasks, cap.target, ByCancel)
              && (r.Ok? ==> after.ipc == I.SetWaiting(k.ipc, cap.target, false).0)
  {
    IP.ResolveKeepsState(k.ipc, requester, handle, {I.Cancel});
    var resolved := I.Resolve(k.ipc, requester, handle, {I.Cancel}).1;
    CancelShape(k, requester, handle, resolved);
    if resolved.Ok? { CancelledAnswer(k, resolved.value.target, I.Find(k.ipc.endpoints, resolved.value.target).value); }
  }

  lemma CancelledAnswer(k: Kernel, id: nat, e: nat)
    requires Joint(k) && id != 0 && I.Find(k.ipc.endpoints, id) == Some(e)
    ensures var (after, r) := Cancelled(k, id);
            && (r == Ok(id) || (r == Err(I.NotWaiting) && after == k)) && AllWoken(k.tasks, after.tasks, id, ByCancel)
            && (r.Ok? ==> after.ipc == I.SetWaiting(k.ipc, id, false).0)
  {
    var i := TaskOf(k, e);
    WakeAnswer(k, id, ByCancel, i, e);
    assert WithIpc(k, k.ipc) == k;
  }

  // ---- blocking

  /** A blocking receive on an empty mailbox puts the caller to sleep without a deadline. */
  lemma ReceiveSleepsAnswer(k: Kernel, id: nat, capacity: nat, i: nat)
    requires Joint(k) && i < |k.tasks| && (k.tasks[i].state.Ready? || k.tasks[i].state.Running?) && k.tasks[i].id == id
    requires I.ReceiveFrom(k.ipc, id, capacity).1 == Err(I.QueueEmpty)
    ensures var (after, r) := ReceiveBlocking(k, id, capacity);
            && r == Ok(NowBlocked)
            && after.tasks == k.tasks[i := k.tasks[i].(state := Blocked, waiting := true, deadline := 0, reason := NoReason)]
            && after.sched.blocked == k.sched.blocked + [id] && after.ipc == I.SetWaiting(k.ipc, id, true).0
  {
    EmptyReceive(k.ipc, id, capacity);
    var e := EndpointOf(k, i);
    RaiseFlag(k, i, e);
    FindLive(k.tasks, k.nextId, i);
    BlockSched(k.tasks, k.nextId, k.sched, i, k.tasks[i].(state := Blocked));
    SA.BlockAnswer(k.sched, id);
  }

  /** With a message there, or a refusal, tasks and scheduler are left alone and the answer is IPC's. */
  lemma ReceiveAnswer(k: Kernel, id: nat, capacity: nat)
    requires Joint(k) && I.ReceiveFrom(k.ipc, id, capacity).1 != Err(I.QueueEmpty)
    ensures var (ipc, got) := I.ReceiveFrom(k.ipc, id, capacity);
            ReceiveBlocking(k, id, capacity) == (WithIpc(k, ipc), if got.Ok? then Ok(GotMessage(got.value)) else Err(got.error))
    ensures Poll(k, id, capacity) == (WithIpc(k, I.ReceiveFrom(k.ipc, id, capacity).0), I.ReceiveFrom(k.ipc, id, capacity).1)
  {
  }

  /** The blocking system call: the caller sleeps with the deadline it gave, the head of the queue runs in its own address space. */
  lemma BlockAnswer(k: Kernel, id: nat, deadline: nat, i: nat, e: nat) returns (j: nat)
    requires Joint(k) && i < |k.tasks| && IsLive(k.tasks[i]) && k.tasks[i].id == id && MaySwitch(k, i)
    requires I.Find(k.ipc.endpoints, id) == Some(e) && k.ipc.endpoints[e].queue == []
    ensures j < |k.tasks| && j != i && k.tasks[j].state.Ready? && k.tasks[j].id == k.sched.queue[0].task
    ensures var (after, r) := BlockSyscall(k, id, deadline);
            && r == Ok(Switched(k.tasks[j].root))
            && after.tasks == k.tasks[i := k.tasks[i].(state := Blocked, waiting := true, restart := true, deadline := deadline, reason := NoReason)]
                                     [j := k.tasks[j].(state := Running)]
            && after.sched.queue == k.sched.queue[1..] && after.sched.blocked == k.sched.blocked + [id]
            && after.sched.current == k.tasks[j].id && after.ipc == I.SetWaiting(k.ipc, id, true).0
  {
    CanReceiveIff(k.ipc, id);
    SyscallShape(k, id, deadline, e);
    FindLive(k.tasks, k.nextId, i);
    j := HeadReady(k);
    var x := TaskOf(k, e);
    var t := k.tasks[i].(state := Blocked, waiting := true, restart := true, deadline := deadline, reason := NoReason);
    DispatchSched(k.tasks, k.nextId, k.sched, i, j, t, k.tasks[j].(state := Running));
    SwitchShape(WithIpc(k, I.SetWaiting(k.ipc, id, true).0), id, deadline, i, j, S.BlockAndDispatch(k.sched, id).1);
    DispatchedFields(k, id);
  }

  lemma DispatchedFields(k: Kernel, id: nat)
    requires Joint(k) && k.sched.current == id && id != 0 && k.sched.queue != [] && S.BlockAndDispatch(k.sched, id).1.switched
    ensures var after := S.BlockAndDispatch(k.sched, id).0;
            && after.queue == k.sched.queue[1..] && after.blocked == k.sched.blocked + [id] && after.current == k.sched.queue[0].task
  {
    SA.StaysAnswer(k.sched, id);
    SL.DispatchTakesHead(k.sched);
  }

  /** With a message waiting the call returns at once and changes nothing. */
  lemma BlockReadyAnswer(k: Kernel, id: nat, deadline: nat, e: nat)
    requires Joint(k) && id != 0 && I.Find(k.ipc.endpoints, id) == Some(e) && k.ipc.endpoints[e].queue != []
    ensures BlockSyscall(k, id, deadline) == (k, Ok(MessageReady))
  {
    CanReceiveIff(k.ipc, id);
    assert WithIpc(k, k.ipc) == k;
  }

  // ---- the timer and the wake reason

  /** A preemption swaps the states of the running task and the head of the queue, and answers with the latter's address space. */
  lemma PreemptAnswer(k: Kernel) returns (i: nat, j: nat)
    requires Joint(k) && k.sched.current != 0 && k.sched.queue != [] && k.sched.slice >= k.sched.quantum
    ensures i < |k.tasks| && j < |k.tasks| && i != j && k.tasks[i].id == k.sched.current && k.tasks[j].id == k.sched.queue[0].task
    ensures var (after, root) := TimerPreempt(k);
            && root == Some(k.tasks[j].root) && after.ipc == k.ipc && after.nextId == k.nextId
            && after.tasks == k.tasks[i := k.tasks[i].(state := Ready)][j := k.tasks[j].(state := Running)]
            && after.sched.current == k.tasks[j].id && after.sched.slice == 0
            && after.sched.queue == k.sched.queue[1..] + [S.Entry(k.tasks[i].id, k.sched.ticks)]
  {
    i := CurrentRuns(k);
    j := HeadReady(k);
    SL.PreemptRotates(k.sched);
    PreemptShape(k, i, j, S.Preempt(k.sched).1);
  }

  /** Taking the reason clears it, and ends the pending call after a timeout or a cancel; nothing else changes. */
  lemma ReasonAnswer(k: Kernel, id: nat, i: nat)
    requires Joint(k) && i < |k.tasks| && IsLive(k.tasks[i]) && k.tasks[i].id == id
    ensures TakeReason(k, id)
            == Kernel(k.tasks[i := k.tasks[i].(reason := NoReason,
                                               restart := k.tasks[i].restart && k.tasks[i].reason != ByTimeout && k.tasks[i].reason != ByCancel)],
                      k.nextId, k.sched, k.ipc)
    ensures CompleteRestart(k, id)
            == if k.tasks[i].restart then Kernel(k.tasks[i := k.tasks[i].(restart := false, deadline := 0, reason := NoReason)], k.nextId, k.sched, k.ipc)
               else k
  {
    FindLive(k.tasks, k.nextId, i);
  }
}
