/** Whole runs of the kernel: task life cycle, IPC and timer interrupts interleaved in any order. */
module JointRuns {
  import opened Common
  import opened JointModel
  import opened JointLaws
  import opened JointMoves
  import opened JointProtocol
  import opened JointSteps
  import opened JointBlocking
  import I = IpcModel
  import IInv = IpcInvariant
  import IP = IpcPreservation
  import S = SchedModel
  import SL = SchedLaws

  // ---- the remaining steps

  lemma PreemptShape(k: Kernel, i: nat, j: nat, d: S.Decision)
    requires S.Preempt(k.sched).1 == d && d.switched && i != j
    requires FindTask(k.tasks, d.previous) == Some(i) && FindTask(k.tasks, d.next) == Some(j) && k.tasks[j].root != 0
    ensures TimerPreempt(k) ==
              (Kernel(k.tasks[i := k.tasks[i].(state := Ready)][j := k.tasks[j].(state := Running)],
                      k.nextId, S.Preempt(k.sched).0, k.ipc), Some(k.tasks[j].root))
  {
  }

  /** The current task is a live running task. */
  lemma CurrentRuns(k: Kernel) returns (i: nat)
    requires Joint(k) && k.sched.current != 0
    ensures i < |k.tasks| && k.tasks[i].state.Running? && k.tasks[i].id == k.sched.current
    ensures FindTask(k.tasks, k.sched.current) == Some(i)
  {
    assert k.sched.current in LiveIds(k.tasks);
    var x :| 0 <= x < |k.tasks| && IsLive(k.tasks[x]) && k.tasks[x].id == k.sched.current;
    i := x;
    FindLive(k.tasks, k.nextId, i);
  }

  /** A timer preemption switches whenever the slice is used up and somebody is ready; it is never stopped halfway. */
  lemma PreemptJoint(k: Kernel)
    requires Joint(k)
    ensures Joint(TimerPreempt(k).0)
    ensures TimerPreempt(k).1.Some? <==> k.sched.current != 0 && k.sched.queue != [] && k.sched.slice >= k.sched.quantum
  {
    if k.sched.current != 0 && k.sched.queue != [] && k.sched.slice >= k.sched.quantum {
      var i := CurrentRuns(k);
      var j := HeadReady(k);
      var t, u := k.tasks[i].(state := Ready), k.tasks[j].(state := Running);
      RotateSched(k.tasks, k.nextId, k.sched, i, j, t, u);
      PreemptShape(k, i, j, S.Preempt(k.sched).1);
      RotatedTables(k, i, j, t, u);
      Assemble(k.tasks[i := t][j := u], k.nextId, S.Preempt(k.sched).0, k.ipc);
    }
  }

  lemma RotatedTables(k: Kernel, i: nat, j: nat, t: Task, u: Task)
    requires Joint(k) && i < |k.tasks| && j < |k.tasks| && i != j && k.tasks[i].state.Running? && k.tasks[j].state.Ready?
    requires t == k.tasks[i].(state := Ready) && u == k.tasks[j].(state := Running)
    ensures TasksOk(k.tasks[i := t][j := u], k.nextId) && IpcAgrees(k.tasks[i := t][j := u], Sigs(k.ipc.endpoints))
  {
    SlotUpdate(k.tasks, k.nextId, i, t);
    SameSideIpc(k, i, t);
    SlotUpdate(k.tasks[i := t], k.nextId, j, u);
    ReadyRuns(k.tasks[i := t], Sigs(k.ipc.endpoints), j, u);
  }

  lemma GrantJoint(k: Kernel, owner: nat, target: nat, rights: I.Rights)
    requires Joint(k) && owner != 0 && target != 0
    ensures Joint(WithIpc(k, I.Grant(k.ipc, owner, target, rights).0))
  {
    IP.GrantKeepsInv(k.ipc, owner, target, rights);
    var after := I.Grant(k.ipc, owner, target, rights).0;
    AllocateKeepsFlag(k.ipc);
    SigsKept(k.ipc.endpoints, after.endpoints);
    IpcOnlyJoint(k, after);
  }

  lemma RevokeJoint(k: Kernel, owner: nat, handle: nat)
    requires Joint(k)
    ensures Joint(WithIpc(k, I.Revoke(k.ipc, owner, handle).0))
  {
    IP.RevokeKeepsInv(k.ipc, owner, handle);
    var after := I.Revoke(k.ipc, owner, handle).0;
    var found := I.Lookup(k.ipc.endpoints, owner, handle);
    if found.Ok? {
      var g := I.CapAt(k.ipc.endpoints, found.value.0, found.value.1).generation;
      EraseSigs(k.ipc.endpoints, I.RevokedBy(k.ipc.endpoints, found.value.1, g));
    }
    IpcOnlyJoint(k, after);
  }

  lemma EraseSigs(eps: seq<I.Endpoint>, gens: set<nat>)
    ensures Sigs(I.Erase(eps, gens)) == Sigs(eps)
  {
    forall d | 0 <= d < |eps| ensures SigOf(I.Erase(eps, gens)[d]) == SigOf(eps[d]) { EraseSig(eps[d], gens); }
    SigsKept(eps, I.Erase(eps, gens));
  }

  // ---- runs

  datatype Op =
    | OpSpawn(root: nat)
    | OpRun(id: nat)
    | OpExit(id: nat)
    | OpSend(sender: nat, receiver: nat, bytes: seq<Byte>)
    | OpSendThrough(sender: nat, handle: nat, bytes: seq<Byte>)
    | OpSendGrant(sender: nat, destination: nat, source: nat, requested: I.Rights, bytes: seq<Byte>)
    | OpReceive(id: nat, capacity: nat)
    | OpPoll(id: nat, capacity: nat)
    | OpBlock(id: nat, deadline: nat)
    | OpCancel(requester: nat, handle: nat)
    | OpGrant(owner: nat, target: nat, rights: I.Rights)
    | OpRevoke(owner: nat, handle: nat)
    | OpTick(now: nat)
    | OpPreempt
    | OpTakeReason(id: nat)
    | OpCompleteRestart(id: nat)

  /**
   What the callers in the kernel respect: ELF tasks have an address space, a task is started only
   when none is current, ids are not 0, and a task that is asleep makes no system call.
   */
  predicate Permitted(k: Kernel, op: Op)
  {
    match op
    case OpSpawn(root) => root != 0
    case OpRun(id) => k.sched.current == 0 && exists i :: 0 <= i < |k.tasks| && k.tasks[i].id == id && k.tasks[i].state.Ready?
    case OpSend(_, receiver, _) => receiver != 0
    case OpReceive(id, _) => !Asleep(k, id)
    case OpBlock(id, _) => !Asleep(k, id)
    case OpGrant(owner, target, _) => owner != 0 && target != 0
    case _ => true
  }

  ghost function Step(k: Kernel, op: Op): (Kernel, Option<I.IpcError>)
    requires I.CounterOk(k.ipc)
  {
    match op
    case OpSpawn(root) => (Spawn(k, root).0, None)
    case OpRun(id) => (MarkRunning(k, id), None)
    case OpExit(id) => (Exit(k, id), None)
    case OpSend(sender, receiver, bytes) => Outcome(SendMessage(k, sender, receiver, bytes))
    case OpSendThrough(sender, handle, bytes) => Outcome(SendThrough(k, sender, handle, bytes))
    case OpSendGrant(sender, destination, source, requested, bytes) =>
      Outcome(SendGrant(k, sender, destination, source, requested, bytes))
    case OpReceive(id, capacity) => Outcome(ReceiveBlocking(k, id, capacity))
    case OpPoll(id, capacity) => Outcome(Poll(k, id, capacity))
    case OpBlock(id, deadline) => Outcome(BlockSyscall(k, id, deadline))
    case OpCancel(requester, handle) => Outcome(CancelWait(k, requester, handle))
    case OpGrant(owner, target, rights) => (WithIpc(k, I.Grant(k.ipc, owner, target, rights).0), None)
    case OpRevoke(owner, handle) => (WithIpc(k, I.Revoke(k.ipc, owner, handle).0), None)
    case OpTick(now) => (TimerTick(k, now), None)
    case OpPreempt => (TimerPreempt(k).0, None)
    case OpTakeReason(id) => (TakeReason(k, id), None)
    case OpCompleteRestart(id) => (CompleteRestart(k, id), None)
  }

  /** The new state and the error reported, if any. */
  function Outcome<T>(r: (Kernel, Result<T, I.IpcError>)): (Kernel, Option<I.IpcError>)
  {
    (r.0, if r.1.Ok? then None else Some(r.1.error))
  }

  predicate Sends(op: Op) { op.OpSend? || op.OpSendThrough? || op.OpSendGrant? }

  lemma SendStep(k: Kernel, op: Op)
    requires Joint(k) && Permitted(k, op) && Sends(op)
    ensures Joint(Step(k, op).0) && Step(k, op).1 != Some(I.WakeFailed)
  {
    match op
    case OpSend(sender, receiver, bytes) => SendMessageJoint(k, sender, receiver, bytes);
    case OpSendThrough(sender, handle, bytes) => SendThroughJoint(k, sender, handle, bytes);
    case OpSendGrant(sender, destination, source, requested, bytes) =>
      SendGrantJoint(k, sender, destination, source, requested, bytes);
  }

  predicate Waits(op: Op)
  {
    op.OpReceive? || op.OpPoll? || op.OpBlock? || op.OpCancel? || op.OpTakeReason? || op.OpCompleteRestart?
  }

  lemma WaitStep(k: Kernel, op: Op)
    requires Joint(k) && Permitted(k, op) && Waits(op)
    ensures Joint(Step(k, op).0)
    ensures op.OpReceive? ==> Step(k, op).1 != Some(I.BlockFailed)
  {
    match op
    case OpReceive(id, capacity) => ReceiveStep(k, id, capacity);
    case OpPoll(id, capacity) => PollJoint(k, id, capacity);
    case OpBlock(id, deadline) => BlockStep(k, id, deadline);
    case OpCancel(requester, handle) => CancelWaitJoint(k, requester, handle);
    case OpTakeReason(id) => WakeReasonJoint(k, id);
    case OpCompleteRestart(id) => WakeReasonJoint(k, id);
  }

  lemma ReceiveStep(k: Kernel, id: nat, capacity: nat)
    requires Joint(k) && Permitted(k, OpReceive(id, capacity))
    ensures Joint(Step(k, OpReceive(id, capacity)).0) && Step(k, OpReceive(id, capacity)).1 != Some(I.BlockFailed)
  {
    ReceiveJointIff(k, id, capacity);
  }

  lemma BlockStep(k: Kernel, id: nat, deadline: nat)
    requires Joint(k) && Permitted(k, OpBlock(id, deadline))
    ensures Joint(Step(k, OpBlock(id, deadline)).0)
  {
    BlockSyscallJointIff(k, id, deadline);
  }

  lemma OtherStep(k: Kernel, op: Op)
    requires Joint(k) && Permitted(k, op) && !Sends(op) && !Waits(op)
    ensures Joint(Step(k, op).0)
  {
    match op
    case OpSpawn(root) => SpawnJoint(k, root);
    case OpRun(id) =>
      var i :| 0 <= i < |k.tasks| && k.tasks[i].id == id && k.tasks[i].state.Ready?;
      MarkRunningJoint(k, id, i);
    case OpExit(id) => ExitJoint(k, id);
    case OpGrant(owner, target, rights) => GrantJoint(k, owner, target, rights);
    case OpRevoke(owner, handle) => RevokeJoint(k, owner, handle);
    case OpTick(now) => TimerTickJoint(k, now);
    case OpPreempt => PreemptJoint(k);
  }

  /** Every step keeps the joint invariant; no send fails to wake, no blocking receive fails to block. */
  lemma StepJoint(k: Kernel, op: Op)
    requires Joint(k) && Permitted(k, op)
    ensures Joint(Step(k, op).0)
    ensures Sends(op) ==> Step(k, op).1 != Some(I.WakeFailed)
    ensures op.OpReceive? ==> Step(k, op).1 != Some(I.BlockFailed)
  {
    if Sends(op) {
      SendStep(k, op);
    } else if Waits(op) {
      WaitStep(k, op);
    } else {
      OtherStep(k, op);
    }
  }

  /** The state reached by `ops` from boot; None if some step was not permitted. */
  ghost function Run(ops: seq<Op>): (r: Option<Kernel>)
    ensures r.Some? ==> Joint(r.value)
  {
    if ops == [] then StartJoint(); Some(Start())
    else
      match Run(ops[..|ops| - 1])
      case None => None
      case Some(k) =>
        if !Permitted(k, ops[|ops| - 1]) then None
        else StepJoint(k, ops[|ops| - 1]); Some(Step(k, ops[|ops| - 1]).0)
  }

  /** The three records of one live task say the same, and a waiting endpoint has nothing to deliver. */
  ghost predicate ViewsAgree(k: Kernel, i: nat)
    requires i < |k.tasks|
  {
    var t := k.tasks[i];
    && (t.state.Blocked? <==> t.waiting)
    && (t.state.Blocked? <==> t.id in k.sched.blocked)
    && exists e :: && 0 <= e < |k.ipc.endpoints| && k.ipc.endpoints[e].owner == t.id
                   && (k.ipc.endpoints[e].waiting <==> t.state.Blocked?)
                   && (k.ipc.endpoints[e].waiting ==> k.ipc.endpoints[e].queue == [])
  }

  /** In every state of every run all records of every live task agree. */
  lemma RunAgrees(ops: seq<Op>, i: nat)
    requires Run(ops).Some? && i < |Run(ops).value.tasks| && IsLive(Run(ops).value.tasks[i])
    ensures ViewsAgree(Run(ops).value, i)
  {
    var k := Run(ops).value;
    var e := EndpointOf(k, i);
    var j := TaskOf(k, e);
    assert k.ipc.endpoints[e].owner == k.tasks[i].id;
  }

  /** In every run a send never fails to wake its receiver. */
  lemma RunNeverFailsToWake(ops: seq<Op>, op: Op)
    requires Run(ops).Some? && Permitted(Run(ops).value, op) && Sends(op)
    ensures Step(Run(ops).value, op).1 != Some(I.WakeFailed)
  {
    StepJoint(Run(ops).value, op);
  }

  lemma RunThen(ops: seq<Op>, op: Op)
    requires Run(ops).Some? && Permitted(Run(ops).value, op)
    ensures Run(ops + [op]) == Some(Step(Run(ops).value, op).0)
  {
    assert (ops + [op])[..|ops|] == ops;
  }

  /**
   In every run a tick wakes exactly the tasks whose deadline has come: right after it nobody waits
   past a deadline, and nobody was woken before.
   */
  lemma RunMeetsDeadlines(ops: seq<Op>, now: nat)
    requires Run(ops).Some?
    ensures Run(ops + [OpTick(now)]).Some?
    ensures var (before, after) := (Run(ops).value.tasks, Run(ops + [OpTick(now)]).value.tasks);
            && |after| == |before|
            && (forall i :: 0 <= i < |after| ==>
                  !(after[i].state.Blocked? && after[i].waiting && after[i].deadline != 0 && after[i].deadline <= now))
            && (forall i :: 0 <= i < |after| && (before[i].deadline == 0 || before[i].deadline > now) ==> after[i] == before[i])
            && (forall i :: 0 <= i < |after| && before[i].state.Blocked? && before[i].waiting && 0 < before[i].deadline <= now ==>
                  after[i] == before[i].(state := Ready, waiting := false, deadline := 0, reason := ByTimeout))
  {
    RunThen(ops, OpTick(now));
    TimerTickJoint(Run(ops).value, now);
    TickedSlots(Run(ops).value.tasks, TimerTick(Run(ops).value, now).tasks, now);
  }

  lemma TickedSlots(before: seq<Task>, after: seq<Task>, now: nat)
    requires |after| == |before| && forall i :: 0 <= i < |after| ==> after[i] == TimedOut(before[i], now)
    ensures forall i :: 0 <= i < |after| ==>
              !(after[i].state.Blocked? && after[i].waiting && after[i].deadline != 0 && after[i].deadline <= now)
    ensures forall i :: 0 <= i < |after| && (before[i].deadline == 0 || before[i].deadline > now) ==> after[i] == before[i]
    ensures forall i :: 0 <= i < |after| && before[i].state.Blocked? && before[i].waiting && 0 < before[i].deadline <= now ==>
              after[i] == before[i].(state := Ready, waiting := false, deadline := 0, reason := ByTimeout)
  {
  }

  /**
   The rule that sleepers make no calls is needed: wherever a ready task finds its mailbox empty,
   a first blocking receive puts it to sleep and a second one on its behalf breaks the agreement.
   */
  lemma SecondReceiveBreaks(k: Kernel, id: nat, i: nat)
    requires Joint(k) && i < |k.tasks| && k.tasks[i].state.Ready? && k.tasks[i].id == id
    requires I.Find(k.ipc.endpoints, id).Some? && k.ipc.endpoints[I.Find(k.ipc.endpoints, id).value].queue == []
    ensures var asleep := ReceiveBlocking(k, id, 64).0;
            Joint(asleep) && Asleep(asleep, id) && !Joint(ReceiveBlocking(asleep, id, 64).0)
  {
    var e := EndpointOf(k, i);
    OnlySlot(k, id, i, e);
    FirstReceiveSleeps(k, id, i);
    ReceiveJointIff(k, id, 64);
    ReceiveJointIff(ReceiveBlocking(k, id, 64).0, id, 64);
  }

  /** A ready task with an empty mailbox falls asleep. */
  lemma FirstReceiveSleeps(k: Kernel, id: nat, i: nat)
    requires Joint(k) && i < |k.tasks| && k.tasks[i].state.Ready? && k.tasks[i].id == id
    requires I.Find(k.ipc.endpoints, id).Some? && k.ipc.endpoints[I.Find(k.ipc.endpoints, id).value].queue == []
    ensures Asleep(ReceiveBlocking(k, id, 64).0, id)
  {
    EmptyReceive(k.ipc, id, 64);
    var e := EndpointOf(k, i);
    OnlySlot(k, id, i, e);
    ReceiveAwake(k, id, i, e);
  }

  /** A task just spawned is ready, and its mailbox is empty. */
  lemma SpawnedReady(k: Kernel, root: nat) returns (i: nat)
    requires Joint(k) && root != 0 && Spawn(k, root).1.Some?
    ensures var (after, id) := (Spawn(k, root).0, Spawn(k, root).1.value);
            && Joint(after) && i < |after.tasks| && after.tasks[i].state.Ready? && after.tasks[i].id == id
            && I.Find(after.ipc.endpoints, id).Some? && after.ipc.endpoints[I.Find(after.ipc.endpoints, id).value].queue == []
  {
    SpawnJoint(k, root);
    i := FreeTask(k.tasks).value;
    var (after, id) := (Spawn(k, root).0, Spawn(k, root).1.value);
    var e := EndpointOf(after, i);
    OnlySlot(after, id, i, e);
    FreeEndpoint(k, i);
    assert after.ipc.endpoints[I.Find(k.ipc.endpoints, 0).value].owner == id;
  }

  /** The rule is needed from boot on: spawn a task, receive, and receive again on behalf of the sleeper. */
  lemma SecondReceiveReached(root: nat) returns (id: nat)
    requires root != 0
    ensures var spawned := Run([OpSpawn(root)]);
            var asleep := Run([OpSpawn(root)] + [OpReceive(id, 64)]);
            && spawned.Some? && asleep == Some(ReceiveBlocking(spawned.value, id, 64).0) && Asleep(asleep.value, id)
            && !Joint(ReceiveBlocking(asleep.value, id, 64).0)
  {
    StartJoint();
    assert [] + [OpSpawn(root)] == [OpSpawn(root)] && Run([]) == Some(Start());
    RunThen([], OpSpawn(root));
    var k := Run([OpSpawn(root)]).value;
    SpawnJoint(Start(), root);
    assert !IsLive(Start().tasks[0]);
    id := Spawn(Start(), root).1.value;
    var i := SpawnedReady(Start(), root);
    SecondReceiveBreaks(k, id, i);
    ReceiveJointIff(k, id, 64);
    RunThen([OpSpawn(root)], OpReceive(id, 64));
  }
}
