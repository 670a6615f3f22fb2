/** Blocking receives: when they succeed, when they fail, and when they would break the agreement. */
module JointBlocking {
  import opened Common
  import opened JointModel
  import opened JointLaws
  import opened JointMoves
  import opened JointProtocol
  import opened JointSteps
  import I = IpcModel
  import IInv = IpcInvariant
  import IP = IpcPreservation
  import S = SchedModel
  import SL = SchedLaws

  /** Task `id` is asleep: it cannot be the caller of a system call. */
  predicate Asleep(k: Kernel, id: nat)
  {
    exists i :: 0 <= i < |k.tasks| && k.tasks[i].id == id && k.tasks[i].state.Blocked?
  }

  /** Every registered task, and nobody else, may receive on its own endpoint. */
  lemma CanReceiveIff(s: I.State, id: nat)
    requires IInv.Inv(s)
    ensures I.CanReceive(s, id).0 == s
    ensures I.CanReceive(s, id).1.Ok? <==> id != 0 && I.Find(s.endpoints, id).Some?
    ensures I.CanReceive(s, id).1.Err? ==> !I.CanReceive(s, id).1.error.BlockFailed? && !I.CanReceive(s, id).1.error.QueueEmpty?
  {
    if I.Find(s.endpoints, id).Some? {
      var i := I.Find(s.endpoints, id).value;
      assert IInv.TableOk(s.endpoints, i);
      if id != 0 {
        var c := s.endpoints[i].caps[0];
        assert IInv.CapOk(s.endpoints, i, 0);
        I.EncodeDecode(0, c.generation);
        assert I.Resolve(s, id, I.Encode(0, c.generation), {I.Receive}) == (s, Ok(c));
      } else {
        assert !I.Live(s.endpoints, i, 0);
      }
    }
  }

  /** The state after the wait flag of the task in slot `i` was raised. */
  ghost predicate Raised(k: Kernel, i: nat, e: nat, ipc: I.State)
  {
    && i < |k.tasks| && e < |k.ipc.endpoints| == |ipc.endpoints| && IsLive(k.tasks[i]) && k.ipc.endpoints[e].owner == k.tasks[i].id
    && IInv.Inv(ipc) && ipc.initialized
    && Sigs(ipc.endpoints) == Sigs(k.ipc.endpoints)[e := Sig(k.tasks[i].id, true, true)]
  }

  lemma RaiseFlag(k: Kernel, i: nat, e: nat)
    requires Joint(k) && i < |k.tasks| && IsLive(k.tasks[i]) && I.Find(k.ipc.endpoints, k.tasks[i].id) == Some(e)
    requires k.ipc.endpoints[e].queue == []
    ensures I.SetWaiting(k.ipc, k.tasks[i].id, true).1.Ok?
    ensures Raised(k, i, e, I.SetWaiting(k.ipc, k.tasks[i].id, true).0)
  {
    IP.SetWaitingKeepsInv(k.ipc, k.tasks[i].id, true);
    SetWaitingSigs(k.ipc, k.tasks[i].id, true, e);
  }

  lemma BlockedIpc(k: Kernel, i: nat, e: nat, ipc: I.State, t: Task)
    requires Joint(k) && Raised(k, i, e, ipc) && t.state.Blocked? && t.id == k.tasks[i].id
    ensures IpcAgrees(k.tasks[i := t], Sigs(ipc.endpoints))
  {
    SigsDiffer(k.ipc.endpoints);
    IpcMoved(k.tasks, k.nextId, Sigs(k.ipc.endpoints), i, t, e, Sig(t.id, true, true));
  }

  /** Raising the flag and lowering it again is invisible for a task that was not waiting. */
  lemma LowerFlag(s: I.State, id: nat, e: nat)
    requires I.Find(s.endpoints, id) == Some(e) && !s.endpoints[e].waiting
    ensures I.SetWaiting(I.SetWaiting(s, id, true).0, id, false).0 == s
  {
    var raised := I.SetWaiting(s, id, true).0;
    IP.FindSameOwners(s.endpoints, raised.endpoints, id);
    assert s.endpoints[e].(waiting := true).(waiting := false) == s.endpoints[e];
    assert I.SetWaiting(raised, id, false).0.endpoints == s.endpoints;
  }

  // ---- receive with blocking

  lemma BlockForIpcJoint(k: Kernel, id: nat, i: nat, e: nat, ipc: I.State)
    requires Joint(k) && Raised(k, i, e, ipc) && k.tasks[i].id == id && !k.tasks[i].state.Blocked?
    ensures BlockForIpc(WithIpc(k, ipc), id).1 && Joint(BlockForIpc(WithIpc(k, ipc), id).0)
    ensures Asleep(BlockForIpc(WithIpc(k, ipc), id).0, id)
  {
    FindLive(k.tasks, k.nextId, i);
    var t := k.tasks[i].(state := Blocked, waiting := true, deadline := 0, reason := NoReason);
    SlotUpdate(k.tasks, k.nextId, i, t);
    BlockSched(k.tasks, k.nextId, k.sched, i, t);
    BlockedIpc(k, i, e, ipc, t);
    Assemble(k.tasks[i := t], k.nextId, S.Block(k.sched, id).0, ipc);
    assert k.tasks[i := t][i] == t;
  }

  lemma DeliveredJoint(k: Kernel, id: nat, capacity: nat)
    requires Joint(k) && I.ReceiveFrom(k.ipc, id, capacity).1.Ok?
    ensures Joint(WithIpc(k, I.ReceiveFrom(k.ipc, id, capacity).0)) && !Asleep(k, id)
  {
    var e := IP.ReceiveCases(k.ipc, id, capacity);
    IP.ReceiveKeepsInv(k.ipc, id, capacity);
    PoppedSigs(k.ipc, e);
    assert !k.ipc.endpoints[e].waiting by { var i := TaskOf(k, e); }
    QueueJoint(k, e, I.Popped(k.ipc, e));
    if Asleep(k, id) {
      SleeperWaits(k, id);
      assert false;
    }
  }

  lemma PoppedSigs(s: I.State, e: nat)
    requires e < |s.endpoints| && s.endpoints[e].queue != []
    ensures var after := I.Popped(s, e);
            && |after.endpoints| == |s.endpoints| && after.initialized == s.initialized
            && after.endpoints[e].owner == s.endpoints[e].owner && after.endpoints[e].waiting == s.endpoints[e].waiting
            && Sigs(after.endpoints) == Sigs(s.endpoints)[e := SigOf(after.endpoints[e])]
  {
    SigsUpdate(s.endpoints, I.Popped(s, e).endpoints, e);
  }

  /** When receive finds nothing: the endpoint exists and its queue is empty. */
  lemma EmptyReceive(s: I.State, id: nat, capacity: nat)
    requires IInv.Inv(s)
    ensures I.ReceiveFrom(s, id, capacity).1 == Err(I.QueueEmpty) <==>
              id != 0 && I.Find(s.endpoints, id).Some? && s.endpoints[I.Find(s.endpoints, id).value].queue == []
    ensures I.ReceiveFrom(s, id, capacity).1.Err? ==>
              I.ReceiveFrom(s, id, capacity).0 == s && !I.ReceiveFrom(s, id, capacity).1.error.BlockFailed?
  {
    CanReceiveIff(s, id);
  }

  /**
   A blocking receive keeps the three records in agreement if and only if its caller is not asleep.
   For a caller that is awake it cannot fail to block.
   */
  lemma ReceiveJointIff(k: Kernel, id: nat, capacity: nat)
    requires Joint(k)
    ensures Joint(ReceiveBlocking(k, id, capacity).0) <==> !Asleep(k, id)
    ensures ReceiveBlocking(k, id, capacity).1 == Err(I.BlockFailed) <==> Asleep(k, id)
  {
    EmptyReceive(k.ipc, id, capacity);
    var r := I.ReceiveFrom(k.ipc, id, capacity).1;
    if r.Ok? {
      DeliveredJoint(k, id, capacity);
    } else if r.error.QueueEmpty? {
      var e := I.Find(k.ipc.endpoints, id).value;
      var i := TaskOf(k, e);
      if Asleep(k, id) { ReceiveAsleep(k, id, i, e); } else { ReceiveAwake(k, id, i, e); }
    } else {
      assert WithIpc(k, k.ipc) == k;
      if Asleep(k, id) { SleeperWaits(k, id); assert false; }
    }
  }

  /** Receiving without blocking always keeps the agreement; for a sleeping task it finds nothing. */
  lemma PollJoint(k: Kernel, id: nat, capacity: nat)
    requires Joint(k)
    ensures Joint(Poll(k, id, capacity).0)
    ensures Poll(k, id, capacity).1.Err? ==> Poll(k, id, capacity).0 == k
    ensures Asleep(k, id) ==> Poll(k, id, capacity).1 == Err(I.QueueEmpty)
  {
    EmptyReceive(k.ipc, id, capacity);
    assert WithIpc(k, k.ipc) == k;
    if I.ReceiveFrom(k.ipc, id, capacity).1.Ok? { DeliveredJoint(k, id, capacity); }
    if Asleep(k, id) { SleeperWaits(k, id); }
  }

  /** A sleeping task has an empty mailbox on a registered endpoint. */
  lemma SleeperWaits(k: Kernel, id: nat)
    requires Joint(k) && Asleep(k, id)
    ensures id != 0 && I.Find(k.ipc.endpoints, id).Some? && k.ipc.endpoints[I.Find(k.ipc.endpoints, id).value].queue == []
  {
    var i :| 0 <= i < |k.tasks| && k.tasks[i].id == id && k.tasks[i].state.Blocked?;
    var e := EndpointOf(k, i);
    var j := TaskOf(k, e);
  }

  lemma ReceiveAwake(k: Kernel, id: nat, i: nat, e: nat)
    requires Joint(k) && !Asleep(k, id) && I.Find(k.ipc.endpoints, id) == Some(e) && k.ipc.endpoints[e].queue == []
    requires i < |k.tasks| && IsLive(k.tasks[i]) && k.tasks[i].id == id
    ensures var (blocked, ok) := BlockForIpc(WithIpc(k, I.SetWaiting(k.ipc, id, true).0), id);
            ok && Joint(blocked) && I.SetWaiting(k.ipc, id, true).1.Ok? && Asleep(blocked, id)
  {
    RaiseFlag(k, i, e);
    BlockForIpcJoint(k, id, i, e, I.SetWaiting(k.ipc, id, true).0);
  }

  /** The refused attempt of a sleeping task clears the flag it was sleeping on. */
  lemma ReceiveAsleep(k: Kernel, id: nat, i: nat, e: nat)
    requires Joint(k) && Asleep(k, id) && I.Find(k.ipc.endpoints, id) == Some(e)
    requires i < |k.tasks| && IsLive(k.tasks[i]) && k.tasks[i].id == id
    ensures I.SetWaiting(k.ipc, id, true).1.Ok?
    ensures var flagged := WithIpc(k, I.SetWaiting(k.ipc, id, true).0);
            && BlockForIpc(flagged, id) == (flagged, false)
            && (forall deadline :: BlockForSyscall(flagged, id, deadline) == (flagged, None))
            && !Joint(WithIpc(flagged, I.SetWaiting(flagged.ipc, id, false).0))
  {
    FindLive(k.tasks, k.nextId, i);
    var raised := I.SetWaiting(k.ipc, id, true).0;
    IP.FindSameOwners(k.ipc.endpoints, raised.endpoints, id);
    SetWaitingSigs(raised, id, false, e);
    var after := I.SetWaiting(raised, id, false).0;
    assert Sigs(after.endpoints)[e] == SigOf(after.endpoints[e]);
    assert !IpcAgrees(k.tasks, Sigs(after.endpoints));
  }

  // ---- the blocking system call

  /** The caller can hand over the processor: it runs, is not resuming a call, and someone is ready. */
  predicate MaySwitch(k: Kernel, i: nat)
    requires i < |k.tasks|
  {
    k.tasks[i].state.Running? && !k.tasks[i].restart && k.sched.queue != []
  }

  /** The head of the ready queue is a live task that is ready. */
  lemma HeadReady(k: Kernel) returns (j: nat)
    requires Joint(k) && k.sched.queue != []
    ensures j < |k.tasks| && k.tasks[j].state.Ready? && k.tasks[j].id == k.sched.queue[0].task && k.tasks[j].root != 0
    ensures FindTask(k.tasks, k.sched.queue[0].task) == Some(j)
  {
    var next := k.sched.queue[0].task;
    assert next in LiveIds(k.tasks);
    var x :| 0 <= x < |k.tasks| && IsLive(k.tasks[x]) && k.tasks[x].id == next;
    j := x;
    FindLive(k.tasks, k.nextId, j);
    assert S.Queued(k.sched.queue, next);
  }

  lemma SwitchShape(k: Kernel, id: nat, deadline: nat, i: nat, j: nat, d: S.Decision)
    requires FindTask(k.tasks, id) == Some(i) && FindTask(k.tasks, d.next) == Some(j) && i != j
    requires k.tasks[i].state.Running? && !k.tasks[i].waiting && !k.tasks[i].restart && k.tasks[j].root != 0
    requires S.BlockAndDispatch(k.sched, id).1 == d && d.switched && d.previous == id
    ensures BlockForSyscall(k, id, deadline) ==
              (Kernel(k.tasks[i := k.tasks[i].(state := Blocked, waiting := true, restart := true, deadline := deadline, reason := NoReason)]
                             [j := k.tasks[j].(state := Running)],
                      k.nextId, S.BlockAndDispatch(k.sched, id).0, k.ipc), Some(k.tasks[j].root))
  {
  }

  lemma SwitchJoint(k: Kernel, id: nat, deadline: nat, i: nat, e: nat, ipc: I.State)
    requires Joint(k) && Raised(k, i, e, ipc) && k.tasks[i].id == id && MaySwitch(k, i)
    ensures BlockForSyscall(WithIpc(k, ipc), id, deadline).1.Some? && Joint(BlockForSyscall(WithIpc(k, ipc), id, deadline).0)
  {
    FindLive(k.tasks, k.nextId, i);
    var j := HeadReady(k);
    var t := k.tasks[i].(state := Blocked, waiting := true, restart := true, deadline := deadline, reason := NoReason);
    var u := k.tasks[j].(state := Running);
    DispatchSched(k.tasks, k.nextId, k.sched, i, j, t, u);
    SwitchShape(WithIpc(k, ipc), id, deadline, i, j, S.BlockAndDispatch(k.sched, id).1);
    SwitchTables(k, i, j, e, ipc, t, u);
    Assemble(k.tasks[i := t][j := u], k.nextId, S.BlockAndDispatch(k.sched, id).0, ipc);
  }

  lemma SwitchTables(k: Kernel, i: nat, j: nat, e: nat, ipc: I.State, t: Task, u: Task)
    requires Joint(k) && Raised(k, i, e, ipc) && j < |k.tasks| && i != j && IsLive(k.tasks[j])
    requires t == k.tasks[i].(state := Blocked, waiting := true, restart := t.restart, deadline := t.deadline, reason := t.reason)
    requires k.tasks[j].state.Ready? && u == k.tasks[j].(state := Running)
    ensures TasksOk(k.tasks[i := t][j := u], k.nextId)
    ensures IpcAgrees(k.tasks[i := t][j := u], Sigs(ipc.endpoints))
  {
    SlotUpdate(k.tasks, k.nextId, i, t);
    BlockedIpc(k, i, e, ipc, t);
    var tasks := k.tasks[i := t];
    SlotUpdate(tasks, k.nextId, j, u);
    ReadyRuns(tasks, Sigs(ipc.endpoints), j, u);
  }

  lemma ReadyRuns(tasks: seq<Task>, sigs: seq<Sig>, j: nat, u: Task)
    requires IpcAgrees(tasks, sigs) && j < |tasks| && tasks[j].state.Ready? && u.state.Running? && u.id == tasks[j].id
    ensures IpcAgrees(tasks[j := u], sigs)
  {
    var now := tasks[j := u];
    LiveIdsSame(tasks, j, u);
    forall m | 0 <= m < |now| && IsLive(now[m]) ensures exists d :: 0 <= d < |sigs| && sigs[d].owner == now[m].id {
      assert IsLive(tasks[m]) && tasks[m].id == now[m].id;
    }
    forall m, d | 0 <= m < |now| && 0 <= d < |sigs| && IsLive(now[m]) && sigs[d].owner == now[m].id
      ensures sigs[d].waiting <==> now[m].state.Blocked?
    {
      assert IsLive(tasks[m]) && tasks[m].id == now[m].id;
    }
  }

  lemma RefusedJoint(k: Kernel, id: nat, deadline: nat, i: nat, e: nat)
    requires Joint(k) && i < |k.tasks| && IsLive(k.tasks[i]) && k.tasks[i].id == id && !k.tasks[i].state.Blocked? && !MaySwitch(k, i)
    requires I.Find(k.ipc.endpoints, id) == Some(e)
    ensures var flagged := WithIpc(k, I.SetWaiting(k.ipc, id, true).0);
            && BlockForSyscall(flagged, id, deadline) == (flagged, None)
            && WithIpc(flagged, I.SetWaiting(flagged.ipc, id, false).0) == k
  {
    FindLive(k.tasks, k.nextId, i);
    var x := TaskOf(k, e);
    assert x == i;
    LowerFlag(k.ipc, id, e);
    if k.tasks[i].state.Running? && !k.tasks[i].restart {
      assert S.BlockAndDispatch(k.sched, id) == (k.sched, S.Stay(k.sched.current));
    }
  }

  /** Task `id` has an empty mailbox and cannot hand over the processor. */
  ghost predicate Stuck(k: Kernel, id: nat)
  {
    exists i, e :: && 0 <= i < |k.tasks| && IsLive(k.tasks[i]) && k.tasks[i].id == id && !MaySwitch(k, i)
                   && 0 <= e < |k.ipc.endpoints| && k.ipc.endpoints[e].owner == id && k.ipc.endpoints[e].queue == []
  }

  /**
   The blocking system call keeps the agreement if and only if its caller is not asleep. It is
   refused exactly when the mailbox is empty and the caller cannot hand over the processor, and a
   refusal to an awake caller changes nothing.
   */
  lemma BlockSyscallJointIff(k: Kernel, id: nat, deadline: nat)
    requires Joint(k)
    ensures Joint(BlockSyscall(k, id, deadline).0) <==> !Asleep(k, id)
    ensures BlockSyscall(k, id, deadline).1 == Err(I.BlockFailed) && !Asleep(k, id) ==> BlockSyscall(k, id, deadline).0 == k
    ensures BlockSyscall(k, id, deadline).1 == Err(I.BlockFailed) <==> Stuck(k, id)
  {
    CanReceiveIff(k.ipc, id);
    if id != 0 && I.Find(k.ipc.endpoints, id).Some? {
      var e := I.Find(k.ipc.endpoints, id).value;
      var i := TaskOf(k, e);
      OnlySlot(k, id, i, e);
      if k.ipc.endpoints[e].queue == [] {
        EmptySyscall(k, id, deadline, i, e);
      } else {
        assert WithIpc(k, k.ipc) == k;
        if Asleep(k, id) {
          SleeperWaits(k, id);
          assert false;
        }
      }
    } else {
      assert WithIpc(k, k.ipc) == k;
      NobodyStuck(k, id);
    }
  }

  lemma NobodyStuck(k: Kernel, id: nat)
    requires Joint(k) && (id == 0 || I.Find(k.ipc.endpoints, id).None?)
    ensures !Stuck(k, id) && !Asleep(k, id)
  {
  }

  lemma EmptySyscall(k: Kernel, id: nat, deadline: nat, i: nat, e: nat)
    requires Joint(k) && I.Find(k.ipc.endpoints, id) == Some(e) && k.ipc.endpoints[e].queue == [] && id != 0
    requires i < |k.tasks| && IsLive(k.tasks[i]) && k.tasks[i].id == id
    requires I.CanReceive(k.ipc, id) == (k.ipc, Ok(()))
    ensures Joint(BlockSyscall(k, id, deadline).0) <==> !k.tasks[i].state.Blocked?
    ensures BlockSyscall(k, id, deadline).1 == Err(I.BlockFailed) && !k.tasks[i].state.Blocked? ==> BlockSyscall(k, id, deadline).0 == k
    ensures BlockSyscall(k, id, deadline).1 == Err(I.BlockFailed) <==> !MaySwitch(k, i)
  {
    SyscallShape(k, id, deadline, e);
    if k.tasks[i].state.Blocked? {
      ReceiveAsleep(k, id, i, e);
    } else if MaySwitch(k, i) {
      RaiseFlag(k, i, e);
      SwitchJoint(k, id, deadline, i, e, I.SetWaiting(k.ipc, id, true).0);
    } else {
      RefusedJoint(k, id, deadline, i, e);
    }
  }

  /** The system call after its attempt to block. */
  ghost function Attempted(id: nat, attempt: (Kernel, Option<nat>)): (Kernel, Result<BlockOutcome, I.IpcError>)
  {
    match attempt.1
    case Some(r) => (attempt.0, Ok(Switched(r)))
    case None => (WithIpc(attempt.0, I.SetWaiting(attempt.0.ipc, id, false).0), Err(I.BlockFailed))
  }

  lemma SyscallShape(k: Kernel, id: nat, deadline: nat, e: nat)
    requires I.Find(k.ipc.endpoints, id) == Some(e) && k.ipc.endpoints[e].queue == [] && I.CanReceive(k.ipc, id) == (k.ipc, Ok(()))
    ensures BlockSyscall(k, id, deadline) == Attempted(id, BlockForSyscall(WithIpc(k, I.SetWaiting(k.ipc, id, true).0), id, deadline))
  {
  }

  lemma OnlySlot(k: Kernel, id: nat, i: nat, e: nat)
    requires Joint(k) && id != 0 && i < |k.tasks| && IsLive(k.tasks[i]) && k.tasks[i].id == id
    requires e < |k.ipc.endpoints| && k.ipc.endpoints[e].owner == id
    ensures forall j :: 0 <= j < |k.tasks| && IsLive(k.tasks[j]) && k.tasks[j].id == id ==> j == i
    ensures forall d :: 0 <= d < |k.ipc.endpoints| && k.ipc.endpoints[d].owner == id ==> d == e
    ensures Asleep(k, id) <==> k.tasks[i].state.Blocked?
    ensures Stuck(k, id) <==> !MaySwitch(k, i) && k.ipc.endpoints[e].queue == []
  {
  }
}
