/** The task table as the kernel keeps it: slots updated in place beside the scheduler and IPC objects. */
module Process {
  import opened Common
  import opened JointModel
  import I = IpcModel
  import IpcImpl = Ipc
  import S = SchedModel
  import SchedulerImpl

  class ProcessTable {
    const slots: array<Task>
    const scheduler: SchedulerImpl.Scheduler
    const ipc: IpcImpl.IpcState
    var nextId: nat

    ghost predicate Valid()
      reads this, slots, scheduler, scheduler.queue, scheduler.blocked, ipc, ipc.endpoints
    {
      slots.Length == MAX_TASKS && scheduler.Valid() && ipc.Shape()
    }

    ghost function Model(): Kernel
      reads this, slots, scheduler, ipc
    {
      Kernel(slots[..], nextId, scheduler.Model(), ipc.Model())
    }

    constructor ()
      ensures Valid() && Model() == Start()
    {
      slots := new Task[MAX_TASKS](_ => NO_TASK);
      scheduler := new SchedulerImpl.Scheduler();
      ipc := new IpcImpl.IpcState();
      nextId := 1;
      new;
      ipc.Init();
      assert slots[..] == Start().tasks;
    }

    // ---- the task table alone

    method FindSlot(id: nat) returns (r: Option<nat>)
      requires slots.Length == MAX_TASKS
      ensures r == FindTask(slots[..], id)
    {
      var index := 0;
      while index < slots.Length
        invariant 0 <= index <= slots.Length
        invariant forall k :: 0 <= k < index ==> slots[..][k].state.Empty? || slots[..][k].id != id
      {
        if !slots[index].state.Empty? && slots[index].id == id {
          return Some(index);
        }
        index := index + 1;
      }
      r := None;
    }

    method TakeIpcWakeReason(id: nat) returns (reason: WakeReason)
      requires slots.Length == MAX_TASKS
      modifies slots
      ensures Model() == TakeReason(old(Model()), id)
      ensures reason == match FindTask(old(slots[..]), id) case None => NoReason case Some(i) => old(slots[..])[i].reason
    {
      var found := FindSlot(id);
      if found.None? {
        return NoReason;
      }
      var i := found.value;
      reason := slots[i].reason;
      slots[i] := slots[i].(reason := NoReason);
      if (reason.ByTimeout? || reason.ByCancel?) && slots[i].restart {
        slots[i] := slots[i].(restart := false);
      }
    }

    method CompleteIpcRestart(id: nat) returns (done: bool)
      requires slots.Length == MAX_TASKS
      modifies slots
      ensures Model() == CompleteRestart(old(Model()), id)
      ensures done == (FindTask(old(slots[..]), id).Some? && old(slots[..])[FindTask(old(slots[..]), id).value].restart)
    {
      var found := FindSlot(id);
      if found.None? || !slots[found.value].restart {
        return false;
      }
      slots[found.value] := slots[found.value].(restart := false, deadline := 0, reason := NoReason);
      done := true;
    }

    // ---- the table and the scheduler

    method MarkRunning(id: nat) returns (known: bool)
      requires Valid()
      modifies slots, scheduler, scheduler.queue, scheduler.blocked
      ensures Valid() && Model() == JointModel.MarkRunning(old(Model()), id)
      ensures known == FindTask(old(slots[..]), id).Some?
    {
      var found := FindSlot(id);
      if found.None? {
        return false;
      }
      slots[found.value] := slots[found.value].(state := Running);
      scheduler.BeginTask(id);
      known := true;
    }

    method BlockForIpc(id: nat) returns (ok: bool)
      requires Valid()
      modifies slots, scheduler, scheduler.queue, scheduler.blocked
      ensures Valid() && Model() == JointModel.BlockForIpc(old(Model()), id).0
      ensures ok == JointModel.BlockForIpc(old(Model()), id).1
    {
      var found := FindSlot(id);
      if found.None? {
        return false;
      }
      var i := found.value;
      var task := slots[i];
      if !(task.state.Ready? || task.state.Running?) || task.waiting {
        return false;
      }
      ok := scheduler.BlockTask(id);
      if ok {
        slots[i] := slots[i].(state := Blocked, waiting := true, deadline := 0, reason := NoReason);
      }
    }

    method BlockForIpcSyscall(id: nat, deadline: nat) returns (root: Option<nat>)
      requires Valid()
      modifies slots, scheduler, scheduler.queue, scheduler.blocked
      ensures Valid() && Model() == BlockForSyscall(old(Model()), id, deadline).0
      ensures root == BlockForSyscall(old(Model()), id, deadline).1
    {
      var found := FindSlot(id);
      if found.None? {
        return None;
      }
      var i := found.value;
      var previous := slots[i];
      if !previous.state.Running? || previous.waiting || previous.restart {
        return None;
      }
      var d := scheduler.BlockCurrentAndDispatch(id);
      if !d.switched || d.previous != id {
        return None;
      }
      var next := FindSlot(d.next);
      if next.None? || slots[next.value].root == 0 {
        return None;
      }
      var j := next.value;
      slots[i] := slots[i].(state := Blocked, waiting := true, restart := true, deadline := deadline, reason := NoReason);
      slots[j] := slots[j].(state := Running);
      root := Some(slots[j].root);
    }

    /** `wake_from_ipc` and `cancel_ipc_wait`: the same wake-up with a different recorded reason. */
    method Wake(id: nat, reason: WakeReason) returns (ok: bool)
      requires Valid()
      modifies slots, scheduler, scheduler.queue, scheduler.blocked
      ensures Valid() && Model() == WakeWaiter(old(Model()), id, reason).0
      ensures ok == WakeWaiter(old(Model()), id, reason).1
    {
      var found := FindSlot(id);
      if found.None? {
        return false;
      }
      var i := found.value;
      if !slots[i].state.Blocked? || !slots[i].waiting {
        return false;
      }
      ok := scheduler.WakeTask(id);
      if ok {
        slots[i] := slots[i].(state := Ready, waiting := false, deadline := 0, reason := reason);
      }
    }

    method OnTimerInterrupt() returns (root: Option<nat>)
      requires Valid()
      modifies slots, scheduler, scheduler.queue, scheduler.blocked
      ensures Valid() && Model() == TimerPreempt(old(Model())).0
      ensures root == TimerPreempt(old(Model())).1
    {
      var d := scheduler.PreemptCurrent();
      if !d.switched {
        return None;
      }
      var previous := FindSlot(d.previous);
      if previous.None? {
        return None;
      }
      var next := FindSlot(d.next);
      if next.None? {
        return None;
      }
      slots[previous.value] := slots[previous.value].(state := Ready);
      if slots[next.value].root == 0 {
        return None;
      }
      slots[next.value] := slots[next.value].(state := Running);
      root := Some(slots[next.value].root);
    }

    // ---- all three

    method Spawn(root: nat) returns (id: Option<nat>)
      requires Valid()
      modifies this`nextId, slots, scheduler, scheduler.queue, scheduler.blocked, ipc, ipc.endpoints
      ensures Valid() && Model() == JointModel.Spawn(old(Model()), root).0
      ensures id == JointModel.Spawn(old(Model()), root).1
    {
      var free := FreeTask(slots[..]);
      if free.None? {
        return None;
      }
      var number := nextId;
      nextId := nextId + 1;
      var registered := ipc.Register(number);
      if registered.Err? {
        return None;
      }
      slots[free.value] := Task(number, Ready, root, true, false, false, 0, NoReason);
      var queued := scheduler.EnqueueAt(number, scheduler.ticks);
      id := Some(number);
    }

    method ExitAndCleanUp(id: nat) returns (known: bool)
      requires Valid() && I.UniqueGenerations(ipc.eps)
      modifies slots, scheduler, scheduler.queue, scheduler.blocked, ipc, ipc.endpoints
      ensures Valid() && Model() == Exit(old(Model()), id)
      ensures known == FindTask(old(slots[..]), id).Some?
    {
      var found := FindSlot(id);
      if found.None? {
        return false;
      }
      var i := found.value;
      slots[i] := slots[i].(state := Exited, waiting := false, restart := false, deadline := 0, reason := NoReason);
      scheduler.FinishTask(id);
      CleanUp(i);
      known := true;
    }

    /** Gives back what the task in slot `i` holds. */
    method CleanUp(i: nat)
      requires Valid() && i < MAX_TASKS && I.UniqueGenerations(ipc.eps)
      modifies slots, ipc, ipc.endpoints
      ensures Valid() && nextId == old(nextId) && scheduler.Model() == old(scheduler.Model())
      ensures slots[..] == old(slots[..])[i := old(slots[i]).(resources := false)]
      ensures ipc.Model() == if old(slots[i]).resources then I.Unregister(old(ipc.Model()), old(slots[i]).id).0 else old(ipc.Model())
    {
      if slots[i].resources {
        var unregistered := ipc.Unregister(slots[i].id);
        slots[i] := slots[i].(resources := false);
      }
    }

    method ExpireSlot(i: nat, now: nat)
      requires Valid() && i < MAX_TASKS
      modifies slots, scheduler, scheduler.queue, scheduler.blocked, ipc, ipc.endpoints
      ensures Valid() && Model() == ExpireOne(old(Model()), i, now)
    {
      var task := slots[i];
      if !task.state.Blocked? || !task.waiting || task.deadline == 0 || now < task.deadline {
        return;
      }
      var woken := scheduler.WakeTask(task.id);
      if woken {
        var cleared := ipc.SetWaiting(task.id, false);
        slots[i] := slots[i].(state := Ready, waiting := false, deadline := 0, reason := ByTimeout);
      }
    }

    method ExpireIpcDeadlines(now: nat)
      requires Valid()
      modifies slots, scheduler, scheduler.queue, scheduler.blocked, ipc, ipc.endpoints
      ensures Valid() && Model() == Expire(old(Model()), now, MAX_TASKS)
    {
      var index := 0;
      while index < MAX_TASKS
        invariant 0 <= index <= MAX_TASKS
        invariant Valid() && Model() == Expire(old(Model()), now, index)
      {
        ExpireSlot(index, now);
        index := index + 1;
      }
    }

    method OnTimerTick(now: nat)
      requires Valid()
      modifies slots, scheduler, scheduler.queue, scheduler.blocked, ipc, ipc.endpoints
      ensures Valid() && Model() == TimerTick(old(Model()), now)
    {
      scheduler.OnTimerTick();
      assert Model() == Kernel(old(Model()).tasks, old(Model()).nextId, S.Tick(old(Model()).sched), old(Model()).ipc);
      ExpireIpcDeadlines(now);
    }

    // ---- the IPC entry points

    method FinishSend(sequence: nat, wake: bool, receiver: nat) returns (r: Result<nat, I.IpcError>)
      requires Valid()
      modifies slots, scheduler, scheduler.queue, scheduler.blocked, ipc, ipc.endpoints
      ensures Valid() && Model() == JointModel.FinishSend(old(Model()), sequence, wake, receiver).0
      ensures r == JointModel.FinishSend(old(Model()), sequence, wake, receiver).1
    {
      if wake {
        var woken := Wake(receiver, ByMessage);
        if !woken {
          var restored := ipc.SetWaiting(receiver, true);
          return Err(I.WakeFailed);
        }
      }
      r := Ok(sequence);
    }

    method Send(sender: nat, receiver: nat, bytes: seq<Byte>) returns (r: Result<nat, I.IpcError>)
      requires Valid()
      modifies slots, scheduler, scheduler.queue, scheduler.blocked, ipc, ipc.endpoints
      ensures Valid() && Model() == SendMessage(old(Model()), sender, receiver, bytes).0
      ensures r == SendMessage(old(Model()), sender, receiver, bytes).1
    {
      var sent := ipc.Send(sender, receiver, bytes);
      if sent.Err? {
        return Err(sent.error);
      }
      r := FinishSend(sent.value.0, sent.value.1, receiver);
    }

    method SendCapability(sender: nat, handle: nat, bytes: seq<Byte>) returns (r: Result<nat, I.IpcError>)
      requires Valid() && I.UniqueGenerations(ipc.eps)
      modifies slots, scheduler, scheduler.queue, scheduler.blocked, ipc, ipc.endpoints
      ensures Valid() && Model() == SendThrough(old(Model()), sender, handle, bytes).0
      ensures r == SendThrough(old(Model()), sender, handle, bytes).1
    {
      var sent := ipc.SendCapability(sender, handle, bytes);
      if sent.Err? {
        return Err(sent.error);
      }
      r := FinishSend(sent.value.0, sent.value.1, sent.value.2);
    }

    method SendWithCapability(sender: nat, destination: nat, source: nat, requested: I.Rights, bytes: seq<Byte>)
      returns (r: Result<nat, I.IpcError>)
      requires Valid() && I.UniqueGenerations(ipc.eps)
      modifies slots, scheduler, scheduler.queue, scheduler.blocked, ipc, ipc.endpoints
      ensures Valid() && Model() == SendGrant(old(Model()), sender, destination, source, requested, bytes).0
      ensures r == SendGrant(old(Model()), sender, destination, source, requested, bytes).1
    {
      var sent := ipc.Transfer(sender, destination, source, requested, bytes);
      if sent.Err? {
        return Err(sent.error);
      }
      r := FinishSend(sent.value.0, sent.value.1, sent.value.2);
    }

    method Receive(id: nat, capacity: nat) returns (r: Result<ReceiveOutcome, I.IpcError>)
      requires Valid() && I.UniqueGenerations(ipc.eps)
      modifies slots, scheduler, scheduler.queue, scheduler.blocked, ipc, ipc.endpoints
      ensures Valid() && Model() == ReceiveBlocking(old(Model()), id, capacity).0
      ensures r == ReceiveBlocking(old(Model()), id, capacity).1
    {
      var received := ipc.Dequeue(id, capacity);
      if received.Ok? {
        return Ok(GotMessage(received.value));
      }
      if !received.error.QueueEmpty? {
        return Err(received.error);
      }
      var flagged := ipc.SetWaiting(id, true);
      if flagged.Err? {
        return Err(flagged.error);
      }
      var blocked := BlockForIpc(id);
      if !blocked {
        var lowered := ipc.SetWaiting(id, false);
        return Err(I.BlockFailed);
      }
      r := Ok(NowBlocked);
    }

    method ReceiveNow(id: nat, capacity: nat) returns (r: Result<I.Delivery, I.IpcError>)
      requires Valid() && I.UniqueGenerations(ipc.eps)
      modifies ipc, ipc.endpoints
      ensures Valid() && Model() == Poll(old(Model()), id, capacity).0 && r == Poll(old(Model()), id, capacity).1
    {
      r := ipc.Dequeue(id, capacity);
    }

    method BlockSyscall(id: nat, deadline: nat) returns (r: Result<BlockOutcome, I.IpcError>)
      requires Valid() && I.UniqueGenerations(ipc.eps)
      modifies slots, scheduler, scheduler.queue, scheduler.blocked, ipc, ipc.endpoints
      ensures Valid() && Model() == JointModel.BlockSyscall(old(Model()), id, deadline).0
      ensures r == JointModel.BlockSyscall(old(Model()), id, deadline).1
    {
      var allowed := ipc.CanReceive(id);
      if allowed.Err? {
        return Err(allowed.error);
      }
      var found := IpcImpl.FindBox(ipc.endpoints[..], id);
      if found.None? {
        return Err(I.EndpointMissing);
      }
      if ipc.endpoints[found.value].len != 0 {
        return Ok(MessageReady);
      }
      var flagged := ipc.SetWaiting(id, true);
      var root := BlockForIpcSyscall(id, deadline);
      if root.None? {
        var lowered := ipc.SetWaiting(id, false);
        return Err(I.BlockFailed);
      }
      r := Ok(Switched(root.value));
    }

    method CancelWait(requester: nat, handle: nat) returns (r: Result<nat, I.IpcError>)
      requires Valid() && I.UniqueGenerations(ipc.eps)
      modifies slots, scheduler, scheduler.queue, scheduler.blocked, ipc, ipc.endpoints
      ensures Valid() && Model() == JointModel.CancelWait(old(Model()), requester, handle).0
      ensures r == JointModel.CancelWait(old(Model()), requester, handle).1
    {
      var resolved := ipc.Resolve(requester, handle, {I.Cancel});
      if resolved.Err? {
        return Err(resolved.error);
      }
      var target := resolved.value.target;
      var woken := Wake(target, ByCancel);
      if !woken {
        return Err(I.NotWaiting);
      }
      var cleared := ipc.SetWaiting(target, false);
      r := if cleared.Ok? then Ok(target) else Err(I.EndpointMissing);
    }
  }
}
