/**
 Tasks, scheduler and IPC together: the blocking receive, its three wake-ups (message, cancel,
 timeout), task creation and task exit, over root ELF tasks.
 */
module JointModel {
  import opened Common
  import I = IpcModel
  import S = SchedModel

  const MAX_TASKS: nat := 8

  datatype TaskState = Empty | Ready | Running | Blocked | Exited

  datatype WakeReason = NoReason | ByMessage | ByTimeout | ByCancel

  /** `root` is the address-space root; `waiting` is the task's own record of an IPC wait. */
  datatype Task = Task(
    id: nat, state: TaskState, root: nat, resources: bool,
    waiting: bool, restart: bool, deadline: nat, reason: WakeReason)

  const NO_TASK := Task(0, Empty, 0, false, false, false, 0, NoReason)

  datatype Kernel = Kernel(tasks: seq<Task>, nextId: nat, sched: S.Sched, ipc: I.State)

  function Start(): Kernel
  {
    Kernel(seq(MAX_TASKS, _ => NO_TASK), 1, S.IDLE, I.Boot(true))
  }

  predicate IsLive(t: Task) { t.state.Ready? || t.state.Running? || t.state.Blocked? }

  function FindTask(tasks: seq<Task>, id: nat): (r: Option<nat>)
    ensures r.Some? ==> r.value < |tasks| && !tasks[r.value].state.Empty? && tasks[r.value].id == id
    ensures r.Some? ==> forall j :: 0 <= j < r.value ==> tasks[j].state.Empty? || tasks[j].id != id
    ensures r.None? ==> forall j :: 0 <= j < |tasks| ==> tasks[j].state.Empty? || tasks[j].id != id
  {
    First(tasks, (t: Task) => !t.state.Empty? && t.id == id)
  }

  /** An unused slot, or one left by a task that exited and was cleaned up. */
  function FreeTask(tasks: seq<Task>): (r: Option<nat>)
    ensures r.Some? ==> r.value < |tasks| && !IsLive(tasks[r.value])
    ensures r.None? ==> forall j :: 0 <= j < |tasks| ==> !tasks[j].state.Empty? && (tasks[j].state.Exited? ==> tasks[j].resources)
  {
    First(tasks, (t: Task) => t.state.Empty? || (t.state.Exited? && !t.resources))
  }

  function SetTask(k: Kernel, i: nat, t: Task): Kernel
    requires i < |k.tasks|
  {
    Kernel(k.tasks[i := t], k.nextId, k.sched, k.ipc)
  }

  // ---- life cycle

  ghost function Spawn(k: Kernel, root: nat): (Kernel, Option<nat>)
    requires I.CounterOk(k.ipc)
  {
    match FreeTask(k.tasks)
    case None => (k, None)
    case Some(i) =>
      var id := k.nextId;
      var (ipc, r) := I.Register(k.ipc, id);
      if r.Err? then (Kernel(k.tasks, id + 1, k.sched, ipc), None)
      else
        (Kernel(k.tasks[i := Task(id, Ready, root, true, false, false, 0, NoReason)], id + 1,
                S.Enqueue(k.sched, id).0, ipc),
         Some(id))
  }

  function MarkRunning(k: Kernel, id: nat): Kernel
  {
    match FindTask(k.tasks, id)
    case None => k
    case Some(i) =>
      Kernel(k.tasks[i := k.tasks[i].(state := Running)], k.nextId, S.Begin(k.sched, id), k.ipc)
  }

  /** Exit and cleanup as one step: off the scheduler, endpoint and its capabilities gone. */
  ghost function Exit(k: Kernel, id: nat): Kernel
  {
    match FindTask(k.tasks, id)
    case None => k
    case Some(i) =>
      var t := k.tasks[i];
      Kernel(k.tasks[i := Task(id, Exited, t.root, false, false, false, 0, NoReason)], k.nextId, S.Finish(k.sched, id),
             if t.resources then I.Unregister(k.ipc, id).0 else k.ipc)
  }

  // ---- blocking

  function BlockForIpc(k: Kernel, id: nat): (Kernel, bool)
  {
    match FindTask(k.tasks, id)
    case None => (k, false)
    case Some(i) =>
      var t := k.tasks[i];
      if !(t.state.Ready? || t.state.Running?) || t.waiting then (k, false)
      else
        var (sched, ok) := S.Block(k.sched, id);
        if !ok then (Kernel(k.tasks, k.nextId, sched, k.ipc), false)
        else
          (Kernel(k.tasks[i := t.(state := Blocked, waiting := true, deadline := 0, reason := NoReason)],
                  k.nextId, sched, k.ipc), true)
  }

  /** Blocks the running task and hands the processor to the next ready one. */
  function BlockForSyscall(k: Kernel, id: nat, deadline: nat): (Kernel, Option<nat>)
  {
    match FindTask(k.tasks, id)
    case None => (k, None)
    case Some(i) =>
      var t := k.tasks[i];
      if !t.state.Running? || t.waiting || t.restart then (k, None)
      else
        var (sched, d) := S.BlockAndDispatch(k.sched, id);
        var switched := Kernel(k.tasks, k.nextId, sched, k.ipc);
        if !d.switched || d.previous != id then (switched, None)
        else
          match FindTask(k.tasks, d.next)
          case None => (switched, None)
          case Some(j) =>
            if k.tasks[j].root == 0 then (switched, None)
            else
              var blocked := k.tasks[i := t.(state := Blocked, waiting := true, restart := true, deadline := deadline, reason := NoReason)];
              (Kernel(blocked[j := blocked[j].(state := Running)], k.nextId, sched, k.ipc), Some(k.tasks[j].root))
  }

  datatype ReceiveOutcome = GotMessage(delivery: I.Delivery) | NowBlocked

  function WithIpc(k: Kernel, ipc: I.State): Kernel { Kernel(k.tasks, k.nextId, k.sched, ipc) }

  ghost function ReceiveBlocking(k: Kernel, id: nat, capacity: nat): (Kernel, Result<ReceiveOutcome, I.IpcError>)
  {
    var (ipc, r) := I.ReceiveFrom(k.ipc, id, capacity);
    match r
    case Ok(d) => (WithIpc(k, ipc), Ok(GotMessage(d)))
    case Err(e) =>
      if !e.QueueEmpty? then (WithIpc(k, ipc), Err(e))
      else
        var (flagged, s) := I.SetWaiting(ipc, id, true);
        if s.Err? then (WithIpc(k, ipc), Err(s.error))
        else
          var (blocked, ok) := BlockForIpc(WithIpc(k, flagged), id);
          if ok then (blocked, Ok(NowBlocked))
          else (WithIpc(blocked, I.SetWaiting(blocked.ipc, id, false).0), Err(I.BlockFailed))
  }

  /** Receiving without blocking, as the system call does before it decides to block. */
  ghost function Poll(k: Kernel, id: nat, capacity: nat): (Kernel, Result<I.Delivery, I.IpcError>)
  {
    var (ipc, r) := I.ReceiveFrom(k.ipc, id, capacity);
    (WithIpc(k, ipc), r)
  }

  datatype BlockOutcome = MessageReady | Switched(root: nat)

  ghost function BlockSyscall(k: Kernel, id: nat, deadline: nat): (Kernel, Result<BlockOutcome, I.IpcError>)
  {
    var (ipc, allowed) := I.CanReceive(k.ipc, id);
    if allowed.Err? then (WithIpc(k, ipc), Err(allowed.error))
    else
      match I.Find(ipc.endpoints, id)
      case None => (WithIpc(k, ipc), Err(I.EndpointMissing))
      case Some(e) =>
        if ipc.endpoints[e].queue != [] then (WithIpc(k, ipc), Ok(MessageReady))
        else
          var (blocked, root) := BlockForSyscall(WithIpc(k, I.SetWaiting(ipc, id, true).0), id, deadline);
          match root
          case Some(r) => (blocked, Ok(Switched(r)))
          case None => (WithIpc(blocked, I.SetWaiting(blocked.ipc, id, false).0), Err(I.BlockFailed))
  }

  // ---- waking

  /** Puts a task that waits for IPC back in the ready queue and records why. */
  function WakeWaiter(k: Kernel, id: nat, reason: WakeReason): (Kernel, bool)
  {
    match FindTask(k.tasks, id)
    case None => (k, false)
    case Some(i) =>
      var t := k.tasks[i];
      if !t.state.Blocked? || !t.waiting then (k, false)
      else
        var (sched, ok) := S.Wake(k.sched, id);
        if !ok then (Kernel(k.tasks, k.nextId, sched, k.ipc), false)
        else
          (Kernel(k.tasks[i := t.(state := Ready, waiting := false, deadline := 0, reason := reason)],
                  k.nextId, sched, k.ipc), true)
  }

  function FinishSend(k: Kernel, sequence: nat, wake: bool, receiver: nat): (Kernel, Result<nat, I.IpcError>)
  {
    if !wake then (k, Ok(sequence))
    else
      var (woken, ok) := WakeWaiter(k, receiver, ByMessage);
      if ok then (woken, Ok(sequence))
      else (WithIpc(woken, I.SetWaiting(woken.ipc, receiver, true).0), Err(I.WakeFailed))
  }

  ghost function SendMessage(k: Kernel, sender: nat, receiver: nat, bytes: seq<Byte>): (Kernel, Result<nat, I.IpcError>)
  {
    match I.SendTo(k.ipc, sender, receiver, bytes)
    case (ipc, Err(e)) => (WithIpc(k, ipc), Err(e))
    case (ipc, Ok((sequence, waiting))) => FinishSend(WithIpc(k, ipc), sequence, waiting, receiver)
  }

  ghost function SendThrough(k: Kernel, sender: nat, handle: nat, bytes: seq<Byte>): (Kernel, Result<nat, I.IpcError>)
  {
    match I.SendCapability(k.ipc, sender, handle, bytes)
    case (ipc, Err(e)) => (WithIpc(k, ipc), Err(e))
    case (ipc, Ok((sequence, waiting, receiver))) => FinishSend(WithIpc(k, ipc), sequence, waiting, receiver)
  }

  ghost function SendGrant(
    k: Kernel, sender: nat, destination: nat, source: nat, requested: I.Rights, bytes: seq<Byte>)
    : (Kernel, Result<nat, I.IpcError>)
    requires I.CounterOk(k.ipc)
  {
    match I.Transfer(k.ipc, sender, destination, source, requested, bytes)
    case (ipc, Err(e)) => (WithIpc(k, ipc), Err(e))
    case (ipc, Ok((sequence, waiting, receiver, _))) => FinishSend(WithIpc(k, ipc), sequence, waiting, receiver)
  }

  ghost function CancelWait(k: Kernel, requester: nat, handle: nat): (Kernel, Result<nat, I.IpcError>)
  {
    match I.Resolve(k.ipc, requester, handle, {I.Cancel})
    case (ipc, Err(e)) => (WithIpc(k, ipc), Err(e))
    case (ipc, Ok(cap)) =>
      var (woken, ok) := WakeWaiter(WithIpc(k, ipc), cap.target, ByCancel);
      if !ok then (woken, Err(I.NotWaiting))
      else
        match I.SetWaiting(woken.ipc, cap.target, false)
        case (flagged, Err(e)) => (WithIpc(woken, flagged), Err(e))
        case (flagged, Ok(_)) => (WithIpc(woken, flagged), Ok(cap.target))
  }

  // ---- time

  predicate Expired(t: Task, now: nat)
  {
    t.state.Blocked? && t.waiting && t.deadline != 0 && t.deadline <= now
  }

  function ExpireOne(k: Kernel, i: nat, now: nat): Kernel
    requires i < |k.tasks|
  {
    var t := k.tasks[i];
    if !Expired(t, now) then k
    else
      var (sched, ok) := S.Wake(k.sched, t.id);
      if !ok then Kernel(k.tasks, k.nextId, sched, k.ipc)
      else
        Kernel(k.tasks[i := t.(state := Ready, waiting := false, deadline := 0, reason := ByTimeout)],
               k.nextId, sched, I.SetWaiting(k.ipc, t.id, false).0)
  }

  /** Slots 0 to n - 1 checked for expired deadlines, in order. */
  function Expire(k: Kernel, now: nat, n: nat): (r: Kernel)
    requires n <= |k.tasks|
    ensures |r.tasks| == |k.tasks|
  {
    if n == 0 then k else ExpireOne(Expire(k, now, n - 1), n - 1, now)
  }

  function TimerTick(k: Kernel, now: nat): Kernel
  {
    var ticked := Kernel(k.tasks, k.nextId, S.Tick(k.sched), k.ipc);
    Expire(ticked, now, |k.tasks|)
  }

  /** The preemption half of a timer interrupt taken in user mode. */
  function TimerPreempt(k: Kernel): (Kernel, Option<nat>)
  {
    var (sched, d) := S.Preempt(k.sched);
    var switched := Kernel(k.tasks, k.nextId, sched, k.ipc);
    if !d.switched then (switched, None)
    else
      match FindTask(k.tasks, d.previous)
      case None => (switched, None)
      case Some(i) =>
        match FindTask(k.tasks, d.next)
        case None => (switched, None)
        case Some(j) =>
          var paused := k.tasks[i := k.tasks[i].(state := Ready)];
          if paused[j].root == 0 then (Kernel(paused, k.nextId, sched, k.ipc), None)
          else (Kernel(paused[j := paused[j].(state := Running)], k.nextId, sched, k.ipc), Some(paused[j].root))
  }

  /** Reading the wake reason ends a timed-out or cancelled system call. */
  function TakeReason(k: Kernel, id: nat): Kernel
  {
    match FindTask(k.tasks, id)
    case None => k
    case Some(i) =>
      var t := k.tasks[i];
      SetTask(k, i, t.(reason := NoReason, restart := if t.reason.ByTimeout? || t.reason.ByCancel? then false else t.restart))
  }

  function CompleteRestart(k: Kernel, id: nat): Kernel
  {
    match FindTask(k.tasks, id)
    case None => k
    case Some(i) =>
      if !k.tasks[i].restart then k
      else SetTask(k, i, k.tasks[i].(restart := false, deadline := 0, reason := NoReason))
  }
}
