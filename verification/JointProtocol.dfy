/** Every step of the joint protocol keeps the joint invariant; wake-ups succeed; deadlines hold. */
module JointProtocol {
  import opened Common
  import opened JointModel
  import opened JointLaws
  import opened JointMoves
  import I = IpcModel
  import IL = IpcLineage
  import IInv = IpcInvariant
  import IP = IpcPreservation
  import IT = IpcTransfer
  import S = SchedModel
  import SL = SchedLaws

  // ---- what IPC operations do to the records

  lemma SigsDiffer(eps: seq<I.Endpoint>)
    requires IInv.OwnersUnique(eps)
    ensures OwnersDiffer(Sigs(eps))
  {
  }

  lemma SigsUpdate(before: seq<I.Endpoint>, after: seq<I.Endpoint>, e: nat)
    requires e < |before| == |after| && forall d :: 0 <= d < |before| && d != e ==> SigOf(after[d]) == SigOf(before[d])
    ensures Sigs(after) == Sigs(before)[e := SigOf(after[e])]
  {
  }

  lemma SigsKept(before: seq<I.Endpoint>, after: seq<I.Endpoint>)
    requires |before| == |after| && forall d :: 0 <= d < |before| ==> SigOf(after[d]) == SigOf(before[d])
    ensures Sigs(after) == Sigs(before)
  {
  }

  lemma EraseSig(e: I.Endpoint, gens: set<nat>)
    ensures SigOf(I.EraseEndpoint(e, gens)) == SigOf(e)
  {
    assert |I.EraseEndpoint(e, gens).queue| == |e.queue|;
  }

  // ---- waking

  /**
   Waking a waiting task: whatever just cleared its endpoint's flag (a message, a cancel, a
   timeout), the wake-up succeeds and all three records agree again.
   */
  lemma WakeJoint(k: Kernel, i: nat, e: nat, ipc: I.State, t: Task)
    requires Joint(k) && i < |k.tasks| && k.tasks[i].state.Blocked?
    requires e < |k.ipc.endpoints| && k.ipc.endpoints[e].owner == k.tasks[i].id
    requires IInv.Inv(ipc) && ipc.initialized && |ipc.endpoints| == |k.ipc.endpoints|
    requires Sigs(ipc.endpoints) == Sigs(k.ipc.endpoints)[e := SigOf(ipc.endpoints[e])]
    requires ipc.endpoints[e].owner == k.tasks[i].id && !ipc.endpoints[e].waiting
    requires t == k.tasks[i].(state := Ready, waiting := false, deadline := 0, reason := t.reason)
    ensures S.Wake(k.sched, t.id).1
    ensures Joint(Kernel(k.tasks[i := t], k.nextId, S.Wake(k.sched, t.id).0, ipc))
  {
    WakeSched(k.tasks, k.nextId, k.sched, i, t);
    SigsDiffer(k.ipc.endpoints);
    IpcMoved(k.tasks, k.nextId, Sigs(k.ipc.endpoints), i, t, e, SigOf(ipc.endpoints[e]));
  }

  /** A step that only changed the IPC state, with every task's records as before. */
  lemma IpcOnlyJoint(k: Kernel, ipc: I.State)
    requires Joint(k) && IInv.Inv(ipc) && ipc.initialized && Sigs(ipc.endpoints) == Sigs(k.ipc.endpoints)
    ensures Joint(WithIpc(k, ipc))
  {
  }

  /** A queue that grew or shrank behind a cleared wait flag. */
  lemma QueueJoint(k: Kernel, e: nat, ipc: I.State)
    requires Joint(k) && IInv.Inv(ipc) && ipc.initialized && e < |k.ipc.endpoints| == |ipc.endpoints|
    requires Sigs(ipc.endpoints) == Sigs(k.ipc.endpoints)[e := SigOf(ipc.endpoints[e])]
    requires ipc.endpoints[e].owner == k.ipc.endpoints[e].owner != 0 && !k.ipc.endpoints[e].waiting && !ipc.endpoints[e].waiting
    ensures Joint(WithIpc(k, ipc))
  {
    var i := TaskOf(k, e);
    SigsDiffer(k.ipc.endpoints);
    IpcMoved(k.tasks, k.nextId, Sigs(k.ipc.endpoints), i, k.tasks[i], e, SigOf(ipc.endpoints[e]));
    assert k.tasks[i := k.tasks[i]] == k.tasks;
  }

  /**
   After a message has been queued at endpoint `e`, finishing the send keeps the joint invariant
   and cannot fail: a receiver recorded as waiting is always woken.
   */
  lemma FinishSendJoint(k: Kernel, ipc: I.State, e: nat, sequence: nat)
    requires Joint(k) && IInv.Inv(ipc) && ipc.initialized && e < |k.ipc.endpoints| == |ipc.endpoints|
    requires Sigs(ipc.endpoints) == Sigs(k.ipc.endpoints)[e := SigOf(ipc.endpoints[e])]
    requires ipc.endpoints[e].owner == k.ipc.endpoints[e].owner != 0 && !ipc.endpoints[e].waiting
    ensures var (after, r) := FinishSend(WithIpc(k, ipc), sequence, k.ipc.endpoints[e].waiting, k.ipc.endpoints[e].owner);
            r == Ok(sequence) && Joint(after)
  {
    var i := TaskOf(k, e);
    if k.ipc.endpoints[e].waiting {
      var t := k.tasks[i].(state := Ready, waiting := false, deadline := 0, reason := ByMessage);
      WakeJoint(k, i, e, ipc, t);
    } else {
      QueueJoint(k, e, ipc);
    }
  }

  lemma DeliverSigs(s: I.State, e: nat, m: I.Message)
    requires e < |s.endpoints|
    ensures var after := I.Deliver(s, e, m);
            && |after.endpoints| == |s.endpoints| && after.initialized == s.initialized
            && after.endpoints[e].owner == s.endpoints[e].owner && !after.endpoints[e].waiting
            && Sigs(after.endpoints) == Sigs(s.endpoints)[e := SigOf(after.endpoints[e])]
  {
    SigsUpdate(s.endpoints, I.Deliver(s, e, m).endpoints, e);
  }

  /** Sending never ends in a failed wake-up. */
  lemma SendMessageJoint(k: Kernel, sender: nat, receiver: nat, bytes: seq<Byte>)
    requires Joint(k) && receiver != 0
    ensures Joint(SendMessage(k, sender, receiver, bytes).0)
    ensures SendMessage(k, sender, receiver, bytes).1 != Err(I.WakeFailed)
  {
    var e := IP.SendCases(k.ipc, sender, receiver, bytes);
    IP.SendKeepsInv(k.ipc, sender, receiver, bytes);
    var (ipc, r) := I.SendTo(k.ipc, sender, receiver, bytes);
    if r.Ok? {
      DeliverSigs(k.ipc, e, I.Message(sender, k.ipc.nextSequence, 0, {}, bytes));
      FinishSendJoint(k, ipc, e, r.value.0);
    } else {
      SendErrors(k.ipc, sender, receiver, bytes);
    }
  }

  lemma SendErrors(s: I.State, sender: nat, receiver: nat, bytes: seq<Byte>)
    ensures I.SendTo(s, sender, receiver, bytes).1.Err? ==> !I.SendTo(s, sender, receiver, bytes).1.error.WakeFailed?
  {
  }

  lemma SendThroughJoint(k: Kernel, sender: nat, handle: nat, bytes: seq<Byte>)
    requires Joint(k)
    ensures Joint(SendThrough(k, sender, handle, bytes).0)
    ensures SendThrough(k, sender, handle, bytes).1 != Err(I.WakeFailed)
  {
    var receiver := IP.SendCapabilityCases(k.ipc, sender, handle, bytes);
    IP.SendCapabilityKeepsInv(k.ipc, sender, handle, bytes);
    var e := IP.SendCases(k.ipc, sender, receiver, bytes);
    var (ipc, r) := I.SendCapability(k.ipc, sender, handle, bytes);
    if r.Ok? {
      DeliverSigs(k.ipc, e, I.Message(sender, k.ipc.nextSequence, 0, {}, bytes));
      FinishSendJoint(k, ipc, e, r.value.0);
    } else {
      SendThroughErrors(k.ipc, sender, handle, bytes);
    }
  }

  lemma SendThroughErrors(s: I.State, sender: nat, handle: nat, bytes: seq<Byte>)
    ensures I.SendCapability(s, sender, handle, bytes).1.Err? ==> !I.SendCapability(s, sender, handle, bytes).1.error.WakeFailed?
  {
  }

  lemma CommitSigs(s: I.State, sender: nat, receiver: nat, e: nat, slot: nat, from: I.Capability, requested: I.Rights, bytes: seq<Byte>)
    requires I.CounterOk(s) && e < |s.endpoints| && slot < |s.endpoints[e].caps| && s.endpoints[e].owner == receiver
    ensures var (after, r) := I.Commit(s, sender, receiver, e, slot, from, requested, bytes);
            && |after.endpoints| == |s.endpoints| && after.initialized == s.initialized
            && after.endpoints[e].owner == receiver && !after.endpoints[e].waiting
            && Sigs(after.endpoints) == Sigs(s.endpoints)[e := SigOf(after.endpoints[e])]
            && r.Ok? && r.value.1 == s.endpoints[e].waiting && r.value.2 == receiver
  {
    IT.CommitEffect(s, sender, receiver, e, slot, from, requested, bytes);
    var after := I.Commit(s, sender, receiver, e, slot, from, requested, bytes).0;
    SigsUpdate(s.endpoints, after.endpoints, e);
    AllocateKeepsFlag(s);
  }

  lemma AllocateKeepsFlag(s: I.State)
    requires I.CounterOk(s)
    ensures I.Allocate(s).0.initialized == s.initialized
  {
  }

  /** Sending with a capability attached wakes its receiver too, on the commit or not at all. */
  lemma SendGrantJoint(k: Kernel, sender: nat, destination: nat, source: nat, requested: I.Rights, bytes: seq<Byte>)
    requires Joint(k)
    ensures Joint(SendGrant(k, sender, destination, source, requested, bytes).0)
    ensures SendGrant(k, sender, destination, source, requested, bytes).1 != Err(I.WakeFailed)
  {
    var receiver, e, slot, j, t, from := IT.TransferCases(k.ipc, sender, destination, source, requested, bytes);
    IT.TransferKeepsInv(k.ipc, sender, destination, source, requested, bytes);
    TransferErrors(k.ipc, sender, destination, source, requested, bytes);
    if I.Transfer(k.ipc, sender, destination, source, requested, bytes).1.Ok? {
      CommitSigs(k.ipc, sender, receiver, e, slot, from, requested, bytes);
      var (ipc, r) := I.Commit(k.ipc, sender, receiver, e, slot, from, requested, bytes);
      FinishSendJoint(k, ipc, e, r.value.0);
    }
  }

  lemma TransferErrors(s: I.State, sender: nat, destination: nat, source: nat, requested: I.Rights, bytes: seq<Byte>)
    requires I.CounterOk(s)
    ensures I.Transfer(s, sender, destination, source, requested, bytes).1.Err? ==>
              !I.Transfer(s, sender, destination, source, requested, bytes).1.error.WakeFailed?
  {
  }

  // ---- cancelling

  lemma SetWaitingSigs(s: I.State, id: nat, waiting: bool, e: nat)
    requires I.Find(s.endpoints, id) == Some(e)
    ensures var after := I.SetWaiting(s, id, waiting).0;
            && I.SetWaiting(s, id, waiting).1.Ok?
            && |after.endpoints| == |s.endpoints| && after.initialized == s.initialized
            && SigOf(after.endpoints[e]) == Sig(id, waiting, s.endpoints[e].queue == [])
            && Sigs(after.endpoints) == Sigs(s.endpoints)[e := SigOf(after.endpoints[e])]
  {
    SigsUpdate(s.endpoints, I.SetWaiting(s, id, waiting).0.endpoints, e);
  }

  /** Cancelling wakes the target exactly when it waits, and reports NotWaiting otherwise. */
  lemma CancelWaitJoint(k: Kernel, requester: nat, handle: nat)
    requires Joint(k)
    ensures Joint(CancelWait(k, requester, handle).0)
    ensures var resolved := I.Resolve(k.ipc, requester, handle, {I.Cancel}).1;
            resolved.Ok? ==>
              (CancelWait(k, requester, handle).1.Ok? <==>
               exists e :: 0 <= e < |k.ipc.endpoints| && k.ipc.endpoints[e].owner == resolved.value.target && k.ipc.endpoints[e].waiting)
  {
    IP.ResolveKeepsState(k.ipc, requester, handle, {I.Cancel});
    var resolved := I.Resolve(k.ipc, requester, handle, {I.Cancel}).1;
    CancelShape(k, requester, handle, resolved);
    if resolved.Ok? { CancelledJoint(k, resolved.value.target, I.Find(k.ipc.endpoints, resolved.value.target).value); }
  }

  /** What cancelling does once its handle is resolved. */
  ghost function Cancelled(k: Kernel, id: nat): (Kernel, Result<nat, I.IpcError>)
  {
    var (woken, ok) := WakeWaiter(k, id, ByCancel);
    if !ok then (woken, Err(I.NotWaiting))
    else
      match I.SetWaiting(woken.ipc, id, false)
      case (flagged, Err(e)) => (WithIpc(woken, flagged), Err(e))
      case (flagged, Ok(_)) => (WithIpc(woken, flagged), Ok(id))
  }

  lemma CancelShape(k: Kernel, requester: nat, handle: nat, resolved: Result<I.Capability, I.IpcError>)
    requires I.Resolve(k.ipc, requester, handle, {I.Cancel}) == (k.ipc, resolved)
    ensures CancelWait(k, requester, handle) == if resolved.Err? then (k, Err(resolved.error)) else Cancelled(k, resolved.value.target)
  {
    assert WithIpc(k, k.ipc) == k;
  }

  lemma CancelledJoint(k: Kernel, id: nat, e: nat)
    requires Joint(k) && id != 0 && I.Find(k.ipc.endpoints, id) == Some(e)
    ensures Joint(Cancelled(k, id).0)
    ensures Cancelled(k, id).1.Ok? <==> exists d :: 0 <= d < |k.ipc.endpoints| && k.ipc.endpoints[d].owner == id && k.ipc.endpoints[d].waiting
  {
    var i := TaskOf(k, e);
    assert forall d :: 0 <= d < |k.ipc.endpoints| && k.ipc.endpoints[d].owner == id ==> d == e;
    if k.tasks[i].state.Blocked? {
      var t := k.tasks[i].(state := Ready, waiting := false, deadline := 0, reason := ByCancel);
      SetWaitingSigs(k.ipc, id, false, e);
      IP.SetWaitingKeepsInv(k.ipc, id, false);
      WakeJoint(k, i, e, I.SetWaiting(k.ipc, id, false).0, t);
    }
  }

  // ---- timeouts

  /** The task waits with a deadline that `now` has reached. */
  predicate Due(t: Task, now: nat) { t.state.Blocked? && t.waiting && t.deadline != 0 && now >= t.deadline }

  /** What a tick makes of one slot: a waiter that is due gets ready with a timeout, everything else stays as it is. */
  function TimedOut(t: Task, now: nat): Task
  {
    if Due(t, now) then Task(t.id, Ready, t.root, t.resources, false, t.restart, 0, ByTimeout) else t
  }

  /** The wait flag of a task goes down exactly if it is due. */
  ghost predicate FlagsAfter(before: seq<I.Endpoint>, after: seq<I.Endpoint>, i: nat, t: Task, now: nat)
  {
    && |after| == |before|
    && forall e :: 0 <= e < |before| ==>
         after[e] == if Due(t, now) && before[e].owner == t.id then before[e].(waiting := false) else before[e]
  }

  lemma ExpireOneJoint(k: Kernel, i: nat, now: nat)
    requires Joint(k) && i < |k.tasks|
    ensures Joint(ExpireOne(k, i, now)) && ExpireOne(k, i, now).tasks == k.tasks[i := TimedOut(k.tasks[i], now)]
    ensures Later(k, ExpireOne(k, i, now))
    ensures FlagsAfter(k.ipc.endpoints, ExpireOne(k, i, now).ipc.endpoints, i, k.tasks[i], now)
  {
    if Due(k.tasks[i], now) {
      var e := EndpointOf(k, i);
      DueJoint(k, i, now, e);
      DueOther(k, i, now, e);
    } else {
      assert k.tasks[i := k.tasks[i]] == k.tasks;
    }
  }

  lemma DueJoint(k: Kernel, i: nat, now: nat, e: nat)
    requires Joint(k) && i < |k.tasks| && Due(k.tasks[i], now) && I.Find(k.ipc.endpoints, k.tasks[i].id) == Some(e)
    ensures S.Wake(k.sched, k.tasks[i].id).1 && I.SetWaiting(k.ipc, k.tasks[i].id, false).1.Ok?
    ensures Joint(Kernel(k.tasks[i := TimedOut(k.tasks[i], now)], k.nextId, S.Wake(k.sched, k.tasks[i].id).0, I.SetWaiting(k.ipc, k.tasks[i].id, false).0))
  {
    var id := k.tasks[i].id;
    SetWaitingSigs(k.ipc, id, false, e);
    IP.SetWaitingKeepsInv(k.ipc, id, false);
    WakeJoint(k, i, e, I.SetWaiting(k.ipc, id, false).0, TimedOut(k.tasks[i], now));
  }

  lemma DueOther(k: Kernel, i: nat, now: nat, e: nat)
    requires Joint(k) && i < |k.tasks| && Due(k.tasks[i], now) && I.Find(k.ipc.endpoints, k.tasks[i].id) == Some(e)
    ensures Later(k, Kernel(k.tasks, k.nextId, S.Wake(k.sched, k.tasks[i].id).0, k.ipc))
    ensures FlagsAfter(k.ipc.endpoints, I.SetWaiting(k.ipc, k.tasks[i].id, false).0.endpoints, i, k.tasks[i], now)
  {
    SL.WakeEffect(k.sched, k.tasks[i].id);
    assert forall d :: 0 <= d < |k.ipc.endpoints| && k.ipc.endpoints[d].owner == k.tasks[i].id ==> d == e;
  }

  /** Nobody who was ready lost its place, and the running task goes on. */
  ghost predicate Later(k: Kernel, after: Kernel)
  {
    && after.nextId == k.nextId && after.sched.current == k.sched.current && after.sched.slice == k.sched.slice
    && after.sched.ticks == k.sched.ticks && k.sched.queue <= after.sched.queue
  }

  lemma {:induction false} ExpireJoint(k: Kernel, now: nat, n: nat)
    requires Joint(k) && n <= |k.tasks|
    ensures Joint(Expire(k, now, n)) && Later(k, Expire(k, now, n))
    ensures forall j :: 0 <= j < n ==> Expire(k, now, n).tasks[j] == TimedOut(k.tasks[j], now)
    ensures forall j :: n <= j < |k.tasks| ==> Expire(k, now, n).tasks[j] == k.tasks[j]
  {
    if n > 0 {
      ExpireJoint(k, now, n - 1);
      var mid := Expire(k, now, n - 1);
      ExpireOneJoint(mid, n - 1, now);
      ExpireStep(k, mid, ExpireOne(mid, n - 1, now), n, now);
    }
  }

  lemma ExpireStep(k: Kernel, mid: Kernel, after: Kernel, n: nat, now: nat)
    requires 0 < n <= |k.tasks| == |mid.tasks| && after.tasks == mid.tasks[n - 1 := TimedOut(mid.tasks[n - 1], now)]
    requires forall j :: 0 <= j < n - 1 ==> mid.tasks[j] == TimedOut(k.tasks[j], now)
    requires forall j :: n - 1 <= j < |k.tasks| ==> mid.tasks[j] == k.tasks[j]
    requires Later(k, mid) && Later(mid, after)
    ensures Later(k, after)
    ensures forall j :: 0 <= j < n ==> after.tasks[j] == TimedOut(k.tasks[j], now)
    ensures forall j :: n <= j < |k.tasks| ==> after.tasks[j] == k.tasks[j]
  {
  }

  /**
   A tick times out exactly the tasks whose deadline has come, and leaves every other slot as it is:
   tasks that wait without a deadline or for a later one sleep on.
   */
  lemma TimerTickJoint(k: Kernel, now: nat)
    requires Joint(k)
    ensures Joint(TimerTick(k, now)) && |TimerTick(k, now).tasks| == |k.tasks|
    ensures forall j :: 0 <= j < |k.tasks| ==> TimerTick(k, now).tasks[j] == TimedOut(k.tasks[j], now)
    ensures forall j :: 0 <= j < |k.tasks| ==> !Due(TimerTick(k, now).tasks[j], now)
    ensures TimerTick(k, now).sched.ticks == k.sched.ticks + 1 && TimerTick(k, now).sched.current == k.sched.current
    ensures k.sched.queue <= TimerTick(k, now).sched.queue && TimerTick(k, now).nextId == k.nextId
  {
    var ticked := Kernel(k.tasks, k.nextId, S.Tick(k.sched), k.ipc);
    SL.StepKeepsInv(k.sched, SL.OpTick);
    assert Joint(ticked);
    ExpireJoint(ticked, now, |k.tasks|);
  }
}
