/** Creation, exit, blocking and preemption keep the joint invariant; hence every run does. */
module JointSteps {
  import opened Common
  import opened JointModel
  import opened JointLaws
  import opened JointMoves
  import opened JointProtocol
  import I = IpcModel
  import IInv = IpcInvariant
  import IP = IpcPreservation
  import IT = IpcTransfer
  import S = SchedModel
  import SL = SchedLaws

  // ---- one slot changes

  /** What a slot may hold next: a live task with its resources, or an exited one without. */
  predicate SlotOk(t: Task)
  {
    if IsLive(t) then t.resources && t.root != 0 && (t.waiting <==> t.state.Blocked?)
    else t.state.Exited? && !t.resources
  }

  lemma SlotUpdate(tasks: seq<Task>, nextId: nat, i: nat, t: Task)
    requires TasksOk(tasks, nextId) && i < |tasks| && SlotOk(t)
    requires !tasks[i].state.Empty? && t.id == tasks[i].id
    ensures TasksOk(tasks[i := t], nextId)
  {
  }

  // ---- creating a task

  lemma {:induction false} OwnersSize(sigs: seq<Sig>)
    requires OwnersDiffer(sigs) && forall e :: 0 <= e < |sigs| ==> sigs[e].owner != 0
    ensures |(set e | 0 <= e < |sigs| :: sigs[e].owner)| == |sigs|
  {
    if sigs != [] {
      var rest := sigs[..|sigs| - 1];
      OwnersSize(rest);
      assert (set e | 0 <= e < |sigs| :: sigs[e].owner) == (set e | 0 <= e < |rest| :: rest[e].owner) + {sigs[|sigs| - 1].owner};
    }
  }

  /** With a task slot free, an endpoint is free as well. */
  lemma FreeEndpoint(k: Kernel, i: nat)
    requires Joint(k) && i < |k.tasks| && !IsLive(k.tasks[i])
    ensures I.Find(k.ipc.endpoints, 0).Some? && I.Find(k.ipc.endpoints, k.nextId).None?
  {
    var sigs := Sigs(k.ipc.endpoints);
    NotLiveYet(k.tasks, k.nextId);
    assert forall e :: 0 <= e < |sigs| ==> sigs[e].owner == k.ipc.endpoints[e].owner;
    if I.Find(k.ipc.endpoints, 0).None? {
      SigsDiffer(k.ipc.endpoints);
      OwnersSize(sigs);
      RoomToSpawn(k.tasks, k.nextId, i);
      SubsetSize(set e | 0 <= e < |sigs| :: sigs[e].owner, LiveIds(k.tasks));
      assert false;
    }
  }

  lemma RegisterSigs(s: I.State, id: nat, e: nat)
    requires IInv.Inv(s) && s.initialized && id != 0 && I.Find(s.endpoints, id).None? && I.Find(s.endpoints, 0) == Some(e)
    ensures var (after, r) := I.Register(s, id);
            r.Ok? && after.initialized && Sigs(after.endpoints) == Sigs(s.endpoints)[e := Sig(id, false, true)]
  {
    var after := I.Register(s, id).0;
    AllocateKeepsFlag(s.(endpoints := s.endpoints[e := I.EmptyEndpoint(id)]));
    SigsUpdate(s.endpoints, after.endpoints, e);
  }

  /** Spawning fails only when every task slot holds a live task; it never runs out of endpoints. */
  lemma SpawnJoint(k: Kernel, root: nat)
    requires Joint(k) && root != 0
    ensures Joint(Spawn(k, root).0)
    ensures Spawn(k, root).1.None? <==> forall i :: 0 <= i < |k.tasks| ==> IsLive(k.tasks[i])
  {
    match FreeTask(k.tasks)
    case None =>
    case Some(i) =>
      var id := k.nextId;
      var t := Task(id, Ready, root, true, false, false, 0, NoReason);
      FreeEndpoint(k, i);
      var e := I.Find(k.ipc.endpoints, 0).value;
      RegisterSigs(k.ipc, id, e);
      var after := Kernel(k.tasks[i := t], id + 1, S.Enqueue(k.sched, id).0, I.Register(k.ipc, id).0);
      assert Spawn(k, root).0 == after;
      assert IInv.Inv(after.ipc) by { IP.RegisterKeepsInv(k.ipc, id); }
      assert SL.Inv(after.sched) && after.sched.initialized && SchedAgrees(after.tasks, after.sched) by {
        EnqueueSched(k.tasks, k.nextId, k.sched, i, t);
      }
      assert IpcAgrees(after.tasks, Sigs(after.ipc.endpoints)) by {
        IpcAdded(k.tasks, k.nextId, Sigs(k.ipc.endpoints), i, t, e);
      }
      assert TasksOk(after.tasks, after.nextId) by { SpawnedTasks(k.tasks, k.nextId, i, t); }
  }

  lemma SpawnedTasks(tasks: seq<Task>, nextId: nat, i: nat, t: Task)
    requires TasksOk(tasks, nextId) && i < |tasks| && nextId > 0
    requires t.id == nextId && t.state.Ready? && t.resources && t.root != 0 && !t.waiting
    ensures TasksOk(tasks[i := t], nextId + 1)
  {
  }

  // ---- running and exiting

  lemma MarkRunningJoint(k: Kernel, id: nat, i: nat)
    requires Joint(k) && k.sched.current == 0 && i < |k.tasks| && k.tasks[i].state.Ready? && k.tasks[i].id == id
    ensures Joint(MarkRunning(k, id))
  {
    FindLive(k.tasks, k.nextId, i);
    var t := k.tasks[i].(state := Running);
    var after := MarkRunning(k, id);
    assert after == Kernel(k.tasks[i := t], k.nextId, S.Begin(k.sched, id), k.ipc);
    assert SL.Inv(after.sched) && after.sched.initialized && SchedAgrees(after.tasks, after.sched) by {
      BeginSched(k.tasks, k.nextId, k.sched, i, t);
    }
    assert IpcAgrees(after.tasks, Sigs(after.ipc.endpoints)) by { SameSideIpc(k, i, t); }
    assert TasksOk(after.tasks, after.nextId) by { SlotUpdate(k.tasks, k.nextId, i, t); }
  }

  /** Ready and running tasks look the same from the IPC side. */
  lemma SameSideIpc(k: Kernel, i: nat, t: Task)
    requires Joint(k) && i < |k.tasks| && IsLive(k.tasks[i]) && IsLive(t) && t.id == k.tasks[i].id
    requires t.state.Blocked? <==> k.tasks[i].state.Blocked?
    ensures IpcAgrees(k.tasks[i := t], Sigs(k.ipc.endpoints))
  {
    var e := EndpointOf(k, i);
    var sigs := Sigs(k.ipc.endpoints);
    SigsDiffer(k.ipc.endpoints);
    IpcMoved(k.tasks, k.nextId, sigs, i, t, e, sigs[e]);
    assert sigs[e := sigs[e]] == sigs;
  }

  lemma UnregisterSigs(s: I.State, id: nat, e: nat)
    requires I.Find(s.endpoints, id) == Some(e)
    ensures var after := I.Unregister(s, id).0;
            after.initialized == s.initialized && Sigs(after.endpoints) == Sigs(s.endpoints)[e := Sig(0, false, true)]
  {
    var after := I.Unregister(s, id).0;
    var gens := I.Branches(s.endpoints, I.CleanupRoots(s.endpoints, e, id));
    forall d | 0 <= d < |s.endpoints| && d != e ensures SigOf(after.endpoints[d]) == SigOf(s.endpoints[d]) {
      EraseSig(s.endpoints[d], gens);
    }
    SigsUpdate(s.endpoints, after.endpoints, e);
  }

  /** A task's exit, in any state, takes it off the scheduler and its endpoint off IPC. */
  lemma ExitJoint(k: Kernel, id: nat)
    requires Joint(k)
    ensures Joint(Exit(k, id))
  {
    match FindTask(k.tasks, id)
    case None =>
    case Some(i) =>
      if IsLive(k.tasks[i]) { ExitLiveJoint(k, id, i); } else { ExitAgainJoint(k, id, i); }
  }

  lemma ExitLiveJoint(k: Kernel, id: nat, i: nat)
    requires Joint(k) && FindTask(k.tasks, id) == Some(i) && IsLive(k.tasks[i])
    ensures Joint(Exit(k, id))
  {
    var t := Task(id, Exited, k.tasks[i].root, false, false, false, 0, NoReason);
    SlotUpdate(k.tasks, k.nextId, i, t);
    ExitIpc(k, id, i, t);
    FinishSched(k.tasks, k.nextId, k.sched, i, t);
    Assemble(k.tasks[i := t], k.nextId, S.Finish(k.sched, id), I.Unregister(k.ipc, id).0);
  }

  lemma Assemble(tasks: seq<Task>, nextId: nat, sched: S.Sched, ipc: I.State)
    requires IInv.Inv(ipc) && ipc.initialized && SL.Inv(sched) && sched.initialized && TasksOk(tasks, nextId) && nextId > 0
    requires SchedAgrees(tasks, sched) && IpcAgrees(tasks, Sigs(ipc.endpoints))
    ensures Joint(Kernel(tasks, nextId, sched, ipc))
  {
  }

  lemma ExitIpc(k: Kernel, id: nat, i: nat, t: Task)
    requires Joint(k) && i < |k.tasks| && IsLive(k.tasks[i]) && k.tasks[i].id == id && !IsLive(t)
    ensures var ipc := I.Unregister(k.ipc, id).0;
            IInv.Inv(ipc) && ipc.initialized && IpcAgrees(k.tasks[i := t], Sigs(ipc.endpoints))
  {
    var e := EndpointOf(k, i);
    UnregisterSigs(k.ipc, id, e);
    IP.UnregisterKeepsInv(k.ipc, id);
    SigsDiffer(k.ipc.endpoints);
    IpcDropped(k.tasks, k.nextId, Sigs(k.ipc.endpoints), i, t, e);
  }

  /** Repeating the exit of a task that is already gone changes nothing that matters. */
  lemma ExitAgainJoint(k: Kernel, id: nat, i: nat)
    requires Joint(k) && FindTask(k.tasks, id) == Some(i) && !IsLive(k.tasks[i])
    ensures Joint(Exit(k, id))
  {
    var t := Task(id, Exited, k.tasks[i].root, false, false, false, 0, NoReason);
    var after := Exit(k, id);
    assert after.sched == k.sched by { NotScheduled(k, id, i); }
    assert after == Kernel(k.tasks[i := t], k.nextId, k.sched, k.ipc);
    assert TasksOk(after.tasks, after.nextId) by { SlotUpdate(k.tasks, k.nextId, i, t); }
    GoneSlot(k, i, t);
  }

  lemma NotScheduled(k: Kernel, id: nat, i: nat)
    requires Joint(k) && i < |k.tasks| && k.tasks[i].state.Exited? && k.tasks[i].id == id
    ensures S.Finish(k.sched, id) == k.sched
  {
    assert id !in LiveIds(k.tasks);
    assert forall x :: 0 <= x < |k.sched.queue| ==> k.sched.queue[x].task != id;
    assert S.IndexOf(k.sched.queue, id).None?;
  }

  lemma GoneSlot(k: Kernel, i: nat, t: Task)
    requires Joint(k) && i < |k.tasks| && !IsLive(k.tasks[i]) && !IsLive(t)
    ensures SchedAgrees(k.tasks[i := t], k.sched) && IpcAgrees(k.tasks[i := t], Sigs(k.ipc.endpoints))
  {
    var now := k.tasks[i := t];
    SameLive(k.tasks, now);
    forall m | 0 <= m < |now| && IsLive(now[m]) ensures now[m] == k.tasks[m] && IsLive(k.tasks[m]) {}
  }

  lemma SameLive(tasks: seq<Task>, now: seq<Task>)
    requires |tasks| == |now|
    requires forall j :: 0 <= j < |now| ==> (IsLive(now[j]) <==> IsLive(tasks[j])) && (IsLive(now[j]) ==> now[j].id == tasks[j].id)
    ensures LiveIds(now) == LiveIds(tasks)
  {
    forall x | x in LiveIds(tasks) ensures x in LiveIds(now) {
      var j :| 0 <= j < |tasks| && IsLive(tasks[j]) && tasks[j].id == x;
      assert IsLive(now[j]) && now[j].id == x;
    }
  }

  /** Flags that the protocol does not compare may change freely. */
  lemma TouchJoint(k: Kernel, i: nat, t: Task)
    requires Joint(k) && i < |k.tasks|
    requires t.(restart := k.tasks[i].restart, deadline := k.tasks[i].deadline, reason := k.tasks[i].reason) == k.tasks[i]
    ensures Joint(SetTask(k, i, t))
  {
    SameLive(k.tasks, k.tasks[i := t]);
    assert SetTask(k, i, t) == Kernel(k.tasks[i := t], k.nextId, k.sched, k.ipc);
    TouchIpc(k.tasks, Sigs(k.ipc.endpoints), i, t);
  }

  lemma TouchIpc(tasks: seq<Task>, sigs: seq<Sig>, i: nat, t: Task)
    requires IpcAgrees(tasks, sigs) && i < |tasks| && LiveIds(tasks[i := t]) == LiveIds(tasks)
    requires t.state == tasks[i].state && t.id == tasks[i].id
    ensures IpcAgrees(tasks[i := t], sigs)
  {
    var now := tasks[i := t];
    forall m | 0 <= m < |now| && IsLive(now[m]) ensures exists d :: 0 <= d < |sigs| && sigs[d].owner == now[m].id {
      assert IsLive(tasks[m]) && tasks[m].id == now[m].id;
    }
    forall m, d | 0 <= m < |now| && 0 <= d < |sigs| && IsLive(now[m]) && sigs[d].owner == now[m].id
      ensures sigs[d].waiting <==> now[m].state.Blocked?
    {
      assert IsLive(tasks[m]) && tasks[m].id == now[m].id && tasks[m].state == now[m].state;
    }
  }

  lemma WakeReasonJoint(k: Kernel, id: nat)
    requires Joint(k)
    ensures Joint(TakeReason(k, id)) && Joint(CompleteRestart(k, id))
  {
    match FindTask(k.tasks, id)
    case None =>
    case Some(i) =>
      var t := k.tasks[i];
      TouchJoint(k, i, t.(reason := NoReason, restart := if t.reason.ByTimeout? || t.reason.ByCancel? then false else t.restart));
      TouchJoint(k, i, t.(restart := false, deadline := 0, reason := NoReason));
  }
}
