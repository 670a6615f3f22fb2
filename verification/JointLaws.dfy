/**
 The three records of "blocked" always agree: the endpoint's wait flag, the task's state and the
 scheduler's blocked list. Hence wake-ups never fail and no task sleeps past its deadline.
 */
module JointLaws {
  import opened Common
  import opened JointModel
  import I = IpcModel
  import IInv = IpcInvariant
  import IP = IpcPreservation
  import IT = IpcTransfer
  import S = SchedModel
  import SL = SchedLaws

  // ---- what the protocol sees of the IPC state

  /** Owner, wait flag, and whether the queue is empty. */
  datatype Sig = Sig(owner: nat, waiting: bool, idle: bool)

  function SigOf(e: I.Endpoint): Sig { Sig(e.owner, e.waiting, e.queue == []) }

  function Sigs(eps: seq<I.Endpoint>): seq<Sig>
  {
    seq(|eps|, i requires 0 <= i < |eps| => SigOf(eps[i]))
  }

  ghost function LiveIds(tasks: seq<Task>): set<nat>
  {
    set i | 0 <= i < |tasks| && IsLive(tasks[i]) :: tasks[i].id
  }

  // ---- the joint invariant

  ghost predicate TasksOk(tasks: seq<Task>, nextId: nat)
  {
    && |tasks| == MAX_TASKS
    && (forall i :: 0 <= i < |tasks| && !tasks[i].state.Empty? ==> 0 < tasks[i].id < nextId)
    && (forall i, j :: 0 <= i < j < |tasks| && !tasks[i].state.Empty? && !tasks[j].state.Empty? ==> tasks[i].id != tasks[j].id)
    && (forall i :: 0 <= i < |tasks| && IsLive(tasks[i]) ==> tasks[i].resources && tasks[i].root != 0)
    && (forall i :: 0 <= i < |tasks| && IsLive(tasks[i]) ==> (tasks[i].waiting <==> tasks[i].state.Blocked?))
    && (forall i :: 0 <= i < |tasks| && tasks[i].state.Exited? ==> !tasks[i].resources)
  }

  /** Each live task is where its state says. */
  ghost predicate Places(tasks: seq<Task>, s: S.Sched)
  {
    forall i :: 0 <= i < |tasks| && IsLive(tasks[i]) ==>
      && (tasks[i].state.Running? <==> s.current == tasks[i].id)
      && (tasks[i].state.Ready? <==> S.Queued(s.queue, tasks[i].id))
      && (tasks[i].state.Blocked? <==> tasks[i].id in s.blocked)
  }

  /** The scheduler holds no other tasks than these. */
  ghost predicate Members(ids: set<nat>, s: S.Sched)
  {
    && (s.current != 0 ==> s.current in ids)
    && (forall k :: 0 <= k < |s.queue| ==> s.queue[k].task in ids)
    && (forall id :: id in s.blocked ==> id in ids)
  }

  ghost predicate SchedAgrees(tasks: seq<Task>, s: S.Sched)
  {
    Places(tasks, s) && Members(LiveIds(tasks), s)
  }

  /** Every live task has an endpoint that waits exactly when the task is blocked, and no one else. */
  ghost predicate IpcAgrees(tasks: seq<Task>, sigs: seq<Sig>)
  {
    && (forall i :: 0 <= i < |tasks| && IsLive(tasks[i]) ==>
          exists e :: 0 <= e < |sigs| && sigs[e].owner == tasks[i].id)
    && (forall i, e :: 0 <= i < |tasks| && 0 <= e < |sigs| && IsLive(tasks[i]) && sigs[e].owner == tasks[i].id ==>
          (sigs[e].waiting <==> tasks[i].state.Blocked?))
    && (forall e :: 0 <= e < |sigs| && sigs[e].owner != 0 ==> sigs[e].owner in LiveIds(tasks))
    && (forall e :: 0 <= e < |sigs| && sigs[e].waiting ==> sigs[e].idle)
  }

  ghost predicate Joint(k: Kernel)
  {
    && IInv.Inv(k.ipc) && k.ipc.initialized
    && SL.Inv(k.sched) && k.sched.initialized
    && TasksOk(k.tasks, k.nextId) && k.nextId > 0
    && SchedAgrees(k.tasks, k.sched)
    && IpcAgrees(k.tasks, Sigs(k.ipc.endpoints))
  }

  lemma StartJoint()
    ensures Joint(Start())
  {
    IInv.BootInv(true);
    var k := Start();
    assert LiveIds(k.tasks) == {};
    assert forall e :: 0 <= e < |Sigs(k.ipc.endpoints)| ==> Sigs(k.ipc.endpoints)[e] == Sig(0, false, true);
  }

  // ---- pigeonhole

  lemma {:induction false} DistinctSize(q: seq<S.Entry>)
    requires forall k, l :: 0 <= k < l < |q| ==> q[k].task != q[l].task
    ensures |(set k | 0 <= k < |q| :: q[k].task)| == |q|
  {
    if q != [] {
      var rest := q[..|q| - 1];
      DistinctSize(rest);
      assert (set k | 0 <= k < |q| :: q[k].task) == (set k | 0 <= k < |rest| :: rest[k].task) + {q[|q| - 1].task};
    }
  }

  lemma LiveIdsBound(tasks: seq<Task>)
    ensures |LiveIds(tasks)| <= |tasks|
  {
    var ids := seq(|tasks|, i requires 0 <= i < |tasks| => tasks[i].id);
    ElementsBound(ids);
    forall x | x in LiveIds(tasks) ensures x in Elements(ids) {
      var i :| 0 <= i < |tasks| && IsLive(tasks[i]) && tasks[i].id == x;
      assert ids[i] == x;
    }
    SubsetSize(LiveIds(tasks), Elements(ids));
  }

  /** With a blocked task among the live ones, the ready queue cannot be full. */
  lemma RoomToWake(tasks: seq<Task>, s: S.Sched, id: nat)
    requires |tasks| == MAX_TASKS && SL.Inv(s) && SchedAgrees(tasks, s)
    requires id in LiveIds(tasks) && !S.Queued(s.queue, id)
    ensures |s.queue| < S.QUEUE_CAPACITY
  {
    var queued := set k | 0 <= k < |s.queue| :: s.queue[k].task;
    DistinctSize(s.queue);
    LiveIdsBound(tasks);
    assert id !in queued;
    SubsetSize(queued + {id}, LiveIds(tasks));
  }

  lemma {:induction false} DistinctBlockedSize(b: seq<nat>)
    requires forall k, l :: 0 <= k < l < |b| ==> b[k] != b[l]
    ensures |Elements(b)| == |b|
  {
    if b != [] {
      DistinctBlockedSize(b[..|b| - 1]);
      assert Elements(b) == Elements(b[..|b| - 1]) + {b[|b| - 1]};
    }
  }

  /** With a task that is not blocked among the live ones, the blocked list cannot be full. */
  lemma RoomToBlock(tasks: seq<Task>, s: S.Sched, id: nat)
    requires |tasks| == MAX_TASKS && SL.Inv(s) && SchedAgrees(tasks, s)
    requires id in LiveIds(tasks) && id !in s.blocked
    ensures |s.blocked| < S.QUEUE_CAPACITY
  {
    DistinctBlockedSize(s.blocked);
    LiveIdsBound(tasks);
    SubsetSize(Elements(s.blocked) + {id}, LiveIds(tasks));
  }

  // ---- finding things

  lemma FindLive(tasks: seq<Task>, nextId: nat, i: nat)
    requires TasksOk(tasks, nextId) && i < |tasks| && !tasks[i].state.Empty?
    ensures FindTask(tasks, tasks[i].id) == Some(i)
  {
  }

  lemma EndpointOf(k: Kernel, i: nat) returns (e: nat)
    requires Joint(k) && i < |k.tasks| && IsLive(k.tasks[i])
    ensures I.Find(k.ipc.endpoints, k.tasks[i].id) == Some(e) && e < |k.ipc.endpoints|
    ensures k.ipc.endpoints[e].waiting <==> k.tasks[i].state.Blocked?
  {
    var sigs := Sigs(k.ipc.endpoints);
    var x :| 0 <= x < |sigs| && sigs[x].owner == k.tasks[i].id;
    e := I.Find(k.ipc.endpoints, k.tasks[i].id).value;
    assert sigs[e].owner == k.tasks[i].id;
  }

  /** The owner of a registered endpoint is a live task. */
  lemma TaskOf(k: Kernel, e: nat) returns (i: nat)
    requires Joint(k) && e < |k.ipc.endpoints| && k.ipc.endpoints[e].owner != 0
    ensures i < |k.tasks| && IsLive(k.tasks[i]) && k.tasks[i].id == k.ipc.endpoints[e].owner
    ensures FindTask(k.tasks, k.ipc.endpoints[e].owner) == Some(i)
    ensures k.ipc.endpoints[e].waiting <==> k.tasks[i].state.Blocked?
    ensures k.ipc.endpoints[e].waiting ==> k.ipc.endpoints[e].queue == []
  {
    var sigs := Sigs(k.ipc.endpoints);
    assert sigs[e].owner in LiveIds(k.tasks);
    var x :| 0 <= x < |k.tasks| && IsLive(k.tasks[x]) && k.tasks[x].id == sigs[e].owner;
    i := x;
    FindLive(k.tasks, k.nextId, i);
  }
}
