/** How each move of a task keeps the scheduler and the IPC records in step with its state. */
module JointMoves {
  import opened Common
  import opened JointModel
  import opened JointLaws
  import I = IpcModel
  import IInv = IpcInvariant
  import IP = IpcPreservation
  import S = SchedModel
  import SL = SchedLaws

  // ---- task table updates

  lemma LiveIdsSame(tasks: seq<Task>, i: nat, t: Task)
    requires i < |tasks| && IsLive(tasks[i]) && IsLive(t) && t.id == tasks[i].id
    ensures LiveIds(tasks[i := t]) == LiveIds(tasks)
  {
    var after := tasks[i := t];
    forall x | x in LiveIds(tasks) ensures x in LiveIds(after) {
      var j :| 0 <= j < |tasks| && IsLive(tasks[j]) && tasks[j].id == x;
      assert IsLive(after[j]) && after[j].id == x;
    }
    forall x | x in LiveIds(after) ensures x in LiveIds(tasks) {
      var j :| 0 <= j < |after| && IsLive(after[j]) && after[j].id == x;
      assert IsLive(tasks[j]) && tasks[j].id == x;
    }
  }

  lemma LiveIdsAdd(tasks: seq<Task>, i: nat, t: Task)
    requires i < |tasks| && !IsLive(tasks[i]) && IsLive(t)
    ensures LiveIds(tasks[i := t]) == LiveIds(tasks) + {t.id}
  {
    var after := tasks[i := t];
    assert IsLive(after[i]);
    forall x | x in LiveIds(tasks) ensures x in LiveIds(after) {
      var j :| 0 <= j < |tasks| && IsLive(tasks[j]) && tasks[j].id == x;
      assert IsLive(after[j]) && after[j].id == x;
    }
    forall x | x in LiveIds(after) ensures x in LiveIds(tasks) + {t.id} {
      var j :| 0 <= j < |after| && IsLive(after[j]) && after[j].id == x;
      if j != i { assert IsLive(tasks[j]) && tasks[j].id == x; }
    }
  }

  lemma LiveIdsDrop(tasks: seq<Task>, nextId: nat, i: nat, t: Task)
    requires TasksOk(tasks, nextId) && i < |tasks| && IsLive(tasks[i]) && !IsLive(t)
    ensures LiveIds(tasks[i := t]) == LiveIds(tasks) - {tasks[i].id}
  {
    var after := tasks[i := t];
    LiveIdsAdd(after, i, tasks[i]);
    assert after[i := tasks[i]] == tasks;
    assert forall j :: 0 <= j < |after| && IsLive(after[j]) ==> after[j].id != tasks[i].id;
  }

  // ---- waking

  lemma WakeSched(tasks: seq<Task>, nextId: nat, s: S.Sched, i: nat, t: Task)
    requires TasksOk(tasks, nextId) && SL.Inv(s) && SchedAgrees(tasks, s)
    requires i < |tasks| && tasks[i].state.Blocked? && t.state.Ready? && t.id == tasks[i].id
    ensures S.Wake(s, t.id).1
    ensures SL.Inv(S.Wake(s, t.id).0) && SchedAgrees(tasks[i := t], S.Wake(s, t.id).0)
    ensures S.Wake(s, t.id).0.initialized == s.initialized
  {
    var id := t.id;
    assert id in LiveIds(tasks);
    RoomToWake(tasks, s, id);
    SL.WakeEffect(s, id);
    SL.WakeKeepsInv(s, id);
    SL.RemoveBlockedIdKeeps(s.blocked, id);
    LiveIdsSame(tasks, i, t);
    var after := S.Wake(s, id).0;
    assert after.queue == s.queue + [S.Entry(id, s.ticks)];
    assert S.Queued(after.queue, id) by { assert after.queue[|s.queue|].task == id; }
    forall x | x != id ensures S.Queued(after.queue, x) <==> S.Queued(s.queue, x) { QueuedAppend(s.queue, id, s.ticks, x); }
    MovedPlaces(tasks, nextId, s, after, i, t);
  }

  lemma QueuedAppend(q: seq<S.Entry>, id: nat, since: nat, x: nat)
    ensures S.Queued(q + [S.Entry(id, since)], x) <==> S.Queued(q, x) || x == id
  {
    var r := q + [S.Entry(id, since)];
    if S.Queued(q, x) {
      var k :| 0 <= k < |q| && q[k].task == x;
      assert r[k].task == x;
    }
    assert r[|q|].task == id;
  }

  // ---- blocking

  lemma BlockSched(tasks: seq<Task>, nextId: nat, s: S.Sched, i: nat, t: Task)
    requires TasksOk(tasks, nextId) && SL.Inv(s) && SchedAgrees(tasks, s)
    requires i < |tasks| && (tasks[i].state.Ready? || tasks[i].state.Running?) && t.state.Blocked? && t.id == tasks[i].id
    ensures S.Block(s, t.id).1
    ensures SL.Inv(S.Block(s, t.id).0) && SchedAgrees(tasks[i := t], S.Block(s, t.id).0)
    ensures S.Block(s, t.id).0.initialized == s.initialized
  {
    var id := t.id;
    assert id in LiveIds(tasks);
    RoomToBlock(tasks, s, id);
    SL.BlockKeepsInv(s, id);
    LiveIdsSame(tasks, i, t);
    BlockedPlaces(s, id);
    MovedPlaces(tasks, nextId, s, S.Block(s, id).0, i, t);
    BlockedMembers(LiveIds(tasks), s, id);
  }

  /** Blocking a known task moves it, and only it, to the blocked list. */
  lemma BlockedPlaces(s: S.Sched, id: nat)
    requires SL.Inv(s) && id != 0 && id !in s.blocked && |s.blocked| < S.QUEUE_CAPACITY
    requires s.current == id || S.Queued(s.queue, id)
    ensures var (after, ok) := S.Block(s, id);
            && ok && after.initialized == s.initialized && after.current != id && after.blocked == s.blocked + [id]
            && (after.current == s.current || (s.current == id && after.current == 0))
            && (forall x :: S.Queued(after.queue, x) <==> S.Queued(s.queue, x) && x != id)
  {
    if s.current != id {
      var x :| 0 <= x < |s.queue| && s.queue[x].task == id;
      var f := S.IndexOf(s.queue, id);
      SL.RemoveAtKeeps(s.queue, s.ticks, f.value);
      forall x | x != id ensures S.Queued(S.RemoveAt(s.queue, f.value), x) <==> S.Queued(s.queue, x) {
        QueuedRemove(s.queue, f.value, x);
      }
    }
  }

  lemma BlockedMembers(ids: set<nat>, s: S.Sched, id: nat)
    requires SL.Inv(s) && Members(ids, s) && id in ids
    ensures Members(ids, S.Block(s, id).0)
  {
    var f := S.IndexOf(s.queue, id);
    if f.Some? {
      var q := S.RemoveAt(s.queue, f.value);
      SL.RemoveAtKeeps(s.queue, s.ticks, f.value);
      forall k | 0 <= k < |q| ensures q[k].task in ids { assert q[k] in s.queue; }
    }
  }

  /** One task moves to where its new state says and everyone else stays put. */
  lemma MovedPlaces(tasks: seq<Task>, nextId: nat, s: S.Sched, after: S.Sched, i: nat, t: Task)
    requires TasksOk(tasks, nextId) && Places(tasks, s)
    requires i < |tasks| && IsLive(tasks[i]) && IsLive(t) && t.id == tasks[i].id
    requires forall x :: x != t.id ==> (S.Queued(after.queue, x) <==> S.Queued(s.queue, x))
    requires forall x :: x != t.id ==> (x in after.blocked <==> x in s.blocked)
    requires after.current == s.current || (after.current in {0, t.id} && s.current in {0, t.id})
    requires t.state.Running? <==> after.current == t.id
    requires t.state.Ready? <==> S.Queued(after.queue, t.id)
    requires t.state.Blocked? <==> t.id in after.blocked
    ensures Places(tasks[i := t], after)
  {
    var now := tasks[i := t];
    forall m | 0 <= m < |now| && IsLive(now[m])
      ensures now[m].state.Running? <==> after.current == now[m].id
      ensures now[m].state.Ready? <==> S.Queued(after.queue, now[m].id)
      ensures now[m].state.Blocked? <==> now[m].id in after.blocked
    {
      if m != i { assert now[m] == tasks[m] && now[m].id != t.id; }
    }
  }

  lemma QueuedRemove(q: seq<S.Entry>, k: nat, x: nat)
    requires k < |q| && q[k].task != x
    ensures S.Queued(S.RemoveAt(q, k), x) <==> S.Queued(q, x)
  {
    var r := S.RemoveAt(q, k);
    if S.Queued(q, x) {
      var j :| 0 <= j < |q| && q[j].task == x;
      if j < k { assert r[j].task == x; } else { assert r[j - 1].task == x; }
    }
    if S.Queued(r, x) {
      var j :| 0 <= j < |r| && r[j].task == x;
      if j < k { assert q[j].task == x; } else { assert q[j + 1].task == x; }
    }
  }

  /** The running task blocks and the head of the queue runs: both states change together. */
  lemma DispatchSched(tasks: seq<Task>, nextId: nat, s: S.Sched, i: nat, j: nat, t: Task, u: Task)
    requires TasksOk(tasks, nextId) && SL.Inv(s) && s.initialized && SchedAgrees(tasks, s)
    requires i < |tasks| && j < |tasks| && i != j && tasks[i].state.Running? && t.state.Blocked? && t.id == tasks[i].id
    requires s.queue != [] && tasks[j].id == s.queue[0].task && tasks[j].state.Ready? && u.state.Running? && u.id == tasks[j].id
    ensures S.BlockAndDispatch(s, t.id).1.switched && S.BlockAndDispatch(s, t.id).1.previous == t.id
    ensures S.BlockAndDispatch(s, t.id).1.next == u.id
    ensures var after := S.BlockAndDispatch(s, t.id).0;
            SL.Inv(after) && after.initialized && SchedAgrees(tasks[i := t][j := u], after)
  {
    assert t.id in LiveIds(tasks);
    RoomToBlock(tasks, s, t.id);
    SL.DispatchTakesHead(s);
    SL.DispatchedInv(s);
    var after := S.BlockAndDispatch(s, t.id).0;
    LiveIdsSame(tasks, i, t);
    LiveIdsSame(tasks[i := t], j, u);
    HeadRemoved(s.queue, s.ticks);
    assert Members(LiveIds(tasks), after);
    SwappedPlaces(tasks, nextId, s, after, i, j, t, u);
  }

  /** Two tasks change places and everyone else stays put. */
  lemma SwappedPlaces(tasks: seq<Task>, nextId: nat, s: S.Sched, after: S.Sched, i: nat, j: nat, t: Task, u: Task)
    requires TasksOk(tasks, nextId) && Places(tasks, s) && s.current != 0
    requires i < |tasks| && j < |tasks| && i != j && tasks[i].state.Running? && t.id == tasks[i].id && !t.state.Running?
    requires IsLive(t) && IsLive(tasks[j]) && tasks[j].state.Ready? && u.state.Running? && u.id == tasks[j].id
    requires after.current == u.id
    requires forall x :: S.Queued(after.queue, x) <==> (S.Queued(s.queue, x) && x != u.id) || (x == t.id && t.state.Ready?)
    requires forall x :: x in after.blocked <==> x in s.blocked || (x == t.id && t.state.Blocked?)
    ensures Places(tasks[i := t][j := u], after)
  {
    var now := tasks[i := t][j := u];
    forall m | 0 <= m < |now| && IsLive(now[m])
      ensures now[m].state.Running? <==> after.current == now[m].id
      ensures now[m].state.Ready? <==> S.Queued(after.queue, now[m].id)
      ensures now[m].state.Blocked? <==> now[m].id in after.blocked
    {
      assert IsLive(tasks[m]) && now[m].id == tasks[m].id;
      if m != i && m != j { assert now[m].id != t.id && now[m].id != u.id; }
    }
  }

  lemma HeadRemoved(q: seq<S.Entry>, ticks: nat)
    requires SL.QueueOk(q, ticks) && q != []
    ensures forall x :: S.Queued(q[1..], x) <==> S.Queued(q, x) && x != q[0].task
    ensures forall k :: 0 <= k < |q[1..]| ==> q[1..][k] == q[k + 1]
  {
    SL.RemoveAtKeeps(q, ticks, 0);
    assert S.RemoveAt(q, 0) == q[1..];
    forall x | x != q[0].task ensures S.Queued(q[1..], x) <==> S.Queued(q, x) { QueuedRemove(q, 0, x); }
  }

  /** Preemption: the running task becomes ready and the head of the queue runs. */
  lemma RotateSched(tasks: seq<Task>, nextId: nat, s: S.Sched, i: nat, j: nat, t: Task, u: Task)
    requires TasksOk(tasks, nextId) && SL.Inv(s) && s.initialized && SchedAgrees(tasks, s)
    requires i < |tasks| && j < |tasks| && i != j && tasks[i].state.Running? && t.state.Ready? && t.id == tasks[i].id
    requires s.queue != [] && s.slice >= s.quantum
    requires tasks[j].id == s.queue[0].task && tasks[j].state.Ready? && u.state.Running? && u.id == tasks[j].id
    ensures var (after, d) := S.Preempt(s);
            && d.switched && d.previous == t.id && d.next == u.id
            && SL.Inv(after) && after.initialized && SchedAgrees(tasks[i := t][j := u], after)
  {
    SL.PreemptRotates(s);
    SL.RotatedInv(s);
    var after := S.Preempt(s).0;
    LiveIdsSame(tasks, i, t);
    LiveIdsSame(tasks[i := t], j, u);
    HeadRemoved(s.queue, s.ticks);
    forall x ensures S.Queued(after.queue, x) <==> S.Queued(s.queue[1..], x) || x == t.id {
      QueuedAppend(s.queue[1..], t.id, s.ticks, x);
    }
    assert t.id in LiveIds(tasks);
    assert Members(LiveIds(tasks), after);
    SwappedPlaces(tasks, nextId, s, after, i, j, t, u);
  }

  // ---- starting, creating, finishing

  lemma BeginSched(tasks: seq<Task>, nextId: nat, s: S.Sched, i: nat, t: Task)
    requires TasksOk(tasks, nextId) && SL.Inv(s) && SchedAgrees(tasks, s) && s.current == 0
    requires i < |tasks| && tasks[i].state.Ready? && t.state.Running? && t.id == tasks[i].id
    ensures SL.Inv(S.Begin(s, t.id)) && SchedAgrees(tasks[i := t], S.Begin(s, t.id))
    ensures S.Begin(s, t.id).initialized == s.initialized
  {
    SL.BeginKeepsInv(s, t.id);
    LiveIdsSame(tasks, i, t);
    Withdrawn(s, t.id);
  }

  lemma FinishSched(tasks: seq<Task>, nextId: nat, s: S.Sched, i: nat, t: Task)
    requires TasksOk(tasks, nextId) && SL.Inv(s) && SchedAgrees(tasks, s)
    requires i < |tasks| && IsLive(tasks[i]) && t.state.Exited?
    ensures SL.Inv(S.Finish(s, tasks[i].id)) && SchedAgrees(tasks[i := t], S.Finish(s, tasks[i].id))
    ensures S.Finish(s, tasks[i].id).initialized == s.initialized
  {
    var id := tasks[i].id;
    SL.BeginKeepsInv(s, id);
    LiveIdsDrop(tasks, nextId, i, t);
    Withdrawn(s, id);
    FinishedPlaces(tasks, nextId, s, i, t);
    FinishedMembers(LiveIds(tasks), s, id);
  }

  lemma FinishedMembers(ids: set<nat>, s: S.Sched, id: nat)
    requires SL.Inv(s) && Members(ids, s)
    ensures Members(ids - {id}, S.Finish(s, id))
  {
    Withdrawn(s, id);
    var after := S.Finish(s, id);
    forall k | 0 <= k < |after.queue| ensures after.queue[k].task in ids - {id} {
      var x :| 0 <= x < |s.queue| && s.queue[x].task == after.queue[k].task;
    }
  }

  lemma FinishedPlaces(tasks: seq<Task>, nextId: nat, s: S.Sched, i: nat, t: Task)
    requires TasksOk(tasks, nextId) && SL.Inv(s) && Places(tasks, s)
    requires i < |tasks| && IsLive(tasks[i]) && t.state.Exited?
    ensures Places(tasks[i := t], S.Finish(s, tasks[i].id))
  {
    var (now, after) := (tasks[i := t], S.Finish(s, tasks[i].id));
    Withdrawn(s, tasks[i].id);
    forall m | 0 <= m < |now| && IsLive(now[m])
      ensures now[m].state.Running? <==> after.current == now[m].id
      ensures now[m].state.Ready? <==> S.Queued(after.queue, now[m].id)
      ensures now[m].state.Blocked? <==> now[m].id in after.blocked
    {
      assert m != i && now[m] == tasks[m] && now[m].id != tasks[i].id;
    }
  }

  /** Without `id`, the queue and the blocked list hold what they held before. */
  lemma Withdrawn(s: S.Sched, id: nat)
    requires SL.Inv(s)
    ensures var q := S.Remove(s.queue, id).0;
            && (forall x :: S.Queued(q, x) <==> S.Queued(s.queue, x) && x != id)
            && (forall k :: 0 <= k < |q| ==> S.Queued(s.queue, q[k].task) && q[k].task != id)
    ensures forall x :: x in S.RemoveBlocked(s.blocked, id).0 <==> x in s.blocked && x != id
  {
    SL.RemoveKeeps(s.queue, s.ticks, id);
    SL.RemoveBlockedIdKeeps(s.blocked, id);
    var f := S.IndexOf(s.queue, id);
    var q := S.Remove(s.queue, id).0;
    forall x | x != id ensures S.Queued(q, x) <==> S.Queued(s.queue, x) {
      if f.Some? { QueuedRemove(s.queue, f.value, x); }
    }
    forall k | 0 <= k < |q| ensures S.Queued(s.queue, q[k].task) && q[k].task != id { assert q[k] in q; }
  }

  lemma EnqueueSched(tasks: seq<Task>, nextId: nat, s: S.Sched, i: nat, t: Task)
    requires TasksOk(tasks, nextId) && SL.Inv(s) && SchedAgrees(tasks, s)
    requires i < |tasks| && !IsLive(tasks[i]) && t.state.Ready? && t.id == nextId > 0
    ensures S.Enqueue(s, t.id).1
    ensures SL.Inv(S.Enqueue(s, t.id).0) && SchedAgrees(tasks[i := t], S.Enqueue(s, t.id).0)
    ensures S.Enqueue(s, t.id).0.initialized == s.initialized
  {
    EnqueueNew(tasks, nextId, s, i);
    LiveIdsAdd(tasks, i, t);
    SL.EnqueueKeepsInv(s, t.id);
    var after := S.Enqueue(s, t.id).0;
    forall x ensures S.Queued(after.queue, x) <==> S.Queued(s.queue, x) || x == t.id {
      QueuedAppend(s.queue, t.id, s.ticks, x);
    }
    var now := tasks[i := t];
    forall m | 0 <= m < |now| && IsLive(now[m])
      ensures now[m].state.Running? <==> after.current == now[m].id
      ensures now[m].state.Ready? <==> S.Queued(after.queue, now[m].id)
      ensures now[m].state.Blocked? <==> now[m].id in after.blocked
    {
      if m != i { assert now[m] == tasks[m] && now[m].id != t.id; }
    }
  }

  /** A task id never used before finds room in the ready queue. */
  lemma EnqueueNew(tasks: seq<Task>, nextId: nat, s: S.Sched, i: nat)
    requires TasksOk(tasks, nextId) && SL.Inv(s) && SchedAgrees(tasks, s)
    requires i < |tasks| && !IsLive(tasks[i]) && nextId > 0
    ensures S.Enqueue(s, nextId) == (s.(queue := s.queue + [S.Entry(nextId, s.ticks)]), true)
    ensures nextId !in s.blocked && s.current != nextId && !S.Queued(s.queue, nextId)
  {
    NotLiveYet(tasks, nextId);
    RoomToSpawn(tasks, nextId, i);
    var queued := set k | 0 <= k < |s.queue| :: s.queue[k].task;
    DistinctSize(s.queue);
    SubsetSize(queued, LiveIds(tasks));
    assert S.IndexOf(s.queue, nextId).None?;
  }

  lemma NotLiveYet(tasks: seq<Task>, nextId: nat)
    requires TasksOk(tasks, nextId)
    ensures nextId !in LiveIds(tasks) && 0 !in LiveIds(tasks)
  {
  }

  /** With a slot free, fewer than eight tasks are live. */
  lemma RoomToSpawn(tasks: seq<Task>, nextId: nat, i: nat)
    requires TasksOk(tasks, nextId) && i < |tasks| && !IsLive(tasks[i])
    ensures |LiveIds(tasks)| < MAX_TASKS
  {
    var others := tasks[..i] + tasks[i + 1..];
    LiveIdsBound(others);
    forall x | x in LiveIds(tasks) ensures x in LiveIds(others) {
      var j :| 0 <= j < |tasks| && IsLive(tasks[j]) && tasks[j].id == x;
      if j < i { assert others[j] == tasks[j]; } else { assert others[j - 1] == tasks[j]; }
    }
    SubsetSize(LiveIds(tasks), LiveIds(others));
  }

  // ---- IPC records

  ghost predicate OwnersDiffer(sigs: seq<Sig>)
  {
    forall d, e :: 0 <= d < e < |sigs| && sigs[d].owner != 0 ==> sigs[d].owner != sigs[e].owner
  }

  /** A task changes state and its own endpoint record follows. */
  lemma IpcMoved(tasks: seq<Task>, nextId: nat, sigs: seq<Sig>, i: nat, t: Task, e: nat, g: Sig)
    requires TasksOk(tasks, nextId) && OwnersDiffer(sigs) && IpcAgrees(tasks, sigs)
    requires i < |tasks| && e < |sigs| && IsLive(tasks[i]) && IsLive(t) && t.id == tasks[i].id
    requires sigs[e].owner == g.owner == t.id && (g.waiting <==> t.state.Blocked?) && (g.waiting ==> g.idle)
    ensures IpcAgrees(tasks[i := t], sigs[e := g])
  {
    var now, after := tasks[i := t], sigs[e := g];
    LiveIdsSame(tasks, i, t);
    forall m | 0 <= m < |now| && IsLive(now[m]) ensures exists d :: 0 <= d < |after| && after[d].owner == now[m].id {
      assert IsLive(tasks[m]) && now[m].id == tasks[m].id;
      var d :| 0 <= d < |sigs| && sigs[d].owner == tasks[m].id;
      assert after[d].owner == now[m].id;
    }
    forall m, d | 0 <= m < |now| && 0 <= d < |after| && IsLive(now[m]) && after[d].owner == now[m].id
      ensures after[d].waiting <==> now[m].state.Blocked?
    {
      assert IsLive(tasks[m]) && now[m].id == tasks[m].id && sigs[d].owner == tasks[m].id;
      if m == i { assert d == e; } else { assert now[m].id != t.id; }
    }
  }

  /** A new task gets a record in a free place. */
  lemma IpcAdded(tasks: seq<Task>, nextId: nat, sigs: seq<Sig>, i: nat, t: Task, e: nat)
    requires TasksOk(tasks, nextId) && IpcAgrees(tasks, sigs) && nextId > 0
    requires i < |tasks| && e < |sigs| && !IsLive(tasks[i]) && t.state.Ready? && t.id == nextId && sigs[e].owner == 0
    ensures IpcAgrees(tasks[i := t], sigs[e := Sig(t.id, false, true)])
  {
    var now, after := tasks[i := t], sigs[e := Sig(t.id, false, true)];
    NotLiveYet(tasks, nextId);
    assert forall d :: 0 <= d < |sigs| ==> sigs[d].owner != nextId;
    LiveIdsAdd(tasks, i, t);
    forall m | 0 <= m < |now| && IsLive(now[m]) ensures exists d :: 0 <= d < |after| && after[d].owner == now[m].id {
      if m == i {
        assert after[e].owner == t.id;
      } else {
        var d :| 0 <= d < |sigs| && sigs[d].owner == tasks[m].id;
        assert d != e && after[d].owner == now[m].id;
      }
    }
    forall m, d | 0 <= m < |now| && 0 <= d < |after| && IsLive(now[m]) && after[d].owner == now[m].id
      ensures after[d].waiting <==> now[m].state.Blocked?
    {
      if m != i { assert now[m].id != nextId; }
    }
  }

  /** A finished task leaves with its record. */
  lemma IpcDropped(tasks: seq<Task>, nextId: nat, sigs: seq<Sig>, i: nat, t: Task, e: nat)
    requires TasksOk(tasks, nextId) && OwnersDiffer(sigs) && IpcAgrees(tasks, sigs)
    requires i < |tasks| && e < |sigs| && IsLive(tasks[i]) && !IsLive(t) && sigs[e].owner == tasks[i].id
    ensures IpcAgrees(tasks[i := t], sigs[e := Sig(0, false, true)])
  {
    var now, after := tasks[i := t], sigs[e := Sig(0, false, true)];
    LiveIdsDrop(tasks, nextId, i, t);
    forall m | 0 <= m < |now| && IsLive(now[m]) ensures exists d :: 0 <= d < |after| && after[d].owner == now[m].id {
      assert m != i && now[m].id != tasks[i].id;
      var d :| 0 <= d < |sigs| && sigs[d].owner == tasks[m].id;
      assert d != e && after[d].owner == now[m].id;
    }
    forall d | 0 <= d < |after| && after[d].owner != 0 ensures after[d].owner in LiveIds(now) {
      assert d != e && sigs[d].owner != sigs[e].owner;
    }
  }
}
