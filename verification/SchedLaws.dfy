/** The scheduler is exactly FIFO round-robin, and nobody waits longer than capacity times quantum. */
module SchedLaws {
  import opened Common
  import opened SchedModel

  // ---- the invariant

  ghost predicate QueueOk(q: seq<Entry>, ticks: nat)
  {
    && |q| <= QUEUE_CAPACITY
    && (forall k :: 0 <= k < |q| ==> q[k].task != 0 && q[k].since <= ticks)
    && (forall k, l :: 0 <= k < l < |q| ==> q[k].task != q[l].task)
    && (forall k, l :: 0 <= k < l < |q| ==> q[k].since <= q[l].since)
  }

  ghost predicate BlockedOk(b: seq<nat>)
  {
    && |b| <= QUEUE_CAPACITY
    && (forall k :: 0 <= k < |b| ==> b[k] != 0)
    && (forall k, l :: 0 <= k < l < |b| ==> b[k] != b[l])
  }

  /** Ready, blocked and current tasks are distinct, and the queue is in order of arrival. */
  ghost predicate Inv(s: Sched)
  {
    && QueueOk(s.queue, s.ticks) && BlockedOk(s.blocked)
    && (forall k :: 0 <= k < |s.queue| ==> s.queue[k].task != s.current && s.queue[k].task !in s.blocked)
    && (s.current != 0 ==> s.current !in s.blocked)
  }

  lemma RemoveAtKeeps(q: seq<Entry>, ticks: nat, k: nat)
    requires QueueOk(q, ticks) && k < |q|
    ensures QueueOk(RemoveAt(q, k), ticks)
    ensures forall x :: x in RemoveAt(q, k) <==> x in q && x != q[k]
    ensures !Queued(RemoveAt(q, k), q[k].task)
  {
    var r := RemoveAt(q, k);
    forall x | x in q && x != q[k] ensures x in r {
      var j :| 0 <= j < |q| && q[j] == x;
      if j < k { assert r[j] == x; } else { assert r[j - 1] == x; }
    }
  }

  lemma RemoveBlockedKeeps(b: seq<nat>, k: nat)
    requires BlockedOk(b) && k < |b|
    ensures BlockedOk(RemoveAt(b, k))
    ensures forall x :: x in RemoveAt(b, k) <==> x in b && x != b[k]
  {
    var r := RemoveAt(b, k);
    forall x | x in b && x != b[k] ensures x in r {
      var j :| 0 <= j < |b| && b[j] == x;
      if j < k { assert r[j] == x; } else { assert r[j - 1] == x; }
    }
  }

  /** Removing by task id: the queue keeps its order and loses exactly that task. */
  lemma RemoveKeeps(q: seq<Entry>, ticks: nat, id: nat)
    requires QueueOk(q, ticks)
    ensures QueueOk(Remove(q, id).0, ticks) && !Queued(Remove(q, id).0, id)
    ensures forall x :: x in Remove(q, id).0 <==> x in q && x.task != id
    ensures |Remove(q, id).0| <= |q|
  {
    var f := IndexOf(q, id);
    if f.Some? {
      RemoveAtKeeps(q, ticks, f.value);
      forall x | x in q && x.task == id ensures x == q[f.value] {
        var j :| 0 <= j < |q| && q[j] == x;
      }
    }
  }

  lemma RemoveBlockedIdKeeps(b: seq<nat>, id: nat)
    requires BlockedOk(b)
    ensures BlockedOk(RemoveBlocked(b, id).0) && RemoveBlocked(b, id).1 == (id in b)
    ensures forall x :: x in RemoveBlocked(b, id).0 <==> x in b && x != id
    ensures |RemoveBlocked(b, id).0| == if id in b then |b| - 1 else |b|
  {
    var f := First(b, (x: nat) => x == id);
    if f.Some? { RemoveBlockedKeeps(b, f.value); }
  }

  lemma TailOk(q: seq<Entry>, ticks: nat)
    requires QueueOk(q, ticks) && q != []
    ensures QueueOk(q[1..], ticks) && forall k :: 0 <= k < |q| - 1 ==> q[1..][k] == q[k + 1]
  {
  }

  lemma AppendOk(q: seq<Entry>, ticks: nat, id: nat)
    requires QueueOk(q, ticks) && |q| < QUEUE_CAPACITY && id != 0
    requires forall k :: 0 <= k < |q| ==> q[k].task != id
    ensures QueueOk(q + [Entry(id, ticks)], ticks)
  {
  }

  // ---- FIFO

  lemma {:induction false} LongestOfSorted(q: seq<Entry>, ticks: nat, n: nat)
    requires QueueOk(q, ticks) && n <= |q|
    ensures Longest(q, ticks, n).0 == 0
    ensures n > 0 ==> Longest(q, ticks, n).1 == Waited(q[0], ticks)
  {
    if n > 0 { LongestOfSorted(q, ticks, n - 1); }
  }

  /** The choice is always the head, and the starvation guard never fires. */
  lemma AlwaysHead(q: seq<Entry>, ticks: nat)
    requires QueueOk(q, ticks)
    ensures SelectNext(q, ticks) == (0, false)
  {
    LongestOfSorted(q, ticks, |q|);
  }

  /** With room in the queue the rollback is not reached. */
  lemma RotateFits(taken: Sched, next: Entry)
    requires taken.current != 0 && |taken.queue| < QUEUE_CAPACITY && next.since <= taken.ticks
    requires forall k :: 0 <= k < |taken.queue| ==> taken.queue[k].task != taken.current
    ensures var (after, d) := Rotate(taken, next, false);
            && d == Decision(true, taken.current, next.task, taken.ticks - next.since, false)
            && after == taken.(queue := taken.queue + [Entry(taken.current, taken.ticks)], current := next.task, slice := 0,
                               maxWait := Max(taken.maxWait, taken.ticks - next.since))
  {
    assert IndexOf(taken.queue, taken.current).None?;
  }

  /** Preemption is rotation: head to the processor, current to the tail, nothing else. */
  lemma PreemptRotates(s: Sched)
    requires Inv(s) && s.initialized && s.current != 0 && s.queue != [] && s.slice >= s.quantum
    ensures var (after, d) := Preempt(s);
            && d == Decision(true, s.current, s.queue[0].task, s.ticks - s.queue[0].since, false)
            && after == s.(queue := s.queue[1..] + [Entry(s.current, s.ticks)], current := s.queue[0].task, slice := 0,
                           maxWait := Max(s.maxWait, s.ticks - s.queue[0].since))
  {
    AlwaysHead(s.queue, s.ticks);
    assert RemoveAt(s.queue, 0) == s.queue[1..];
    RotateFits(s.(queue := s.queue[1..]), s.queue[0]);
  }

  /** A blocking dispatch takes the head and appends the blocked task to the blocked list. */
  lemma DispatchTakesHead(s: Sched)
    requires Inv(s) && s.initialized && s.current != 0 && s.queue != [] && |s.blocked| < QUEUE_CAPACITY
    ensures var (after, d) := BlockAndDispatch(s, s.current);
            && d == Decision(true, s.current, s.queue[0].task, s.ticks - s.queue[0].since, false)
            && after == s.(queue := s.queue[1..], blocked := s.blocked + [s.current], current := s.queue[0].task,
                           slice := 0, maxWait := Max(s.maxWait, s.ticks - s.queue[0].since))
  {
    AlwaysHead(s.queue, s.ticks);
    assert RemoveAt(s.queue, 0) == s.queue[1..];
  }

  // ---- preservation

  datatype Op =
    | OpEnqueue(id: nat) | OpBegin(id: nat) | OpFinish(id: nat) | OpBlock(id: nat)
    | OpDispatch(id: nat) | OpWake(id: nat) | OpTick | OpPreempt

  function Step(s: Sched, op: Op): Sched
  {
    match op
    case OpEnqueue(id) => Enqueue(s, id).0
    case OpBegin(id) => Begin(s, id)
    case OpFinish(id) => Finish(s, id)
    case OpBlock(id) => Block(s, id).0
    case OpDispatch(id) => BlockAndDispatch(s, id).0
    case OpWake(id) => Wake(s, id).0
    case OpTick => Tick(s)
    case OpPreempt => Preempt(s).0
  }

  /** Only tasks that are not blocked are enqueued. */
  predicate Permitted(s: Sched, op: Op) { op.OpEnqueue? ==> op.id !in s.blocked }

  lemma EnqueueKeepsInv(s: Sched, id: nat)
    requires Inv(s) && id !in s.blocked
    ensures Inv(Enqueue(s, id).0)
  {
  }

  lemma BeginKeepsInv(s: Sched, id: nat)
    requires Inv(s)
    ensures Inv(Begin(s, id)) && Inv(Finish(s, id))
  {
    RemoveKeeps(s.queue, s.ticks, id);
    RemoveBlockedIdKeeps(s.blocked, id);
    SubqueueOk(s, Begin(s, id).queue);
  }

  lemma SubqueueOk(s: Sched, q: seq<Entry>)
    requires Inv(s) && forall x :: x in q ==> x in s.queue
    ensures forall k :: 0 <= k < |q| ==> q[k].task != s.current && q[k].task !in s.blocked
  {
    forall k | 0 <= k < |q| ensures q[k].task != s.current && q[k].task !in s.blocked {
      assert q[k] in s.queue;
    }
  }

  lemma BlockKeepsInv(s: Sched, id: nat)
    requires Inv(s)
    ensures Inv(Block(s, id).0)
  {
    var f := IndexOf(s.queue, id);
    if f.Some? {
      RemoveAtKeeps(s.queue, s.ticks, f.value);
      SubqueueOk(s, RemoveAt(s.queue, f.value));
    }
  }

  /** Waking fails only for a task that is not blocked, or when the ready queue is full. */
  lemma WakeEffect(s: Sched, id: nat)
    requires Inv(s) && id in s.blocked
    ensures Wake(s, id) ==
              if |s.queue| < QUEUE_CAPACITY
              then (s.(blocked := RemoveBlocked(s.blocked, id).0, queue := s.queue + [Entry(id, s.ticks)]), true)
              else (s.(blocked := RemoveBlocked(s.blocked, id).0 + [id]), false)
    ensures id != 0 && IndexOf(s.queue, id).None? && s.current != id
  {
    RemoveBlockedIdKeeps(s.blocked, id);
  }

  lemma WakeKeepsInv(s: Sched, id: nat)
    requires Inv(s)
    ensures Inv(Wake(s, id).0)
  {
    RemoveBlockedIdKeeps(s.blocked, id);
    if id in s.blocked {
      WakeEffect(s, id);
      if |s.queue| < QUEUE_CAPACITY {
        AppendOk(s.queue, s.ticks, id);
        WokenInv(s, RemoveBlocked(s.blocked, id).0, id);
      }
    }
  }

  lemma WokenInv(s: Sched, b: seq<nat>, id: nat)
    requires Inv(s) && BlockedOk(b) && (forall x :: x in b <==> x in s.blocked && x != id)
    requires id != 0 && s.current != id && QueueOk(s.queue + [Entry(id, s.ticks)], s.ticks)
    ensures Inv(s.(blocked := b, queue := s.queue + [Entry(id, s.ticks)]))
  {
  }

  lemma RotatedInv(s: Sched)
    requires Inv(s) && s.current != 0 && s.queue != []
    ensures Inv(s.(queue := s.queue[1..] + [Entry(s.current, s.ticks)], current := s.queue[0].task))
  {
    TailOk(s.queue, s.ticks);
    AppendOk(s.queue[1..], s.ticks, s.current);
  }

  lemma DispatchedInv(s: Sched)
    requires Inv(s) && s.current != 0 && s.queue != [] && |s.blocked| < QUEUE_CAPACITY
    ensures Inv(s.(queue := s.queue[1..], blocked := s.blocked + [s.current], current := s.queue[0].task))
  {
    TailOk(s.queue, s.ticks);
  }

  lemma StepKeepsInv(s: Sched, op: Op)
    requires Inv(s) && Permitted(s, op)
    ensures Inv(Step(s, op))
    ensures Step(s, op).guards == s.guards
  {
    match op
    case OpEnqueue(id) => EnqueueKeepsInv(s, id);
    case OpBegin(id) => BeginKeepsInv(s, id);
    case OpFinish(id) => BeginKeepsInv(s, id);
    case OpBlock(id) => BlockKeepsInv(s, id);
    case OpDispatch(id) =>
      if s.initialized && id != 0 && s.current == id && s.queue != [] && |s.blocked| < QUEUE_CAPACITY {
        DispatchTakesHead(s);
        DispatchedInv(s);
      }
    case OpWake(id) => WakeKeepsInv(s, id);
    case OpTick =>
    case OpPreempt =>
      if s.initialized && s.current != 0 && s.queue != [] && s.slice >= s.quantum {
        PreemptRotates(s);
        RotatedInv(s);
      }
  }

  /** Enqueueing breaks the invariant exactly when it actually queues a blocked task. */
  lemma EnqueueInvIff(s: Sched, id: nat)
    requires Inv(s)
    ensures Inv(Enqueue(s, id).0) <==> id !in s.blocked || |s.queue| >= QUEUE_CAPACITY
  {
    if id in s.blocked && |s.queue| < QUEUE_CAPACITY {
      var after := Enqueue(s, id).0;
      assert IndexOf(s.queue, id).None?;
      assert after.queue[|s.queue|].task == id;
    }
  }

  ghost predicate AllPermitted(s: Sched, ops: seq<Op>)
  {
    ops == [] || (AllPermitted(s, ops[..|ops| - 1]) && Permitted(Reach(s, ops[..|ops| - 1]), ops[|ops| - 1]))
  }

  function Reach(s: Sched, ops: seq<Op>): Sched
  {
    if ops == [] then s else Step(Reach(s, ops[..|ops| - 1]), ops[|ops| - 1])
  }

  /** Every reachable state satisfies the invariant and has never used the starvation guard. */
  lemma {:induction false} RunKeepsInv(ops: seq<Op>)
    requires AllPermitted(IDLE, ops)
    ensures Inv(Reach(IDLE, ops)) && Reach(IDLE, ops).guards == 0
  {
    if ops != [] {
      RunKeepsInv(ops[..|ops| - 1]);
      StepKeepsInv(Reach(IDLE, ops[..|ops| - 1]), ops[|ops| - 1]);
    }
  }

  // ---- bounded waiting

  const WAIT_BOUND: nat := QUEUE_CAPACITY * DEFAULT_QUANTUM

  /** Ticks until the next timer dispatch, if the queue is not empty. */
  function Remaining(slice: nat): nat { if slice == 0 then 2 else 1 }

  /** What a queued task has waited, plus what it may still wait, stays within the bound. */
  ghost predicate Bounded(s: Sched)
  {
    && Inv(s) && s.initialized && s.current != 0 && s.quantum == DEFAULT_QUANTUM && s.maxWait <= WAIT_BOUND
    && forall k :: 0 <= k < |s.queue| ==>
         s.ticks - s.queue[k].since + DEFAULT_QUANTUM * k + Remaining(s.slice) <= WAIT_BOUND
  }

  /** The moves of the running system: a tick is always followed by a preemption check. */
  datatype Move = Arrive(id: nat) | Awaken(id: nat) | Leave(id: nat) | Suspend(id: nat) | GiveUp | TimerTick

  function MoveTo(s: Sched, m: Move): (Sched, Decision)
  {
    match m
    case Arrive(id) => (Enqueue(s, id).0, Stay(s.current))
    case Awaken(id) => (Wake(s, id).0, Stay(s.current))
    case Leave(id) => (Finish(s, id), Stay(s.current))
    case Suspend(id) => (Block(s, id).0, Stay(s.current))
    case GiveUp => BlockAndDispatch(s, s.current)
    case TimerTick => Preempt(Tick(s))
  }

  /** The current task neither leaves nor is suspended without a successor; arrivals are not blocked. */
  predicate KeepsRunning(s: Sched, m: Move)
  {
    match m
    case Arrive(id) => id !in s.blocked
    case Leave(id) => id != s.current
    case Suspend(id) => id != s.current
    case _ => true
  }

  lemma RemoveBounded(s: Sched, k: nat)
    requires Bounded(s) && k < |s.queue|
    ensures forall j :: 0 <= j < |RemoveAt(s.queue, k)| ==>
              s.ticks - RemoveAt(s.queue, k)[j].since + DEFAULT_QUANTUM * j + Remaining(s.slice) <= WAIT_BOUND
  {
    var r := RemoveAt(s.queue, k);
    forall j | 0 <= j < |r|
      ensures s.ticks - r[j].since + DEFAULT_QUANTUM * j + Remaining(s.slice) <= WAIT_BOUND
    {
      if j < k { assert r[j] == s.queue[j]; } else { assert r[j] == s.queue[j + 1]; }
    }
  }

  lemma TimerTickBounded(s: Sched)
    requires Bounded(s)
    ensures Bounded(MoveTo(s, TimerTick).0) && MoveTo(s, TimerTick).1.waited <= WAIT_BOUND
  {
    var t := Tick(s);
    assert Inv(t);
    if t.queue != [] && t.slice >= t.quantum {
      PreemptRotates(t);
      RotatedInv(t);
      TailOk(t.queue, t.ticks);
      var q := t.queue[1..] + [Entry(t.current, t.ticks)];
      forall k | 0 <= k < |q|
        ensures t.ticks - q[k].since + DEFAULT_QUANTUM * k + Remaining(0) <= WAIT_BOUND
      {
        if k < |s.queue| - 1 {
          assert q[k] == s.queue[k + 1];
        }
      }
    }
  }

  lemma GiveUpBounded(s: Sched)
    requires Bounded(s)
    ensures Bounded(MoveTo(s, GiveUp).0) && MoveTo(s, GiveUp).1.waited <= WAIT_BOUND
  {
    if s.queue != [] && |s.blocked| < QUEUE_CAPACITY {
      DispatchTakesHead(s);
      DispatchedBounded(s);
    }
  }

  lemma DispatchedBounded(s: Sched)
    requires Bounded(s) && s.queue != [] && |s.blocked| < QUEUE_CAPACITY
    ensures s.ticks - s.queue[0].since <= WAIT_BOUND
    ensures Bounded(s.(queue := s.queue[1..], blocked := s.blocked + [s.current], current := s.queue[0].task,
                       slice := 0, maxWait := Max(s.maxWait, s.ticks - s.queue[0].since)))
  {
    DispatchedInv(s);
    TailOk(s.queue, s.ticks);
  }

  lemma ArriveBounded(s: Sched, id: nat, b: seq<nat>)
    requires Bounded(s) && |s.queue| < QUEUE_CAPACITY
    requires Inv(s.(blocked := b, queue := s.queue + [Entry(id, s.ticks)]))
    ensures Bounded(s.(blocked := b, queue := s.queue + [Entry(id, s.ticks)]))
  {
  }

  lemma AwakenBounded(s: Sched, id: nat)
    requires Bounded(s)
    ensures Bounded(Wake(s, id).0)
  {
    WakeKeepsInv(s, id);
    RemoveBlockedIdKeeps(s.blocked, id);
    if id in s.blocked {
      WakeEffect(s, id);
      if |s.queue| < QUEUE_CAPACITY { ArriveBounded(s, id, RemoveBlocked(s.blocked, id).0); }
    }
  }

  lemma MoveBounded(s: Sched, m: Move)
    requires Bounded(s) && KeepsRunning(s, m)
    ensures Bounded(MoveTo(s, m).0)
    ensures MoveTo(s, m).1.waited <= WAIT_BOUND < STARVATION_LIMIT
  {
    match m
    case Arrive(id) =>
      EnqueueKeepsInv(s, id);
      if Enqueue(s, id).0 != s { ArriveBounded(s, id, s.blocked); }
    case Awaken(id) => AwakenBounded(s, id);
    case Leave(id) =>
      BeginKeepsInv(s, id);
      var f := IndexOf(s.queue, id);
      if f.Some? { RemoveBounded(s, f.value); }
    case Suspend(id) =>
      BlockKeepsInv(s, id);
      var f := IndexOf(s.queue, id);
      if f.Some? { RemoveBounded(s, f.value); }
    case GiveUp => GiveUpBounded(s);
    case TimerTick => TimerTickBounded(s);
  }

  ghost predicate RunsOn(s: Sched, moves: seq<Move>)
    decreases |moves|
  {
    moves == [] || (KeepsRunning(s, moves[0]) && RunsOn(MoveTo(s, moves[0]).0, moves[1..]))
  }

  function After(s: Sched, moves: seq<Move>): Sched
    decreases |moves|
  {
    if moves == [] then s else After(MoveTo(s, moves[0]).0, moves[1..])
  }

  /**
   In every run that starts with a task on the processor and an empty queue, whatever arrives,
   wakes, leaves or gives up the processor in between, no dispatched task has waited more than
   capacity times quantum = 16 ticks, strictly below the starvation limit of 18.
   */
  lemma {:induction false} WaitBounded(s: Sched, moves: seq<Move>)
    requires Bounded(s) && RunsOn(s, moves)
    ensures Bounded(After(s, moves)) && After(s, moves).maxWait <= WAIT_BOUND < STARVATION_LIMIT
    decreases |moves|
  {
    if moves != [] {
      MoveBounded(s, moves[0]);
      WaitBounded(MoveTo(s, moves[0]).0, moves[1..]);
    }
  }

  lemma BoundedStart(id: nat)
    requires id != 0
    ensures Bounded(Begin(IDLE, id))
  {
  }

  // ---- the bound is attained

  /** `left` tasks that arrived at tick 0 are still at the front of a full queue. */
  ghost predicate Draining(s: Sched, left: nat)
  {
    && Bounded(s) && |s.queue| == QUEUE_CAPACITY && s.slice == 0 && left <= QUEUE_CAPACITY
    && s.ticks == DEFAULT_QUANTUM * (QUEUE_CAPACITY - left)
    && forall k :: 0 <= k < left ==> s.queue[k].since == 0
  }

  function TwoTicks(s: Sched): Sched { MoveTo(MoveTo(s, TimerTick).0, TimerTick).0 }

  lemma DrainOne(s: Sched, left: nat)
    requires Draining(s, left) && left > 0
    ensures Draining(TwoTicks(s), left - 1)
    ensures TwoTicks(s).maxWait >= DEFAULT_QUANTUM * (QUEUE_CAPACITY - left + 1)
  {
    TimerTickBounded(s);
    var t := MoveTo(s, TimerTick).0;
    assert t == Tick(s);
    TimerTickBounded(t);
    PreemptRotates(Tick(t));
    var after := TwoTicks(s);
    assert forall k :: 0 <= k < left - 1 ==> after.queue[k] == s.queue[k + 1];
  }

  /** `n` quanta of the timer. */
  function Quanta(n: nat): seq<Move> { if n == 0 then [] else [TimerTick, TimerTick] + Quanta(n - 1) }

  lemma TwoTicksRun(s: Sched, rest: seq<Move>)
    ensures RunsOn(s, [TimerTick, TimerTick] + rest) <==> RunsOn(TwoTicks(s), rest)
    ensures After(s, [TimerTick, TimerTick] + rest) == After(TwoTicks(s), rest)
  {
    var moves := [TimerTick, TimerTick] + rest;
    assert moves[1..] == [TimerTick] + rest && moves[1..][1..] == rest;
  }

  /** A full queue that arrived at once makes its last task wait exactly the bound. */
  lemma {:induction false} DrainAll(s: Sched, left: nat)
    requires Draining(s, left) && left > 0
    ensures RunsOn(s, Quanta(left)) && After(s, Quanta(left)).maxWait == WAIT_BOUND
    decreases left
  {
    DrainOne(s, left);
    TwoTicksRun(s, Quanta(left - 1));
    if left > 1 { DrainAll(TwoTicks(s), left - 1); }
  }

  /** Task 1 runs, and tasks 2, 3, ... have arrived at tick 0. */
  ghost predicate Filling(s: Sched, n: nat)
  {
    && Bounded(s) && |s.queue| == n && s.slice == 0 && s.ticks == 0 && s.current == 1 && s.blocked == []
    && forall k :: 0 <= k < n ==> s.queue[k] == Entry(k + 2, 0)
  }

  /** Tasks number `from` to 9 arrive. */
  function Arrivals(from: nat): seq<Move>
    decreases QUEUE_CAPACITY + 2 - from
  {
    if from >= QUEUE_CAPACITY + 2 then [] else [Arrive(from)] + Arrivals(from + 1)
  }

  /** One more arrival. */
  lemma FillOne(s: Sched, n: nat)
    requires Filling(s, n) && n < QUEUE_CAPACITY
    ensures KeepsRunning(s, Arrive(n + 2)) && Filling(MoveTo(s, Arrive(n + 2)).0, n + 1)
  {
    MoveBounded(s, Arrive(n + 2));
    assert IndexOf(s.queue, n + 2).None?;
  }

  lemma FirstMove(s: Sched, m: Move, rest: seq<Move>)
    ensures RunsOn(s, [m] + rest) <==> KeepsRunning(s, m) && RunsOn(MoveTo(s, m).0, rest)
    ensures After(s, [m] + rest) == After(MoveTo(s, m).0, rest)
  {
    assert ([m] + rest)[1..] == rest;
  }

  /** Waiting for the rest of the tasks to arrive, whatever run follows. */
  lemma {:induction false} FillUp(s: Sched, n: nat, rest: seq<Move>) returns (full: Sched)
    requires Filling(s, n) && n <= QUEUE_CAPACITY
    ensures Filling(full, QUEUE_CAPACITY) && After(s, Arrivals(n + 2) + rest) == After(full, rest)
    ensures RunsOn(s, Arrivals(n + 2) + rest) <==> RunsOn(full, rest)
    decreases QUEUE_CAPACITY - n
  {
    if n == QUEUE_CAPACITY {
      full := s;
      assert Arrivals(n + 2) + rest == rest;
    } else {
      FillOne(s, n);
      full := FillUp(MoveTo(s, Arrive(n + 2)).0, n + 1, rest);
      FirstMove(s, Arrive(n + 2), Arrivals(n + 3) + rest);
      assert Arrivals(n + 2) + rest == [Arrive(n + 2)] + (Arrivals(n + 3) + rest);
    }
  }

  /**
   The bound is reached from boot: task 1 starts on an idle scheduler, tasks 2 to 9 arrive, and
   after eight quanta the last of them is dispatched, having waited exactly 16 ticks.
   */
  lemma WaitBoundAttained() returns (moves: seq<Move>)
    ensures RunsOn(Begin(IDLE, 1), moves) && After(Begin(IDLE, 1), moves).maxWait == WAIT_BOUND
  {
    BoundedStart(1);
    moves := FillAndDrain(Begin(IDLE, 1), 0, QUEUE_CAPACITY);
  }

  /** `queued` tasks have arrived; the rest arrive until there are `capacity`, and all are dispatched. */
  lemma FillAndDrain(s: Sched, queued: nat, capacity: nat) returns (moves: seq<Move>)
    requires Filling(s, queued) && queued <= capacity == QUEUE_CAPACITY
    ensures RunsOn(s, moves) && After(s, moves).maxWait == WAIT_BOUND
  {
    var full := FillUp(s, queued, Quanta(capacity));
    DrainAll(full, capacity);
    moves := Arrivals(queued + 2) + Quanta(capacity);
  }
}
