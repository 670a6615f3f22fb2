/** The scheduler stated over values: a ready queue, a blocked list, a current task and the clock. */
module SchedModel {
  import opened Common

  const QUEUE_CAPACITY: nat := 8
  const DEFAULT_QUANTUM: nat := 2
  const STARVATION_LIMIT: nat := 18

  datatype Entry = Entry(task: nat, since: nat)

  datatype Sched = Sched(
    initialized: bool, queue: seq<Entry>, blocked: seq<nat>, current: nat,
    ticks: nat, slice: nat, quantum: nat, maxWait: nat, guards: nat)

  datatype Decision = Decision(switched: bool, previous: nat, next: nat, waited: nat, guard: bool)

  function Stay(current: nat): Decision { Decision(false, current, current, 0, false) }

  const IDLE := Sched(true, [], [], 0, 0, 0, DEFAULT_QUANTUM, 0, 0)

  // ---- lookups

  function IndexOf(q: seq<Entry>, id: nat): (r: Option<nat>)
    ensures r.Some? ==> r.value < |q| && q[r.value].task == id
    ensures r.Some? ==> forall j :: 0 <= j < r.value ==> q[j].task != id
    ensures r.None? ==> forall j :: 0 <= j < |q| ==> q[j].task != id
  {
    First(q, (e: Entry) => e.task == id)
  }

  predicate Queued(q: seq<Entry>, id: nat) { exists k :: 0 <= k < |q| && q[k].task == id }

  function RemoveAt<T>(s: seq<T>, k: nat): seq<T>
    requires k < |s|
  {
    s[..k] + s[k + 1..]
  }

  function Remove(q: seq<Entry>, id: nat): (seq<Entry>, bool)
  {
    match IndexOf(q, id) case None => (q, false) case Some(k) => (RemoveAt(q, k), true)
  }

  function RemoveBlocked(b: seq<nat>, id: nat): (seq<nat>, bool)
  {
    match First(b, (x: nat) => x == id) case None => (b, false) case Some(k) => (RemoveAt(b, k), true)
  }

  // ---- choosing the next task

  function Waited(e: Entry, ticks: nat): nat { if e.since <= ticks then ticks - e.since else 0 }

  /** After looking at the first `n` entries: the first one that waited longest, and its wait. */
  function Longest(q: seq<Entry>, ticks: nat, n: nat): (nat, nat)
    requires n <= |q|
  {
    if n == 0 then (0, 0)
    else
      var (selected, longest) := Longest(q, ticks, n - 1);
      if Waited(q[n - 1], ticks) > longest then (n - 1, Waited(q[n - 1], ticks)) else (selected, longest)
  }

  /** The head of the queue, unless some task has waited past the starvation limit. */
  function SelectNext(q: seq<Entry>, ticks: nat): (nat, bool)
  {
    var (selected, longest) := Longest(q, ticks, |q|);
    if longest >= STARVATION_LIMIT then (selected, selected != 0) else (0, false)
  }

  // ---- operations

  function EnqueueAt(s: Sched, id: nat, since: nat): (Sched, bool)
  {
    if id == 0 then (s, false)
    else if IndexOf(s.queue, id).Some? || s.current == id then (s, true)
    else if |s.queue| >= QUEUE_CAPACITY then (s, false)
    else (s.(queue := s.queue + [Entry(id, since)]), true)
  }

  function Enqueue(s: Sched, id: nat): (Sched, bool) { EnqueueAt(s, id, s.ticks) }

  function Begin(s: Sched, id: nat): Sched
  {
    s.(queue := Remove(s.queue, id).0, blocked := RemoveBlocked(s.blocked, id).0, current := id, slice := 0)
  }

  function Finish(s: Sched, id: nat): Sched
  {
    s.(queue := Remove(s.queue, id).0, blocked := RemoveBlocked(s.blocked, id).0,
       current := if s.current == id then 0 else s.current,
       slice := if s.current == id then 0 else s.slice)
  }

  function Block(s: Sched, id: nat): (Sched, bool)
  {
    if id == 0 then (s, false)
    else if id in s.blocked then (s, true)
    else if |s.blocked| >= QUEUE_CAPACITY then (s, false)
    else if s.current == id then (s.(current := 0, slice := 0, blocked := s.blocked + [id]), true)
    else
      match IndexOf(s.queue, id)
      case None => (s, false)
      case Some(k) => (s.(queue := RemoveAt(s.queue, k), blocked := s.blocked + [id]), true)
  }

  function Wake(s: Sched, id: nat): (Sched, bool)
  {
    if id == 0 then (s, false)
    else if s.current == id || IndexOf(s.queue, id).Some? then (s, true)
    else
      var (blocked, known) := RemoveBlocked(s.blocked, id);
      if !known then (s, false)
      else
        var (woken, queued) := EnqueueAt(s.(blocked := blocked), id, s.ticks);
        if queued then (woken, true) else (s.(blocked := blocked + [id]), false)
  }

  function Tick(s: Sched): Sched
  {
    s.(ticks := s.ticks + 1, slice := if s.current != 0 then s.slice + 1 else s.slice)
  }

  function Max(a: nat, b: nat): nat { if a < b then b else a }

  /** The current task gives up the processor to a waiting one and is itself blocked. */
  function BlockAndDispatch(s: Sched, id: nat): (Sched, Decision)
  {
    if !s.initialized || id == 0 || s.current != id || s.queue == [] || |s.blocked| >= QUEUE_CAPACITY then
      (s, Stay(s.current))
    else
      var (offset, guard) := SelectNext(s.queue, s.ticks);
      if offset >= |s.queue| then (s, Stay(s.current))
      else if s.queue[offset].task == 0 then (s.(queue := RemoveAt(s.queue, offset)), Stay(s.current))
      else
        var next := s.queue[offset];
        var waited := Waited(next, s.ticks);
        (s.(queue := RemoveAt(s.queue, offset), blocked := s.blocked + [id], current := next.task, slice := 0,
            maxWait := Max(s.maxWait, waited), guards := s.guards + (if guard then 1 else 0)),
         Decision(true, id, next.task, waited, guard))
  }

  function Preempt(s: Sched): (Sched, Decision)
  {
    if !s.initialized || s.current == 0 || s.queue == [] || s.slice < s.quantum then (s, Stay(s.current))
    else
      var (offset, guard) := SelectNext(s.queue, s.ticks);
      if offset >= |s.queue| then (s, Stay(s.current))
      else
        var taken := s.(queue := RemoveAt(s.queue, offset));
        if s.queue[offset].task == 0 then (taken, Stay(s.current)) else Rotate(taken, s.queue[offset], guard)
  }

  /** Puts the preempted task behind the others; if that fails, puts the chosen one back. */
  function Rotate(taken: Sched, next: Entry, guard: bool): (Sched, Decision)
  {
    var waited := Waited(next, taken.ticks);
    var vacated := taken.(maxWait := Max(taken.maxWait, waited), current := 0);
    var (queued, ok) := EnqueueAt(vacated, taken.current, taken.ticks);
    if !ok then (EnqueueAt(vacated.(current := taken.current), next.task, next.since).0, Stay(taken.current))
    else
      (queued.(current := next.task, slice := 0, guards := taken.guards + (if guard then 1 else 0)),
       Decision(true, taken.current, next.task, waited, guard))
  }
}
