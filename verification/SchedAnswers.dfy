/** What every scheduler operation leaves, field by field, for any state that keeps the invariant. */
module SchedAnswers {
  import opened Common
  import opened SchedModel
  import opened SchedLaws

  /** The entries of other tasks, in order. */
  function Others(q: seq<Entry>, id: nat): seq<Entry>
  {
    if q == [] then [] else (if q[0].task == id then [] else [q[0]]) + Others(q[1..], id)
  }

  function OtherIds(b: seq<nat>, id: nat): seq<nat>
  {
    if b == [] then [] else (if b[0] == id then [] else [b[0]]) + OtherIds(b[1..], id)
  }

  lemma {:induction false} NoneRemoved(q: seq<Entry>, id: nat)
    requires forall k :: 0 <= k < |q| ==> q[k].task != id
    ensures Others(q, id) == q
  {
    if q != [] { NoneRemoved(q[1..], id); }
  }

  lemma {:induction false} OneRemoved(q: seq<Entry>, id: nat, k: nat)
    requires k < |q| && q[k].task == id && forall j :: 0 <= j < |q| && j != k ==> q[j].task != id
    ensures Others(q, id) == RemoveAt(q, k)
  {
    if k == 0 {
      NoneRemoved(q[1..], id);
    } else {
      assert q[1..][k - 1] == q[k] && forall j :: 0 <= j < |q| - 1 ==> q[1..][j] == q[j + 1];
      OneRemoved(q[1..], id, k - 1);
    }
  }

  lemma {:induction false} NoIdRemoved(b: seq<nat>, id: nat)
    requires id !in b
    ensures OtherIds(b, id) == b
  {
    if b != [] { NoIdRemoved(b[1..], id); }
  }

  lemma {:induction false} OneIdRemoved(b: seq<nat>, id: nat, k: nat)
    requires k < |b| && b[k] == id && forall j :: 0 <= j < |b| && j != k ==> b[j] != id
    ensures OtherIds(b, id) == RemoveAt(b, k)
  {
    if k == 0 {
      assert id !in b[1..];
      NoIdRemoved(b[1..], id);
    } else {
      assert b[1..][k - 1] == b[k] && forall j :: 0 <= j < |b| - 1 ==> b[1..][j] == b[j + 1];
      OneIdRemoved(b[1..], id, k - 1);
    }
  }

  lemma RemoveIs(q: seq<Entry>, ticks: nat, id: nat)
    requires QueueOk(q, ticks)
    ensures Remove(q, id) == (Others(q, id), Queued(q, id))
  {
    match IndexOf(q, id)
    case None => NoneRemoved(q, id);
    case Some(k) => OneRemoved(q, id, k);
  }

  lemma RemoveBlockedIs(b: seq<nat>, id: nat)
    requires BlockedOk(b)
    ensures RemoveBlocked(b, id) == (OtherIds(b, id), id in b)
  {
    match First(b, (x: nat) => x == id)
    case None => NoIdRemoved(b, id);
    case Some(k) => OneIdRemoved(b, id, k);
  }

  /** Queueing: refused for task 0 and on a full queue, nothing to do for a task that is queued or running, else to the tail. */
  lemma EnqueueAnswer(s: Sched, id: nat, since: nat)
    ensures EnqueueAt(s, id, since)
            == if id != 0 && (Queued(s.queue, id) || s.current == id) then (s, true)
               else if id == 0 || |s.queue| >= 8 then (s, false)
               else (s.(queue := s.queue + [Entry(id, since)]), true)
    ensures Enqueue(s, id) == EnqueueAt(s, id, s.ticks)
  {
    assert IndexOf(s.queue, id).Some? <==> Queued(s.queue, id);
  }

  /** Starting a task takes it off queue and blocked list and begins a fresh slice; finishing it takes it off everywhere. */
  lemma BeginAnswer(s: Sched, id: nat)
    requires Inv(s)
    ensures Begin(s, id) == s.(queue := Others(s.queue, id), blocked := OtherIds(s.blocked, id), current := id, slice := 0)
    ensures Finish(s, id) == (if s.current == id then s.(current := 0, slice := 0) else s).(queue := Others(s.queue, id), blocked := OtherIds(s.blocked, id))
  {
    RemoveIs(s.queue, s.ticks, id);
    RemoveBlockedIs(s.blocked, id);
  }

  /** Blocking: a known task leaves processor or queue for the end of the blocked list, if that has room. */
  lemma BlockAnswer(s: Sched, id: nat)
    requires Inv(s)
    ensures Block(s, id)
            == if id != 0 && id in s.blocked then (s, true)
               else if id == 0 || |s.blocked| >= 8 || (s.current != id && !Queued(s.queue, id)) then (s, false)
               else if s.current == id then (s.(current := 0, slice := 0, blocked := s.blocked + [id]), true)
               else (s.(queue := Others(s.queue, id), blocked := s.blocked + [id]), true)
  {
    RemoveIs(s.queue, s.ticks, id);
  }

  /** Waking: a blocked task goes to the tail of the queue with the present tick; on a full queue it stays blocked. */
  lemma WakeAnswer(s: Sched, id: nat)
    requires Inv(s)
    ensures Wake(s, id)
            == if id != 0 && (s.current == id || Queued(s.queue, id)) then (s, true)
               else if id !in s.blocked then (s, false)
               else if |s.queue| < 8 then (s.(blocked := OtherIds(s.blocked, id), queue := s.queue + [Entry(id, s.ticks)]), true)
               else (s.(blocked := OtherIds(s.blocked, id) + [id]), false)
  {
    assert IndexOf(s.queue, id).Some? <==> Queued(s.queue, id);
    RemoveBlockedIs(s.blocked, id);
    if id in s.blocked { WakeEffect(s, id); }
  }

  /** A tick counts, and counts towards the slice of a running task. */
  lemma TickAnswer(s: Sched)
    ensures Tick(s) == s.(ticks := s.ticks + 1, slice := if s.current == 0 then s.slice else s.slice + 1)
  {
  }

  /** What the starvation guard promises on a queue in any order. */
  ghost predicate LongestAt(q: seq<Entry>, ticks: nat, n: nat, k: nat)
  {
    && k < n <= |q|
    && (forall j :: 0 <= j < n ==> Waited(q[j], ticks) <= Waited(q[k], ticks))
    && (forall j :: 0 <= j < k ==> Waited(q[j], ticks) < Waited(q[k], ticks))
  }

  lemma {:induction false} LongestIs(q: seq<Entry>, ticks: nat, n: nat)
    requires 0 < n <= |q|
    ensures var (k, w) := Longest(q, ticks, n); (w > 0 ==> LongestAt(q, ticks, n, k) && w == Waited(q[k], ticks)) && (forall j :: 0 <= j < n ==> Waited(q[j], ticks) <= w)
  {
    if n > 1 { LongestIs(q, ticks, n - 1); }
  }

  /** The head, unless somebody has waited 18 ticks: then the first of those that waited longest. */
  lemma SelectAnswer(q: seq<Entry>, ticks: nat)
    requires q != []
    ensures var (k, guard) := SelectNext(q, ticks);
            if exists j :: 0 <= j < |q| && Waited(q[j], ticks) >= 18 then LongestAt(q, ticks, |q|, k) && guard == (k != 0)
            else k == 0 && !guard
    ensures forall e: Entry :: Waited(e, ticks) == if e.since > ticks then 0 else ticks - e.since
  {
    LongestIs(q, ticks, |q|);
  }

  /** Preemption and blocking dispatch do nothing at all when there is nothing to do. */
  lemma StaysAnswer(s: Sched, id: nat)
    ensures !s.initialized || s.current == 0 || s.queue == [] || s.slice < s.quantum ==> Preempt(s) == (s, Decision(false, s.current, s.current, 0, false))
    ensures !s.initialized || id == 0 || s.current != id || s.queue == [] || |s.blocked| >= 8 ==>
              BlockAndDispatch(s, id) == (s, Decision(false, s.current, s.current, 0, false))
  {
  }
}
