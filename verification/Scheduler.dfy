/** The scheduler as the kernel keeps it: a ring of entries and a dense array of blocked tasks. */
module SchedulerImpl {
  import opened Common
  import opened SchedModel
  import opened SchedLaws

  const EMPTY_ENTRY := Entry(0, 0)

  function RingIndex(head: nat, k: nat): nat { (head + k) % QUEUE_CAPACITY }

  lemma RingInjective(head: nat)
    requires head < QUEUE_CAPACITY
    ensures forall k: nat, l: nat :: k < l < QUEUE_CAPACITY ==> RingIndex(head, k) != RingIndex(head, l)
  {
  }

  class Scheduler {
    var initialized: bool
    const queue: array<Entry>
    const blocked: array<nat>
    var head: nat
    var len: nat
    var blockedLen: nat
    var current: nat
    var ticks: nat
    var slice: nat
    var quantum: nat
    var maxWait: nat
    var guards: nat

    /** The ready queue in order, and the blocked list: kept up to date by every write. */
    ghost var ready: seq<Entry>
    ghost var waiting: seq<nat>

    ghost predicate Valid()
      reads this, queue, blocked
    {
      && queue.Length == QUEUE_CAPACITY && blocked.Length == QUEUE_CAPACITY
      && head < QUEUE_CAPACITY && len <= QUEUE_CAPACITY && blockedLen <= QUEUE_CAPACITY
      && |ready| == len && (forall k :: 0 <= k < len ==> ready[k] == queue[RingIndex(head, k)])
      && waiting == blocked[..blockedLen]
    }

    ghost function Model(): Sched
      reads this
    {
      Sched(initialized, ready, waiting, current, ticks, slice, quantum, maxWait, guards)
    }

    constructor ()
      ensures Valid() && Model() == IDLE && fresh(queue) && fresh(blocked)
    {
      initialized, head, len, blockedLen, current := true, 0, 0, 0, 0;
      ticks, slice, quantum, maxWait, guards := 0, 0, DEFAULT_QUANTUM, 0, 0;
      queue := new Entry[QUEUE_CAPACITY](_ => EMPTY_ENTRY);
      blocked := new nat[QUEUE_CAPACITY](_ => 0);
      ready, waiting := [], [];
    }

    // ---- lookups

    method Find(id: nat) returns (r: Option<nat>)
      requires Valid()
      ensures r == IndexOf(ready, id)
    {
      var offset := 0;
      while offset < len
        invariant 0 <= offset <= len
        invariant forall k :: 0 <= k < offset ==> ready[k].task != id
      {
        if queue[RingIndex(head, offset)].task == id {
          return Some(offset);
        }
        offset := offset + 1;
      }
      r := None;
    }

    method FindBlocked(id: nat) returns (r: Option<nat>)
      requires Valid()
      ensures r == First(waiting, (x: nat) => x == id)
    {
      var index := 0;
      while index < blockedLen
        invariant 0 <= index <= blockedLen
        invariant forall k :: 0 <= k < index ==> waiting[k] != id
      {
        if blocked[index] == id {
          return Some(index);
        }
        index := index + 1;
      }
      r := None;
    }

    /** Scans the whole queue for the longest wait; ties go to the earlier entry. */
    method SelectNextOffset() returns (offset: nat, guard: bool)
      requires Valid()
      ensures (offset, guard) == SelectNext(ready, ticks)
    {
      var selected, longest := 0, 0;
      var k := 0;
      while k < len
        invariant 0 <= k <= len
        invariant (selected, longest) == Longest(ready, ticks, k)
      {
        var waited := Waited(queue[RingIndex(head, k)], ticks);
        if waited > longest {
          selected, longest := k, waited;
        }
        k := k + 1;
      }
      if longest >= STARVATION_LIMIT {
        return selected, selected != 0;
      }
      return 0, false;
    }

    // ---- updates

    /** Shifts the entries after `offset` one place towards the head. */
    method ShiftDown(offset: nat)
      requires Valid() && offset < len
      modifies queue
      ensures forall k :: 0 <= k < offset ==> queue[RingIndex(head, k)] == ready[k]
      ensures forall k :: offset <= k < len - 1 ==> queue[RingIndex(head, k)] == ready[k + 1]
    {
      RingInjective(head);
      var shift := offset;
      while shift < len - 1
        invariant offset <= shift <= len - 1
        invariant forall k :: 0 <= k < len ==> queue[RingIndex(head, k)] == ready[if offset <= k < shift then k + 1 else k]
      {
        queue[RingIndex(head, shift)] := queue[RingIndex(head, shift + 1)];
        shift := shift + 1;
      }
    }

    /** Takes the entry at distance `offset` out of the ring, keeping the others in order. */
    method RemoveOffset(offset: nat) returns (removed: Entry)
      requires Valid() && offset < len
      modifies this`head, this`len, this`ready, queue
      ensures Valid() && removed == old(ready)[offset] && ready == RemoveAt(old(ready), offset)
    {
      removed := queue[RingIndex(head, offset)];
      ShiftDown(offset);
      DropLast(RemoveAt(ready, offset));
    }

    /** Clears the last entry of the ring; the ones before it are `rest`. */
    method DropLast(ghost rest: seq<Entry>)
      requires queue.Length == QUEUE_CAPACITY && head < QUEUE_CAPACITY && 0 < len <= QUEUE_CAPACITY
      requires blocked.Length == QUEUE_CAPACITY && blockedLen <= QUEUE_CAPACITY && waiting == blocked[..blockedLen]
      requires |rest| == len - 1 && forall k :: 0 <= k < len - 1 ==> rest[k] == queue[RingIndex(head, k)]
      modifies this`head, this`len, this`ready, queue
      ensures Valid() && ready == rest
    {
      RingInjective(head);
      queue[RingIndex(head, len - 1)] := EMPTY_ENTRY;
      len := len - 1;
      if len == 0 {
        head := 0;
      }
      ready := rest;
    }

    method RemoveTask(id: nat) returns (known: bool)
      requires Valid()
      modifies this`head, this`len, this`ready, queue
      ensures Valid() && (ready, known) == Remove(old(ready), id)
    {
      var found := Find(id);
      if found.Some? {
        var removed := RemoveOffset(found.value);
      }
      known := found.Some?;
    }

    method RemoveBlockedTask(id: nat) returns (known: bool)
      requires Valid()
      modifies this`blockedLen, this`waiting, blocked
      ensures Valid() && (waiting, known) == RemoveBlocked(old(waiting), id)
    {
      var found := FindBlocked(id);
      if found.None? {
        return false;
      }
      ShiftBlocked(found.value);
      blockedLen := blockedLen - 1;
      blocked[blockedLen] := 0;
      waiting := RemoveAt(waiting, found.value);
      assert blocked[..blockedLen] == waiting;
      known := true;
    }

    method ShiftBlocked(index: nat)
      requires Valid() && index < blockedLen
      modifies blocked
      ensures forall k :: 0 <= k < index ==> blocked[k] == waiting[k]
      ensures forall k :: index <= k < blockedLen - 1 ==> blocked[k] == waiting[k + 1]
    {
      var shift := index;
      while shift < blockedLen - 1
        invariant index <= shift <= blockedLen - 1
        invariant forall k :: 0 <= k < index ==> blocked[k] == waiting[k]
        invariant forall k :: index <= k < shift ==> blocked[k] == waiting[k + 1]
        invariant forall k :: shift < k < blockedLen ==> blocked[k] == waiting[k]
      {
        blocked[shift] := blocked[shift + 1];
        shift := shift + 1;
      }
    }

    method AddBlocked(id: nat)
      requires Valid() && blockedLen < QUEUE_CAPACITY
      modifies this`blockedLen, this`waiting, blocked
      ensures Valid() && waiting == old(waiting) + [id]
    {
      blocked[blockedLen] := id;
      blockedLen := blockedLen + 1;
      waiting := waiting + [id];
      assert blocked[..blockedLen] == waiting;
    }

    method EnqueueAt(id: nat, since: nat) returns (ok: bool)
      requires Valid()
      modifies this`len, this`ready, queue
      ensures Valid() && Model() == SchedModel.EnqueueAt(old(Model()), id, since).0
      ensures ok == SchedModel.EnqueueAt(old(Model()), id, since).1
    {
      if id == 0 {
        return false;
      }
      var found := Find(id);
      if found.Some? || current == id {
        return true;
      }
      if len >= QUEUE_CAPACITY {
        return false;
      }
      RingInjective(head);
      queue[RingIndex(head, len)] := Entry(id, since);
      len := len + 1;
      ready := ready + [Entry(id, since)];
      ok := true;
    }

    method BeginTask(id: nat)
      requires Valid()
      modifies this, queue, blocked
      ensures Valid() && Model() == Begin(old(Model()), id)
    {
      var wasReady := RemoveTask(id);
      var wasBlocked := RemoveBlockedTask(id);
      current := id;
      slice := 0;
    }

    method FinishTask(id: nat)
      requires Valid()
      modifies this, queue, blocked
      ensures Valid() && Model() == Finish(old(Model()), id)
    {
      if current == id {
        current := 0;
        slice := 0;
      }
      var wasReady := RemoveTask(id);
      var wasBlocked := RemoveBlockedTask(id);
    }

    method BlockTask(id: nat) returns (ok: bool)
      requires Valid()
      modifies this, queue, blocked
      ensures Valid() && Model() == Block(old(Model()), id).0 && ok == Block(old(Model()), id).1
    {
      if id == 0 {
        return false;
      }
      var already := FindBlocked(id);
      if already.Some? {
        return true;
      }
      if blockedLen >= QUEUE_CAPACITY {
        return false;
      }
      ok := Withdraw(id);
      if ok {
        AddBlocked(id);
      }
    }

    /** Takes a task off the processor or out of the ready queue. */
    method Withdraw(id: nat) returns (known: bool)
      requires Valid() && id != 0
      modifies this`current, this`slice, this`head, this`len, this`ready, queue
      ensures Valid() && known == (old(current) == id || IndexOf(old(ready), id).Some?)
      ensures current == (if old(current) == id then 0 else old(current))
      ensures slice == (if old(current) == id then 0 else old(slice))
      ensures ready == if old(current) == id then old(ready) else Remove(old(ready), id).0
    {
      if current == id {
        current := 0;
        slice := 0;
        known := true;
      } else {
        known := RemoveTask(id);
      }
    }

    method WakeTask(id: nat) returns (ok: bool)
      requires Valid()
      modifies this, queue, blocked
      ensures Valid() && Model() == Wake(old(Model()), id).0 && ok == Wake(old(Model()), id).1
    {
      if id == 0 {
        return false;
      }
      var found := Find(id);
      if current == id || found.Some? {
        return true;
      }
      var known := RemoveBlockedTask(id);
      if !known {
        return false;
      }
      ok := Requeue(id);
    }

    /** Queues a task that was just taken off the blocked list, or puts it back there. */
    method Requeue(id: nat) returns (ok: bool)
      requires Valid() && blockedLen < QUEUE_CAPACITY
      modifies this`len, this`ready, this`blockedLen, this`waiting, queue, blocked
      ensures Valid() && ok == SchedModel.EnqueueAt(old(Model()), id, ticks).1
      ensures Model() == if ok then SchedModel.EnqueueAt(old(Model()), id, ticks).0 else old(Model()).(blocked := old(waiting) + [id])
    {
      ok := EnqueueAt(id, ticks);
      if !ok {
        AddBlocked(id);
      }
    }

    method OnTimerTick()
      requires Valid()
      modifies this`ticks, this`slice
      ensures Valid() && Model() == Tick(old(Model()))
    {
      ticks := ticks + 1;
      if current != 0 {
        slice := slice + 1;
      }
    }

    method BlockCurrentAndDispatch(id: nat) returns (d: Decision)
      requires Valid()
      modifies this, queue, blocked
      ensures Valid() && Model() == BlockAndDispatch(old(Model()), id).0
      ensures d == BlockAndDispatch(old(Model()), id).1
    {
      if !initialized || id == 0 || current != id || len == 0 || blockedLen >= QUEUE_CAPACITY {
        return Stay(current);
      }
      var offset, guard := SelectNextOffset();
      if offset >= len {
        return Stay(current);
      }
      var next := RemoveOffset(offset);
      if next.task == 0 {
        return Stay(current);
      }
      var waited := Waited(next, ticks);
      AddBlocked(id);
      Run(next.task, waited, guard);
      d := Decision(true, id, next.task, waited, guard);
    }

    /** Puts `task` on the processor with a fresh slice and records its wait. */
    method Run(task: nat, waited: nat, guard: bool)
      requires Valid()
      modifies this`current, this`slice, this`maxWait, this`guards
      ensures Valid() && current == task && slice == 0 && maxWait == Max(old(maxWait), waited)
      ensures guards == old(guards) + (if guard then 1 else 0)
    {
      maxWait := Max(maxWait, waited);
      current := task;
      if guard {
        guards := guards + 1;
      }
      slice := 0;
    }

    method PreemptCurrent() returns (d: Decision)
      requires Valid()
      modifies this, queue, blocked
      ensures Valid() && Model() == Preempt(old(Model())).0 && d == Preempt(old(Model())).1
    {
      var previous := current;
      if !initialized || previous == 0 || len == 0 || slice < quantum {
        return Stay(previous);
      }
      var offset, guard := SelectNextOffset();
      if offset >= len {
        return Stay(previous);
      }
      var next := RemoveOffset(offset);
      if next.task == 0 {
        return Stay(previous);
      }
      d := RotateTo(next, guard);
    }

    /** Switches to the entry `next`, just taken from the queue; the preempted task goes to the tail. */
    method RotateTo(next: Entry, guard: bool) returns (d: Decision)
      requires Valid()
      modifies this, queue
      ensures Valid() && Model() == Rotate(old(Model()), next, guard).0
      ensures d == Rotate(old(Model()), next, guard).1
    {
      var previous := current;
      var waited := Waited(next, ticks);
      Vacate(waited);
      var ok := EnqueueAt(previous, ticks);
      if !ok {
        current := previous;
        var restored := EnqueueAt(next.task, next.since);
        return Stay(previous);
      }
      Run(next.task, waited, guard);
      d := Decision(true, previous, next.task, waited, guard);
    }

    method Vacate(waited: nat)
      requires Valid()
      modifies this`current, this`maxWait
      ensures Valid() && current == 0 && maxWait == Max(old(maxWait), waited)
    {
      maxWait := Max(maxWait, waited);
      current := 0;
    }
  }
}
