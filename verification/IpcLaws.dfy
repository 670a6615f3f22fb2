/** Laws of the IPC subsystem: FIFO delivery, conservation, exact revocation, clean unregistration. */
module IpcLaws {
  import opened Common
  import opened IpcModel
  import opened IpcLineage
  import opened IpcInvariant
  import opened IpcPreservation
  import opened IpcTransfer
  import opened IpcViews
  import opened IpcRuns

  // ---- delivery over a run

  /** Per registered task: what has been accepted for it and what it has received, in order. */
  datatype Logs = Logs(accepted: map<nat, seq<Message>>, delivered: map<nat, seq<Message>>)

  function Append(log: map<nat, seq<Message>>, id: nat, m: Message): map<nat, seq<Message>>
  {
    log[id := (if id in log then log[id] else []) + [m]]
  }

  /** An accepted message loses its attachment if the capability goes while the message is still queued. */
  function BaredLog(accepted: seq<Message>, delivered: nat, gone: set<nat>): seq<Message>
  {
    if delivered <= |accepted| then accepted[..delivered] + BaredAll(accepted[delivered..], gone) else accepted
  }

  ghost function BaredLogs(logs: Logs, gone: set<nat>): Logs
  {
    logs.(accepted := map id | id in logs.accepted ::
      BaredLog(logs.accepted[id], if id in logs.delivered then |logs.delivered[id]| else 0, gone))
  }

  ghost function Record(logs: Logs, event: Event): Logs
  {
    match event
    case Quiet => logs
    case Opened(id) => Logs(logs.accepted[id := []], logs.delivered[id := []])
    case Closed(id, gone) => Logs(BaredLogs(logs, gone).accepted - {id}, logs.delivered - {id})
    case Accepted(id, m) => logs.(accepted := Append(logs.accepted, id, m))
    case Delivered(id, m) => logs.(delivered := Append(logs.delivered, id, m))
    case Cleared(gone) => BaredLogs(logs, gone)
  }

  ghost function LogsOf(ops: seq<Op>): Logs
    requires AllNonZero(ops)
  {
    if ops == [] then Logs(map[], map[])
    else Record(LogsOf(ops[..|ops| - 1]), EventOf(FromBoot(true, ops[..|ops| - 1]), ops[|ops| - 1]))
  }

  ghost predicate Increasing(log: seq<Message>, bound: nat)
  {
    && (forall k :: 0 <= k < |log| ==> log[k].sequence < bound)
    && (forall k, l :: 0 <= k < l < |log| ==> log[k].sequence < log[l].sequence)
  }

  ghost predicate Accounted(mail: map<nat, seq<Message>>, nextSequence: nat, logs: Logs)
  {
    forall id :: id in mail ==>
      && id in logs.accepted && id in logs.delivered
      && logs.accepted[id] == logs.delivered[id] + mail[id]
      && Increasing(logs.accepted[id], nextSequence)
  }

  lemma StepSequence(s: State, op: Op)
    requires Inv(s) && s.initialized
    ensures Step(s, op).initialized
    ensures EventOf(s, op).Accepted? ==>
              EventOf(s, op).message.sequence == s.nextSequence && Step(s, op).nextSequence == s.nextSequence + 1
    ensures !EventOf(s, op).Accepted? ==> Step(s, op).nextSequence == s.nextSequence
  {
    match op
    case OpInit =>
    case OpRegister(id) =>
    case OpUnregister(id) =>
    case OpGrant(owner, target, rights) =>
    case OpRevoke(owner, handle) =>
    case OpSend(sender, receiver, bytes) => var i := SendCases(s, sender, receiver, bytes);
    case OpSendCapability(sender, handle, bytes) =>
      var receiver := SendCapabilityCases(s, sender, handle, bytes);
      var i := SendCases(s, sender, receiver, bytes);
    case OpTransfer(sender, destination, source, requested, bytes) =>
      var receiver, i, slot, j, t, from := TransferCases(s, sender, destination, source, requested, bytes);
    case OpReceive(receiver, capacity) => var i := ReceiveCases(s, receiver, capacity);
    case OpResolve(owner, handle, required) => ResolveKeepsState(s, owner, handle, required);
    case OpSetWaiting(id, waiting) =>
  }

  lemma AccountedStep(
    before: map<nat, seq<Message>>, event: Event, after: map<nat, seq<Message>>, next: nat, logs: Logs)
    requires Accounted(before, next, logs) && Follows(before, event, after)
    requires event.Accepted? ==> event.message.sequence == next
    ensures Accounted(after, if event.Accepted? then next + 1 else next, Record(logs, event))
  {
    forall id | id in after
      ensures id in Record(logs, event).accepted && id in Record(logs, event).delivered
      ensures Record(logs, event).accepted[id] == Record(logs, event).delivered[id] + after[id]
      ensures Increasing(Record(logs, event).accepted[id], if event.Accepted? then next + 1 else next)
    {
      RecordAt(before, event, after, next, logs, id);
    }
  }

  lemma RecordAt(
    before: map<nat, seq<Message>>, event: Event, after: map<nat, seq<Message>>, next: nat, logs: Logs, id: nat)
    requires id in before ==> id in logs.accepted && id in logs.delivered
                              && logs.accepted[id] == logs.delivered[id] + before[id]
                              && Increasing(logs.accepted[id], next)
    requires Follows(before, event, after) && id in after
    requires event.Accepted? ==> event.message.sequence == next
    ensures id in Record(logs, event).accepted && id in Record(logs, event).delivered
    ensures Record(logs, event).accepted[id] == Record(logs, event).delivered[id] + after[id]
    ensures Increasing(Record(logs, event).accepted[id], if event.Accepted? then next + 1 else next)
  {
    match event
    case Quiet =>
    case Opened(x) =>
    case Closed(x, gone) => BaredAt(logs, before[id], gone, id, next);
    case Accepted(x, p) =>
      if x == id { assert Record(logs, event).accepted[id] == logs.accepted[id] + [p]; }
    case Delivered(x, p) =>
      if x == id { assert before[id] == [p] + after[id]; }
    case Cleared(gone) => BaredAt(logs, before[id], gone, id, next);
  }

  lemma BaredAt(logs: Logs, queue: seq<Message>, gone: set<nat>, id: nat, next: nat)
    requires id in logs.accepted && id in logs.delivered && logs.accepted[id] == logs.delivered[id] + queue && Increasing(logs.accepted[id], next)
    ensures BaredLogs(logs, gone).accepted[id] == logs.delivered[id] + BaredAll(queue, gone)
    ensures Increasing(BaredLogs(logs, gone).accepted[id], next)
  {
    var (all, n) := (logs.accepted[id], |logs.delivered[id]|);
    assert all[..n] == logs.delivered[id] && all[n..] == queue;
    var log := BaredLogs(logs, gone).accepted[id];
    forall k | 0 <= k < |log| ensures log[k].sequence == all[k].sequence { if k >= n { assert log[k] == Bared(queue[k - n], gone); } }
  }

  /**
   In every run, what has been accepted for a registered task is exactly what it has received
   followed by what is still queued: sender, sequence number, bytes and attachment, the attachment
   taken off exactly if its capability went while the message was queued. Sequence numbers strictly
   increase; nothing is lost, duplicated or reordered.
   */
  lemma {:induction false} DeliveryIsFifo(ops: seq<Op>)
    requires AllNonZero(ops)
    ensures var s := FromBoot(true, ops);
            s.initialized && Accounted(Mail(s.endpoints), s.nextSequence, LogsOf(ops))
  {
    if ops == [] {
      BootAccounted();
    } else {
      var init := ops[..|ops| - 1];
      DeliveryIsFifo(init);
      StepAccounted(FromBoot(true, init), ops[|ops| - 1], LogsOf(init));
    }
  }

  lemma BootAccounted()
    ensures Inv(Boot(true)) && Boot(true).initialized
    ensures Accounted(Mail(Boot(true).endpoints), Boot(true).nextSequence, Logs(map[], map[]))
  {
    BootInv(true);
    assert Owners(Boot(true).endpoints) == {};
  }

  lemma StepAccounted(s: State, op: Op, logs: Logs)
    requires Inv(s) && NonZeroIds(op) && s.initialized && Accounted(Mail(s.endpoints), s.nextSequence, logs)
    ensures Inv(Step(s, op)) && Step(s, op).initialized
    ensures Accounted(Mail(Step(s, op).endpoints), Step(s, op).nextSequence, Record(logs, EventOf(s, op)))
  {
    StepKeepsInv(s, op);
    StepRefinesMail(s, op);
    StepSequence(s, op);
    AccountedStep(Mail(s.endpoints), EventOf(s, op), Mail(Step(s, op).endpoints), s.nextSequence, logs);
  }

  // ---- exact revocation

  /** `handle` is the name `owner` has for the active capability in slot `slot` of its endpoint `i`. */
  ghost predicate Holds(eps: seq<Endpoint>, owner: nat, handle: nat, i: int, slot: int)
  {
    Live(eps, i, slot) && eps[i].owner == owner != 0 && handle == Encode(slot, CapAt(eps, i, slot).generation)
  }

  lemma HeldLookup(s: State, owner: nat, handle: nat, i: nat, slot: nat)
    requires Inv(s) && Holds(s.endpoints, owner, handle, i, slot)
    ensures Lookup(s.endpoints, owner, handle) == Ok((i, slot)) && Decode(handle) == Some((slot, CapAt(s.endpoints, i, slot).generation))
  {
    assert CapOk(s.endpoints, i, slot);
    FindUnique(s.endpoints, i);
    EncodeDecode(slot, CapAt(s.endpoints, i, slot).generation);
  }

  /** A handle can be revoked exactly by the task that holds the capability it names, whichever slot that is in. */
  lemma RevokeIff(s: State, owner: nat, handle: nat)
    requires Inv(s)
    ensures Revoke(s, owner, handle).1.Ok? <==> exists i: nat, slot: nat :: Holds(s.endpoints, owner, handle, i, slot)
    ensures Revoke(s, owner, handle).1.Err? ==> Revoke(s, owner, handle).0 == s
  {
    var found := Lookup(s.endpoints, owner, handle);
    if found.Ok? {
      var (i, slot) := found.value;
      assert TableOk(s.endpoints, i) && CapOk(s.endpoints, i, slot);
      DecodeEncode(handle);
      assert Holds(s.endpoints, owner, handle, i, slot);
    }
    if exists i: nat, slot: nat :: Holds(s.endpoints, owner, handle, i, slot) {
      var i: nat, slot: nat :| Holds(s.endpoints, owner, handle, i, slot);
      HeldLookup(s, owner, handle, i, slot);
    }
  }

  /** `h` is what revoking the capability of generation `g` in `slot` takes away. */
  ghost predicate Gone(eps: seq<Endpoint>, slot: nat, g: nat, h: nat)
  {
    InBranch(eps, h, g) && (slot == 0 ==> h != g)
  }

  /**
   Revocation removes precisely the named capability and its transitive descendants (for the
   root in slot 0, precisely the strict descendants) and leaves every other slot as it was.
   */
  lemma RevokeExact(s: State, owner: nat, handle: nat, i: nat, slot: nat)
    requires Inv(s) && Holds(s.endpoints, owner, handle, i, slot)
    ensures var (after, g) := (Revoke(s, owner, handle).0.endpoints, CapAt(s.endpoints, i, slot).generation);
            && Revoke(s, owner, handle).1.Ok?
            && (forall j, t :: Live(after, j, t) <==>
                                 Live(s.endpoints, j, t) && !Gone(s.endpoints, slot, g, CapAt(s.endpoints, j, t).generation))
            && (forall j, t :: Live(after, j, t) ==> CapAt(after, j, t) == CapAt(s.endpoints, j, t))
  {
    HeldLookup(s, owner, handle, i, slot);
    var g := CapAt(s.endpoints, i, slot).generation;
    var gens := RevokedBy(s.endpoints, slot, g);
    var after := Erase(s.endpoints, gens);
    forall j, t
      ensures Live(after, j, t) <==>
                Live(s.endpoints, j, t) && !Gone(s.endpoints, slot, g, CapAt(s.endpoints, j, t).generation)
      ensures Live(after, j, t) ==> CapAt(after, j, t) == CapAt(s.endpoints, j, t)
    {
      EraseLive(s.endpoints, gens, j, t);
      if Live(s.endpoints, j, t) { LiveGeneration(s.endpoints, j, t); }
    }
  }

  /** The slots that lose their capability. */
  ghost function LostSlots(before: seq<Endpoint>, after: seq<Endpoint>): set<(int, int)> { LiveSlots(before) - LiveSlots(after) }

  /** The queued messages that lose their attachment. */
  ghost function BaredMessages(before: seq<Endpoint>, after: seq<Endpoint>): set<(int, int)>
    requires |before| == |after| && forall i :: 0 <= i < |before| ==> |before[i].queue| == |after[i].queue|
  {
    set i, k | 0 <= i < |before| && 0 <= k < |before[i].queue| && before[i].queue[k].handle != 0 && after[i].queue[k].handle == 0 :: (i, k)
  }

  /** The report counts the capabilities removed, those of them other than the one named, and the attachments taken off. */
  lemma RevokeReport(s: State, owner: nat, handle: nat, i: nat, slot: nat)
    requires Inv(s) && Holds(s.endpoints, owner, handle, i, slot)
    ensures var (after, r) := Revoke(s, owner, handle);
            && |after.endpoints| == |s.endpoints| && (forall j :: 0 <= j < |s.endpoints| ==> |s.endpoints[j].queue| == |after.endpoints[j].queue|)
            && r.Ok? && r.value.revoked == |LostSlots(s.endpoints, after.endpoints)|
            && r.value.descendants == |LostSlots(s.endpoints, after.endpoints) - {(i, slot)}|
            && r.value.stripped == |BaredMessages(s.endpoints, after.endpoints)|
  {
    HeldLookup(s, owner, handle, i, slot);
    var gens := RevokedBy(s.endpoints, slot, CapAt(s.endpoints, i, slot).generation);
    LostCount(s.endpoints, gens, i, slot);
    AttachedBared(s, gens);
    ReportShape(s, owner, handle, i, slot, gens);
  }

  lemma ReportShape(s: State, owner: nat, handle: nat, i: nat, slot: nat, gens: set<nat>)
    requires Live(s.endpoints, i, slot) && Lookup(s.endpoints, owner, handle) == Ok((i, slot))
    requires gens == RevokedBy(s.endpoints, slot, CapAt(s.endpoints, i, slot).generation)
    ensures var (after, r) := Revoke(s, owner, handle);
            && after.endpoints == Erase(s.endpoints, gens) && r.Ok? && r.value.revoked == |gens|
            && r.value.descendants == |gens - {CapAt(s.endpoints, i, slot).generation}| && r.value.stripped == |Attached(s.endpoints, gens)|
  {
    var g := CapAt(s.endpoints, i, slot).generation;
    assert slot == 0 ==> gens - {g} == gens;
  }

  lemma AttachedBared(s: State, gens: set<nat>)
    requires Inv(s)
    ensures var after := Erase(s.endpoints, gens);
            && |after| == |s.endpoints| && (forall j :: 0 <= j < |s.endpoints| ==> |s.endpoints[j].queue| == |after[j].queue|)
            && Attached(s.endpoints, gens) == BaredMessages(s.endpoints, after)
  {
    var (eps, after) := (s.endpoints, Erase(s.endpoints, gens));
    forall j, k | 0 <= j < |eps| && 0 <= k < |eps[j].queue|
      ensures Decode(eps[j].queue[k].handle).Some? && HandleGeneration(eps[j].queue[k].handle) in gens
              <==> eps[j].queue[k].handle != 0 && after[j].queue[k].handle == 0
    {
      assert QueueOk(eps[j], s.nextSequence) && AttachmentOk(eps[j], k);
      assert Decode(0).None?;
    }
  }

  ghost function GenerationAt(eps: seq<Endpoint>): ((int, int)) -> nat
  {
    (p: (int, int)) => if Live(eps, p.0, p.1) then CapAt(eps, p.0, p.1).generation else 0
  }

  /** Generations are unique, so as many slots are lost as generations. */
  lemma LostCount(eps: seq<Endpoint>, gens: set<nat>, i: nat, slot: nat)
    requires UniqueGenerations(eps) && gens <= Generations(eps) && Live(eps, i, slot)
    ensures var lost := LostSlots(eps, Erase(eps, gens));
            |lost| == |gens| && |lost - {(i, slot)}| == |gens - {CapAt(eps, i, slot).generation}|
  {
    var (lost, g) := (LostSlots(eps, Erase(eps, gens)), CapAt(eps, i, slot).generation);
    forall p | p in lost ensures Live(eps, p.0, p.1) && GenerationAt(eps)(p) in gens { EraseLive(eps, gens, p.0, p.1); }
    forall h | h in gens ensures exists p :: p in lost && GenerationAt(eps)(p) == h {
      var j, t :| 0 <= j < |eps| && 0 <= t < |eps[j].caps| && Live(eps, j, t) && CapAt(eps, j, t).generation == h;
      EraseLive(eps, gens, j, t);
      assert (j, t) in lost && GenerationAt(eps)((j, t)) == h;
    }
    ImageSize(lost, gens, GenerationAt(eps));
    ImageSize(lost - {(i, slot)}, gens - {g}, GenerationAt(eps));
  }

  /**
   Revocation strips precisely the queued attachments that carried a revoked generation; queue
   order, payloads, owners and wait flags stay as they were.
   */
  lemma RevokeExactQueues(s: State, owner: nat, handle: nat, i: nat, slot: nat, j: int, k: int)
    requires Inv(s) && Holds(s.endpoints, owner, handle, i, slot)
    requires 0 <= j < |s.endpoints| && 0 <= k < |s.endpoints[j].queue|
    ensures var (after, g) := (Revoke(s, owner, handle).0.endpoints, CapAt(s.endpoints, i, slot).generation);
            && |after| == |s.endpoints| && |after[j].queue| == |s.endpoints[j].queue|
            && after[j].owner == s.endpoints[j].owner && after[j].waiting == s.endpoints[j].waiting
            && after[j].queue[k] == Stripped(s.endpoints, slot, g, s.endpoints[j].queue[k])
  {
    HeldLookup(s, owner, handle, i, slot);
    assert QueueOk(s.endpoints[j], s.nextSequence);
    StrippedIsStrip(s.endpoints, slot, CapAt(s.endpoints, i, slot).generation, j, k);
  }

  /** The message with its attachment removed if that was revoked. */
  ghost function Stripped(eps: seq<Endpoint>, slot: nat, g: nat, m: Message): Message
  {
    if m.handle != 0 && Gone(eps, slot, g, HandleGeneration(m.handle)) then m.(handle := 0, rights := {}) else m
  }

  lemma StrippedIsStrip(eps: seq<Endpoint>, slot: nat, g: nat, j: int, k: int)
    requires 0 <= j < |eps| && 0 <= k < |eps[j].queue| && AttachmentOk(eps[j], k)
    ensures Erase(eps, RevokedBy(eps, slot, g))[j].queue[k] == Stripped(eps, slot, g, eps[j].queue[k])
  {
    var m := eps[j].queue[k];
    if m.handle != 0 {
      LiveGeneration(eps, j, Decode(m.handle).value.0);
    } else {
      assert Decode(m.handle).None?;
    }
  }

  /** No revoked capability is attached twice, so stripping never exceeds revoking. */
  lemma AttachedOnce(s: State, i: int, k: int, j: int, l: int)
    requires Inv(s) && 0 <= i < |s.endpoints| && 0 <= j < |s.endpoints|
    requires 0 <= k < |s.endpoints[i].queue| && 0 <= l < |s.endpoints[j].queue|
    requires s.endpoints[i].queue[k].handle != 0 && s.endpoints[j].queue[l].handle != 0
    requires HandleGeneration(s.endpoints[i].queue[k].handle) == HandleGeneration(s.endpoints[j].queue[l].handle)
    ensures i == j && k == l
  {
    assert AttachmentOk(s.endpoints[i], k) && AttachmentOk(s.endpoints[j], l);
    assert Live(s.endpoints, i, Decode(s.endpoints[i].queue[k].handle).value.0);
    assert Live(s.endpoints, j, Decode(s.endpoints[j].queue[l].handle).value.0);
    DecodeEncode(s.endpoints[i].queue[k].handle);
    DecodeEncode(s.endpoints[j].queue[l].handle);
  }

  // ---- unregistration

  /** The capability in slot (k, u) is held by endpoint `i` or aims at its owner. */
  ghost predicate Tied(eps: seq<Endpoint>, i: nat, id: nat, k: int, u: int)
  {
    Live(eps, k, u) && (k == i || CapAt(eps, k, u).target == id)
  }

  /** `g` is a tied capability or descends from one. */
  ghost predicate Doomed(eps: seq<Endpoint>, i: nat, id: nat, g: nat)
  {
    exists k, u :: Tied(eps, i, id, k, u) && InBranch(eps, g, CapAt(eps, k, u).generation)
  }

  lemma DoomedIsBranches(eps: seq<Endpoint>, i: nat, id: nat, g: nat)
    requires g in Generations(eps)
    ensures g in Branches(eps, CleanupRoots(eps, i, id)) <==> Doomed(eps, i, id, g)
  {
    var roots := CleanupRoots(eps, i, id);
    if g in Branches(eps, roots) {
      var r :| r in roots && InBranch(eps, g, r);
      CleanupRootLive(eps, i, id, r);
      var k, u :| Live(eps, k, u) && CapAt(eps, k, u).generation == r && (k == i || CapAt(eps, k, u).target == id);
      assert Tied(eps, i, id, k, u);
    }
    if Doomed(eps, i, id, g) {
      var k, u :| Tied(eps, i, id, k, u) && InBranch(eps, g, CapAt(eps, k, u).generation);
      assert Live(eps, k, u);
      assert CapAt(eps, k, u).generation in roots;
    }
  }

  /**
   After `unregister(id)` the surviving capabilities are exactly those that were neither held by
   `id` nor aimed at `id` nor descended from such a one; in particular nothing names `id` any more.
   */
  lemma UnregisterExact(s: State, id: nat)
    requires Inv(s) && Find(s.endpoints, id).Some?
    ensures var after := Unregister(s, id).0.endpoints;
            var i := Find(s.endpoints, id).value;
            forall j, t :: Live(after, j, t) <==>
              Live(s.endpoints, j, t) && !Doomed(s.endpoints, i, id, CapAt(s.endpoints, j, t).generation)
    ensures var after := Unregister(s, id).0.endpoints;
            forall j, t :: Live(after, j, t) ==>
              CapAt(after, j, t) == CapAt(s.endpoints, j, t) && j != Find(s.endpoints, id).value
              && CapAt(after, j, t).target != id
  {
    var eps := s.endpoints;
    var i := Find(eps, id).value;
    var gens := Branches(eps, CleanupRoots(eps, i, id));
    var after := Erase(eps, gens)[i := EmptyEndpoint(0)];
    CleanupBranches(eps, i, id);
    forall j, t
      ensures Live(after, j, t) <==> Live(eps, j, t) && !Doomed(eps, i, id, CapAt(eps, j, t).generation)
      ensures Live(after, j, t) ==>
                CapAt(after, j, t) == CapAt(eps, j, t) && j != i && CapAt(after, j, t).target != id
    {
      EraseLive(eps, gens, j, t);
      if Live(eps, j, t) {
        LiveGeneration(eps, j, t);
        DoomedIsBranches(eps, i, id, CapAt(eps, j, t).generation);
      }
    }
  }

  /** Every other task keeps its root capability, its wait flag and all its messages, each attachment unless that went. */
  lemma UnregisterSpares(s: State, id: nat, j: int)
    requires Inv(s) && Find(s.endpoints, id).Some? && 0 <= j < |s.endpoints| && j != Find(s.endpoints, id).value
    ensures var after := Unregister(s, id).0.endpoints;
            && |after| == |s.endpoints| && Find(s.endpoints, id).value < |after|
            && after[Find(s.endpoints, id).value] == EmptyEndpoint(0)
            && after[j].owner == s.endpoints[j].owner && after[j].waiting == s.endpoints[j].waiting
            && |after[j].queue| == |s.endpoints[j].queue|
            && (forall k :: 0 <= k < |after[j].queue| ==> after[j].queue[k] == Freed(s.endpoints, Find(s.endpoints, id).value, id, s.endpoints[j].queue[k]))
            && (after[j].owner != 0 && id != 0 ==>
                  Live(s.endpoints, j, 0) && Live(after, j, 0) && CapAt(after, j, 0) == CapAt(s.endpoints, j, 0))
  {
    var eps := s.endpoints;
    var i := Find(eps, id).value;
    var gens := Branches(eps, CleanupRoots(eps, i, id));
    CleanupBranches(eps, i, id);
    forall k | 0 <= k < |eps[j].queue| ensures StripMessage(eps[j].queue[k], gens) == Freed(eps, i, id, eps[j].queue[k]) {
      FreedIsStrip(s, i, id, j, k);
    }
    assert TableOk(eps, j);
    EraseLive(eps, gens, j, 0);
  }

  /** The message with its attachment removed if that went with the task. */
  ghost function Freed(eps: seq<Endpoint>, i: nat, id: nat, m: Message): Message
  {
    if m.handle != 0 && Doomed(eps, i, id, HandleGeneration(m.handle)) then m.(handle := 0, rights := {}) else m
  }

  lemma FreedIsStrip(s: State, i: nat, id: nat, j: int, k: int)
    requires Inv(s) && 0 <= j < |s.endpoints| && 0 <= k < |s.endpoints[j].queue|
    ensures StripMessage(s.endpoints[j].queue[k], Branches(s.endpoints, CleanupRoots(s.endpoints, i, id)))
            == Freed(s.endpoints, i, id, s.endpoints[j].queue[k])
  {
    var m := s.endpoints[j].queue[k];
    assert QueueOk(s.endpoints[j], s.nextSequence) && AttachmentOk(s.endpoints[j], k);
    if m.handle != 0 {
      CarriedLive(s, j, k);
      DoomedIsBranches(s.endpoints, i, id, HandleGeneration(m.handle));
    } else {
      assert Decode(m.handle).None?;
    }
  }

  /** Unregistering succeeds exactly for a registered task and reports the messages it drops. */
  lemma UnregisterAnswer(s: State, id: nat)
    requires Inv(s) && id != 0
    ensures Unregister(s, id).1.Ok? <==> exists i :: 0 <= i < |s.endpoints| && s.endpoints[i].owner == id
    ensures forall i :: 0 <= i < |s.endpoints| && s.endpoints[i].owner == id ==> Unregister(s, id).1 == Ok(|s.endpoints[i].queue|)
    ensures Unregister(s, id).1.Err? ==> Unregister(s, id) == (s, Err(EndpointMissing))
  {
    forall i | 0 <= i < |s.endpoints| && s.endpoints[i].owner == id ensures Find(s.endpoints, id) == Some(i) { FindUnique(s.endpoints, i); }
  }

  // ---- revoked handles

  ghost function AfterRevoke(s: State, owner: nat, handle: nat): (r: State)
    requires Inv(s)
    ensures Inv(r)
  {
    RevokeKeepsInv(s, owner, handle);
    Revoke(s, owner, handle).0
  }

  /**
   A handle revoked from slot 1 or above never resolves again, for any owner and any rights, in any
   run whose generation counter does not reach the wrap-around point.
   */
  lemma RevokedHandleDies(s: State, owner: nat, handle: nat, ops: seq<Op>, other: nat, required: Rights)
    requires Inv(s) && s.initialized && NotWrapped(s)
    requires Revoke(s, owner, handle).1.Ok? && Decode(handle).value.0 != 0
    requires AllNonZero(ops) && NeverWraps(AfterRevoke(s, owner, handle), ops)
    ensures Resolve(Reach(AfterRevoke(s, owner, handle), ops), other, handle, required).1.Err?
  {
    var after := AfterRevoke(s, owner, handle);
    var (slot, g) := Decode(handle).value;
    var i := Find(s.endpoints, owner).value;
    assert Live(s.endpoints, i, slot) && CapAt(s.endpoints, i, slot).generation == g;
    LiveGeneration(s.endpoints, i, slot);
    BranchRoot(s.endpoints, g);
    EraseGenerations(s.endpoints, RevokedBy(s.endpoints, slot, g));
    RevokeGenerations(s, owner, handle);
    assert Dead(after, g);
    RevokedStaysDead(after, ops, handle, other, required);
  }
}
