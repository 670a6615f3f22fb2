/** Whole runs of the IPC subsystem: the invariant, generation safety and mailbox refinement. */
module IpcRuns {
  import opened Common
  import opened IpcModel
  import opened IpcLineage
  import opened IpcInvariant
  import opened IpcPreservation
  import opened IpcViews
  import opened IpcTransfer

  datatype Op =
    | OpInit
    | OpRegister(id: nat)
    | OpUnregister(id: nat)
    | OpGrant(owner: nat, target: nat, rights: Rights)
    | OpRevoke(owner: nat, handle: nat)
    | OpSend(sender: nat, receiver: nat, bytes: seq<Byte>)
    | OpSendCapability(sender: nat, handle: nat, bytes: seq<Byte>)
    | OpTransfer(sender: nat, destination: nat, source: nat, requested: Rights, bytes: seq<Byte>)
    | OpReceive(receiver: nat, capacity: nat)
    | OpResolve(owner: nat, handle: nat, required: Rights)
    | OpSetWaiting(id: nat, waiting: bool)

  /** Task ids are never 0; `register` enforces this, the other entry points rely on it. */
  predicate NonZeroIds(op: Op)
  {
    match op
    case OpUnregister(id) => id != 0
    case OpGrant(owner, target, _) => owner != 0 && target != 0
    case OpSend(_, receiver, _) => receiver != 0
    case OpSetWaiting(id, _) => id != 0
    case _ => true
  }

  ghost function Step(s: State, op: Op): State
    requires CounterOk(s)
  {
    match op
    case OpInit => Init(s)
    case OpRegister(id) => Register(s, id).0
    case OpUnregister(id) => Unregister(s, id).0
    case OpGrant(owner, target, rights) => Grant(s, owner, target, rights).0
    case OpRevoke(owner, handle) => Revoke(s, owner, handle).0
    case OpSend(sender, receiver, bytes) => SendTo(s, sender, receiver, bytes).0
    case OpSendCapability(sender, handle, bytes) => SendCapability(s, sender, handle, bytes).0
    case OpTransfer(sender, destination, source, requested, bytes) =>
      Transfer(s, sender, destination, source, requested, bytes).0
    case OpReceive(receiver, capacity) => ReceiveFrom(s, receiver, capacity).0
    case OpResolve(owner, handle, required) => Resolve(s, owner, handle, required).0
    case OpSetWaiting(id, waiting) => SetWaiting(s, id, waiting).0
  }

  /** Every operation keeps the invariant. */
  lemma StepKeepsInv(s: State, op: Op)
    requires Inv(s) && NonZeroIds(op)
    ensures Inv(Step(s, op))
  {
    match op
    case OpInit => BootInv(true);
    case OpRegister(id) => RegisterKeepsInv(s, id);
    case OpUnregister(id) => UnregisterKeepsInv(s, id);
    case OpGrant(owner, target, rights) => GrantKeepsInv(s, owner, target, rights);
    case OpRevoke(owner, handle) => RevokeKeepsInv(s, owner, handle);
    case OpSend(sender, receiver, bytes) => SendKeepsInv(s, sender, receiver, bytes);
    case OpSendCapability(sender, handle, bytes) => SendCapabilityKeepsInv(s, sender, handle, bytes);
    case OpTransfer(sender, destination, source, requested, bytes) =>
      TransferKeepsInv(s, sender, destination, source, requested, bytes);
    case OpReceive(receiver, capacity) => ReceiveKeepsInv(s, receiver, capacity);
    case OpResolve(owner, handle, required) => ResolveKeepsState(s, owner, handle, required);
    case OpSetWaiting(id, waiting) => SetWaitingKeepsInv(s, id, waiting);
  }

  predicate AllNonZero(ops: seq<Op>) { forall k :: 0 <= k < |ops| ==> NonZeroIds(ops[k]) }

  /** The state a run of `ops` from `s` ends in. The invariant holds in every state so reached. */
  ghost function Reach(s: State, ops: seq<Op>): (r: State)
    requires Inv(s) && AllNonZero(ops)
    ensures Inv(r)
  {
    if ops == [] then s
    else
      var before := Reach(s, ops[..|ops| - 1]);
      StepKeepsInv(before, ops[|ops| - 1]);
      Step(before, ops[|ops| - 1])
  }

  /** The state a run from boot ends in. */
  ghost function FromBoot(initialized: bool, ops: seq<Op>): (r: State)
    requires AllNonZero(ops)
    ensures Inv(r)
  {
    BootInv(initialized);
    Reach(Boot(initialized), ops)
  }

  // ---- revoked handles stay dead

  /** Generations already handed out are below the counter: it has not wrapped yet. */
  ghost predicate NotWrapped(s: State)
  {
    s.nextGeneration >= 1 && forall g :: g in Generations(s.endpoints) ==> g < s.nextGeneration
  }

  lemma AllocateNext(s: State)
    requires ShapeOk(s.endpoints) && CounterOk(s) && NotWrapped(s)
    ensures Allocate(s).1 == s.nextGeneration
  {
  }

  /** Either no generation became active, or exactly the one at the counter, which then moved on. */
  ghost predicate OnlyNext(s: State, after: State)
  {
    && after.initialized == s.initialized
    && (|| (Generations(after.endpoints) <= Generations(s.endpoints) && after.nextGeneration == s.nextGeneration)
        || (Generations(after.endpoints) == Generations(s.endpoints) + {s.nextGeneration}
            && after.nextGeneration == NextGeneration(s.nextGeneration)))
  }

  /** Until the counter wraps, a step makes active only generations that were never used before. */
  lemma StepGenerations(s: State, op: Op)
    requires Inv(s) && NonZeroIds(op) && NotWrapped(s) && s.initialized
    ensures OnlyNext(s, Step(s, op))
  {
    match op
    case OpInit =>
    case OpRegister(id) => RegisterGenerations(s, id);
    case OpUnregister(id) => UnregisterGenerations(s, id);
    case OpGrant(owner, target, rights) => GrantGenerations(s, owner, target, rights);
    case OpRevoke(owner, handle) => RevokeGenerations(s, owner, handle);
    case OpSend(sender, receiver, bytes) => SendGenerations(s, sender, receiver, bytes);
    case OpSendCapability(sender, handle, bytes) =>
      var receiver := SendCapabilityCases(s, sender, handle, bytes);
      SendGenerations(s, sender, receiver, bytes);
    case OpTransfer(sender, destination, source, requested, bytes) =>
      TransferGenerations(s, sender, destination, source, requested, bytes);
    case OpReceive(receiver, capacity) =>
      var i := ReceiveCases(s, receiver, capacity);
      SameCapsGenerations(s.endpoints, ReceiveFrom(s, receiver, capacity).0.endpoints);
    case OpResolve(owner, handle, required) => ResolveKeepsState(s, owner, handle, required);
    case OpSetWaiting(id, waiting) => SameCapsGenerations(s.endpoints, SetWaiting(s, id, waiting).0.endpoints);
  }

  lemma SendGenerations(s: State, sender: nat, receiver: nat, bytes: seq<Byte>)
    ensures OnlyNext(s, SendTo(s, sender, receiver, bytes).0)
  {
    var i := SendCases(s, sender, receiver, bytes);
    SameCapsGenerations(s.endpoints, SendTo(s, sender, receiver, bytes).0.endpoints);
  }

  lemma UnregisterGenerations(s: State, id: nat)
    ensures OnlyNext(s, Unregister(s, id).0)
  {
    if Find(s.endpoints, id).Some? {
      var i := Find(s.endpoints, id).value;
      var gens := Branches(s.endpoints, CleanupRoots(s.endpoints, i, id));
      EraseGenerations(s.endpoints, gens);
      DropEndpointGenerations(Erase(s.endpoints, gens), i);
    }
  }

  lemma GrantGenerations(s: State, owner: nat, target: nat, rights: Rights)
    requires Inv(s) && NotWrapped(s)
    ensures OnlyNext(s, Grant(s, owner, target, rights).0)
  {
    if Grant(s, owner, target, rights).1.Ok? {
      AllocateNext(s);
      var i := Find(s.endpoints, owner).value;
      PutCapGenerations(s.endpoints, i, FreeSlot(s.endpoints[i].caps).value,
                        Capability(target, s.nextGeneration, 0, 0, rights, true));
    }
  }

  lemma RevokeGenerations(s: State, owner: nat, handle: nat)
    ensures OnlyNext(s, Revoke(s, owner, handle).0)
  {
    if Revoke(s, owner, handle).1.Ok? {
      var (slot, g) := Decode(handle).value;
      EraseGenerations(s.endpoints, RevokedBy(s.endpoints, slot, g));
    }
  }

  lemma TransferGenerations(s: State, sender: nat, destination: nat, source: nat, requested: Rights, bytes: seq<Byte>)
    requires Inv(s) && NotWrapped(s)
    ensures OnlyNext(s, Transfer(s, sender, destination, source, requested, bytes).0)
  {
    var receiver, i, slot, j, t, from := TransferCases(s, sender, destination, source, requested, bytes);
    if Transfer(s, sender, destination, source, requested, bytes).1.Ok? {
      CommitGenerations(s, sender, receiver, i, slot, j, t, from, requested, bytes);
    }
  }

  lemma CommitGenerations(
    s: State, sender: nat, receiver: nat, i: nat, slot: nat, j: int, t: int, from: Capability, requested: Rights, bytes: seq<Byte>)
    requires Inv(s) && NotWrapped(s) && Committable(s, receiver, i, slot, j, t, from, requested, bytes)
    ensures OnlyNext(s, Commit(s, sender, receiver, i, slot, from, requested, bytes).0)
  {
    AllocateNext(s);
    CommitEffect(s, sender, receiver, i, slot, from, requested, bytes);
    var child := ChildOf(s, from, requested);
    PutCapGenerations(s.endpoints, i, slot, child);
    SameCapsGenerations(PutCap(s.endpoints, i, slot, child), Commit(s, sender, receiver, i, slot, from, requested, bytes).0.endpoints);
  }

  lemma DropEndpointGenerations(eps: seq<Endpoint>, i: nat)
    requires i < |eps|
    ensures Generations(eps[i := EmptyEndpoint(0)]) <= Generations(eps)
  {
    var after := eps[i := EmptyEndpoint(0)];
    forall j, t | Live(after, j, t) ensures Live(eps, j, t) && CapAt(after, j, t) == CapAt(eps, j, t) {}
  }

  lemma SameCapsGenerations(before: seq<Endpoint>, after: seq<Endpoint>)
    requires |before| == |after| && forall i :: 0 <= i < |before| ==> before[i].caps == after[i].caps
    ensures Generations(before) == Generations(after)
  {
    forall i, s ensures Live(before, i, s) <==> Live(after, i, s)
      ensures Live(before, i, s) ==> CapAt(before, i, s) == CapAt(after, i, s)
    {
    }
  }

  lemma PutCapGenerations(eps: seq<Endpoint>, i: nat, slot: nat, c: Capability)
    requires i < |eps| && slot < |eps[i].caps| && c.active && !eps[i].caps[slot].active
    ensures Generations(PutCap(eps, i, slot, c)) == Generations(eps) + {c.generation}
  {
    var after := PutCap(eps, i, slot, c);
    forall j, t
      ensures Live(after, j, t) <==> Live(eps, j, t) || (j == i && t == slot)
      ensures j == i && t == slot ==> CapAt(after, j, t) == c
      ensures Live(eps, j, t) ==> CapAt(after, j, t) == CapAt(eps, j, t)
    {
      PutCapLive(eps, i, slot, c, j, t);
    }
    assert c.generation in Generations(after) by { assert Live(after, i, slot); }
    forall g | g in Generations(eps) ensures g in Generations(after) {
      var j, t :| Live(eps, j, t) && CapAt(eps, j, t).generation == g;
      assert Live(after, j, t);
    }
  }

  lemma RegisterGenerations(s: State, id: nat)
    requires Inv(s) && NotWrapped(s)
    ensures OnlyNext(s, Register(s, id).0)
  {
    if Register(s, id).1.Ok? && Find(s.endpoints, id).None? {
      var i := Find(s.endpoints, 0).value;
      assert TableOk(s.endpoints, i);
      var cleared := s.(endpoints := s.endpoints[i := EmptyEndpoint(id)]);
      EmptyGenerations(s.endpoints, i, id);
      AllocateNext(cleared);
      PutCapGenerations(cleared.endpoints, i, 0, Capability(id, s.nextGeneration, 0, 0, ALL_RIGHTS, true));
    }
  }

  /** `g` was handed out before, is not active, and the counter has not wrapped. */
  ghost predicate Dead(s: State, g: nat)
  {
    NotWrapped(s) && s.initialized && g < s.nextGeneration && g !in Generations(s.endpoints)
  }

  lemma DeadStep(s: State, op: Op, g: nat)
    requires Inv(s) && NonZeroIds(op) && Dead(s, g) && s.nextGeneration < MAX_GENERATION
    ensures Dead(Step(s, op), g)
  {
    StepGenerations(s, op);
  }

  /** Below the wrap-around point all along the run. */
  ghost predicate NeverWraps(s: State, ops: seq<Op>)
    requires Inv(s) && AllNonZero(ops)
  {
    ops == [] || (Reach(s, ops[..|ops| - 1]).nextGeneration < MAX_GENERATION && NeverWraps(s, ops[..|ops| - 1]))
  }

  /**
   Once a generation is gone it never comes back: in any run whose counter never reached the
   wrap-around point, a handle to it resolves for no owner and with no rights.
   */
  lemma {:induction false} RevokedStaysDead(s: State, ops: seq<Op>, handle: nat, owner: nat, required: Rights)
    requires Inv(s) && AllNonZero(ops) && NeverWraps(s, ops)
    requires Decode(handle).Some? && Dead(s, HandleGeneration(handle))
    ensures Dead(Reach(s, ops), HandleGeneration(handle))
    ensures Resolve(Reach(s, ops), owner, handle, required).1.Err?
  {
    if ops != [] {
      var init := ops[..|ops| - 1];
      RevokedStaysDead(s, init, handle, owner, required);
      DeadStep(Reach(s, init), ops[|ops| - 1], HandleGeneration(handle));
    }
    DeadGeneration(Reach(s, ops), handle, owner, required);
  }

  lemma DeadGeneration(r: State, handle: nat, owner: nat, required: Rights)
    requires Decode(handle).Some? && HandleGeneration(handle) !in Generations(r.endpoints)
    ensures Resolve(r, owner, handle, required).1.Err?
  {
    var f := Find(r.endpoints, owner);
    if f.Some? && Live(r.endpoints, f.value, Decode(handle).value.0) {
      LiveGeneration(r.endpoints, f.value, Decode(handle).value.0);
    }
  }

  // ---- mailboxes are FIFO queues

  /** `Cleared`: the capabilities of these generations are gone, and so are attachments that carry them. */
  datatype Event =
    | Quiet
    | Opened(id: nat)
    | Closed(id: nat, gone: set<nat>)
    | Accepted(id: nat, message: Message)
    | Delivered(id: nat, message: Message)
    | Cleared(gone: set<nat>)

  ghost function EventOf(s: State, op: Op): Event
    requires CounterOk(s)
  {
    var gone := Generations(s.endpoints) - Generations(Step(s, op).endpoints);
    match op
    case OpInit => Quiet
    case OpRegister(id) => if Register(s, id).1.Ok? && Find(s.endpoints, id).None? then Opened(id) else Quiet
    case OpUnregister(id) => if Unregister(s, id).1.Ok? then Closed(id, gone) else Quiet
    case OpSend(sender, receiver, bytes) =>
      (match SendTo(s, sender, receiver, bytes).1
       case Ok((sequence, _)) => Accepted(receiver, Message(sender, sequence, 0, {}, bytes))
       case Err(_) => Quiet)
    case OpSendCapability(sender, handle, bytes) =>
      (match SendCapability(s, sender, handle, bytes).1
       case Ok((sequence, _, receiver)) => Accepted(receiver, Message(sender, sequence, 0, {}, bytes))
       case Err(_) => Quiet)
    case OpTransfer(sender, destination, source, requested, bytes) =>
      (match Transfer(s, sender, destination, source, requested, bytes).1
       case Ok((sequence, _, receiver, handle)) => Accepted(receiver, Message(sender, sequence, handle, requested, bytes))
       case Err(_) => Quiet)
    case OpReceive(receiver, capacity) =>
      (match ReceiveFrom(s, receiver, capacity).1
       case Ok(d) => Delivered(receiver, Message(d.sender, d.sequence, d.handle, d.rights, d.bytes))
       case Err(_) => Quiet)
    case OpGrant(_, _, _) => Quiet
    case OpRevoke(_, _) => Cleared(gone)
    case OpResolve(_, _, _) => Quiet
    case OpSetWaiting(_, _) => Quiet
  }

  function QueueOf(): Endpoint -> seq<Message> { (e: Endpoint) => e.queue }

  /** The abstract view: one FIFO queue of messages per registered task. */
  ghost function Mail(eps: seq<Endpoint>): map<nat, seq<Message>> { Keyed(eps, QueueOf()) }

  /** The message with its attachment taken off if the capability it carries is gone. */
  function Bared(m: Message, gone: set<nat>): Message
  {
    if m.handle != 0 && HandleGeneration(m.handle) in gone then m.(handle := 0, rights := {}) else m
  }

  function BaredAll(queue: seq<Message>, gone: set<nat>): (r: seq<Message>)
    ensures |r| == |queue| && forall k :: 0 <= k < |r| ==> r[k] == Bared(queue[k], gone)
  {
    seq(|queue|, k requires 0 <= k < |queue| => Bared(queue[k], gone))
  }

  ghost function BaredMail(mail: map<nat, seq<Message>>, gone: set<nat>): map<nat, seq<Message>>
  {
    map id | id in mail :: BaredAll(mail[id], gone)
  }

  ghost predicate Follows(before: map<nat, seq<Message>>, event: Event, after: map<nat, seq<Message>>)
  {
    match event
    case Quiet => after == before
    case Opened(id) => id !in before && after == before[id := []]
    case Closed(id, gone) => id in before && after == BaredMail(before, gone) - {id}
    case Accepted(id, m) => id in before && after == before[id := before[id] + [m]]
    case Delivered(id, m) => id in before && before[id] != [] && m == before[id][0] && after == before[id := before[id][1..]]
    case Cleared(gone) => after == BaredMail(before, gone)
  }

  // ---- attachments that go

  function BaringBy(gone: set<nat>): seq<Message> -> seq<Message> { (queue: seq<Message>) => BaredAll(queue, gone) }

  lemma ErasedQueue(e: Endpoint, next: nat, gens: set<nat>, gone: set<nat>)
    requires QueueOk(e, next) && forall k :: 0 <= k < |e.queue| && e.queue[k].handle != 0 ==>
               (HandleGeneration(e.queue[k].handle) in gens <==> HandleGeneration(e.queue[k].handle) in gone)
    ensures EraseEndpoint(e, gens).queue == BaredAll(e.queue, gone)
  {
    forall k | 0 <= k < |e.queue| ensures StripMessage(e.queue[k], gens) == Bared(e.queue[k], gone) { assert AttachmentOk(e, k); }
  }

  lemma CarriedLive(s: State, i: nat, k: nat)
    requires Inv(s) && i < |s.endpoints| && k < |s.endpoints[i].queue| && s.endpoints[i].queue[k].handle != 0
    ensures HandleGeneration(s.endpoints[i].queue[k].handle) in Generations(s.endpoints)
  {
    assert QueueOk(s.endpoints[i], s.nextSequence) && AttachmentOk(s.endpoints[i], k);
    LiveGeneration(s.endpoints, i, Decode(s.endpoints[i].queue[k].handle).value.0);
  }

  /** Erasing generations takes off exactly the attachments whose generation was live and is not any more. */
  lemma EraseMail(s: State, gens: set<nat>)
    requires Inv(s)
    ensures Mail(Erase(s.endpoints, gens)) == BaredMail(Mail(s.endpoints), Generations(s.endpoints) - Generations(Erase(s.endpoints, gens)))
  {
    var (eps, after) := (s.endpoints, Erase(s.endpoints, gens));
    var gone := Generations(eps) - Generations(after);
    EraseGenerations(eps, gens);
    assert gone == Generations(eps) * gens;
    forall i | 0 <= i < |eps| ensures after[i].queue == BaredAll(eps[i].queue, gone) { ErasedMail(s, gens, gone, i); }
    MailBared(eps, after, gone);
  }

  lemma MailBared(eps: seq<Endpoint>, after: seq<Endpoint>, gone: set<nat>)
    requires |after| == |eps| && forall i :: 0 <= i < |eps| ==> after[i].owner == eps[i].owner && after[i].queue == BaredAll(eps[i].queue, gone)
    ensures Mail(after) == BaredMail(Mail(eps), gone)
  {
    KeyedAll(eps, after, QueueOf(), BaringBy(gone));
    SameMail(Mail(eps), gone);
  }

  lemma SameMail(mail: map<nat, seq<Message>>, gone: set<nat>)
    ensures BaredMail(mail, gone) == map id | id in mail :: BaringBy(gone)(mail[id])
  {
  }

  lemma ErasedMail(s: State, gens: set<nat>, gone: set<nat>, i: nat)
    requires Inv(s) && i < |s.endpoints| && gone == Generations(s.endpoints) * gens
    ensures EraseEndpoint(s.endpoints[i], gens).queue == BaredAll(s.endpoints[i].queue, gone)
  {
    var e := s.endpoints[i];
    forall k | 0 <= k < |e.queue| && e.queue[k].handle != 0
      ensures HandleGeneration(e.queue[k].handle) in gens <==> HandleGeneration(e.queue[k].handle) in gone
    {
      CarriedLive(s, i, k);
    }
    ErasedQueue(e, s.nextSequence, gens, gone);
  }

  // ---- one step

  lemma DeliverMail(s: State, i: nat, m: Message, after: seq<Endpoint>)
    requires OwnersUnique(s.endpoints) && i < |s.endpoints| == |after| && s.endpoints[i].owner != 0
    requires after[i].owner == s.endpoints[i].owner && after[i].queue == s.endpoints[i].queue + [m]
    requires forall j :: 0 <= j < |after| && j != i ==> after[j] == s.endpoints[j]
    ensures Follows(Mail(s.endpoints), Accepted(s.endpoints[i].owner, m), Mail(after))
  {
    KeyedAt(s.endpoints, QueueOf(), i);
    KeyedPut(s.endpoints, after, QueueOf(), i);
  }

  lemma OpenMail(before: seq<Endpoint>, after: seq<Endpoint>, i: nat)
    requires OwnersUnique(before) && OwnersUnique(after) && i < |before| == |after|
    requires before[i].owner == 0 && after == before[i := after[i]] && after[i].owner !in Owners(before) + {0}
    requires after[i].queue == []
    ensures Follows(Mail(before), Opened(after[i].owner), Mail(after))
  {
    KeyedKeys(before, QueueOf());
    KeyedPut(before, after, QueueOf(), i);
  }

  lemma RegisterMail(s: State, id: nat)
    requires Inv(s)
    ensures if Register(s, id).1.Ok? && Find(s.endpoints, id).None?
            then Follows(Mail(s.endpoints), Opened(id), Mail(Register(s, id).0.endpoints))
            else Register(s, id).0 == s
  {
    if Register(s, id).1.Ok? && Find(s.endpoints, id).None? {
      RegisterKeepsInv(s, id);
      OpenMail(s.endpoints, Register(s, id).0.endpoints, Find(s.endpoints, 0).value);
    }
  }

  lemma UnregisterMail(s: State, id: nat)
    requires Inv(s) && id != 0
    ensures var after := Unregister(s, id).0.endpoints;
            if Find(s.endpoints, id).Some?
            then Follows(Mail(s.endpoints), Closed(id, Generations(s.endpoints) - Generations(after)), Mail(after))
            else Unregister(s, id).0 == s
  {
    if Find(s.endpoints, id).Some? {
      var eps := s.endpoints;
      var i := Find(eps, id).value;
      UnregisterKeepsInv(s, id);
      var gens := Branches(eps, CleanupRoots(eps, i, id));
      EraseMail(s, gens);
      DroppedMail(Erase(eps, gens), Unregister(s, id).0.endpoints, i);
      DroppedGenerations(eps, i, id);
    }
  }

  lemma DroppedMail(before: seq<Endpoint>, after: seq<Endpoint>, i: nat)
    requires i < |before| && OwnersUnique(before) && OwnersUnique(after) && before[i].owner != 0 && after == before[i := EmptyEndpoint(0)]
    ensures before[i].owner in Mail(before) && Mail(after) == Mail(before) - {before[i].owner}
  {
    KeyedDrop(before, after, QueueOf(), i);
  }

  /** Giving the endpoint up takes away nothing that cleanup had not already erased. */
  lemma DroppedGenerations(eps: seq<Endpoint>, i: nat, id: nat)
    requires TablesOk(eps) && i < |eps| && eps[i].owner == id
    ensures var erased := Erase(eps, Branches(eps, CleanupRoots(eps, i, id)));
            Generations(erased[i := EmptyEndpoint(0)]) == Generations(erased)
  {
    var gens := Branches(eps, CleanupRoots(eps, i, id));
    var erased := Erase(eps, gens);
    var after := erased[i := EmptyEndpoint(0)];
    CleanupBranches(eps, i, id);
    forall j, t
      ensures Live(after, j, t) <==> Live(erased, j, t)
      ensures Live(erased, j, t) ==> CapAt(after, j, t) == CapAt(erased, j, t)
    {
      EraseLive(eps, gens, j, t);
    }
  }

  lemma RevokeMail(s: State, owner: nat, handle: nat)
    requires Inv(s)
    ensures var after := Revoke(s, owner, handle).0.endpoints;
            Follows(Mail(s.endpoints), Cleared(Generations(s.endpoints) - Generations(after)), Mail(after))
  {
    if Revoke(s, owner, handle).1.Ok? {
      var (slot, g) := Decode(handle).value;
      EraseMail(s, RevokedBy(s.endpoints, slot, g));
    } else {
      NothingBared(Mail(s.endpoints));
    }
  }

  lemma NothingBared(mail: map<nat, seq<Message>>)
    ensures forall gens: set<nat> :: BaredMail(mail, gens - gens) == mail
  {
    forall gens: set<nat> ensures BaredMail(mail, gens - gens) == mail {
      forall id | id in mail ensures BaredAll(mail[id], gens - gens) == mail[id] {}
    }
  }

  lemma TransferMail(s: State, sender: nat, destination: nat, source: nat, requested: Rights, bytes: seq<Byte>)
    requires Inv(s)
    ensures var (after, r) := Transfer(s, sender, destination, source, requested, bytes);
            Follows(Mail(s.endpoints),
                    if r.Ok? then Accepted(r.value.2, Message(sender, r.value.0, r.value.3, requested, bytes)) else Quiet,
                    Mail(after.endpoints))
  {
    var receiver, i, slot, j, t, from := TransferCases(s, sender, destination, source, requested, bytes);
    if Transfer(s, sender, destination, source, requested, bytes).1.Ok? {
      CommitMail(s, sender, receiver, i, slot, j, t, from, requested, bytes);
    }
  }

  lemma CommitMail(
    s: State, sender: nat, receiver: nat, i: nat, slot: nat, j: int, t: int, from: Capability, requested: Rights, bytes: seq<Byte>)
    requires Inv(s) && Committable(s, receiver, i, slot, j, t, from, requested, bytes)
    ensures var (after, r) := Commit(s, sender, receiver, i, slot, from, requested, bytes);
            && r.Ok?
            && Follows(Mail(s.endpoints), Accepted(r.value.2, Message(sender, r.value.0, r.value.3, requested, bytes)), Mail(after.endpoints))
  {
    var (after, r) := Commit(s, sender, receiver, i, slot, from, requested, bytes);
    CommitEffect(s, sender, receiver, i, slot, from, requested, bytes);
    DeliverMail(s, i, Message(sender, s.nextSequence, r.value.3, requested, bytes), after.endpoints);
  }

  lemma ReceiveMail(s: State, receiver: nat, capacity: nat)
    requires Inv(s)
    ensures var (after, r) := ReceiveFrom(s, receiver, capacity);
            Follows(Mail(s.endpoints),
                    if r.Ok? then Delivered(receiver, Message(r.value.sender, r.value.sequence, r.value.handle, r.value.rights, r.value.bytes))
                    else Quiet,
                    Mail(after.endpoints))
  {
    var i := ReceiveCases(s, receiver, capacity);
    var (after, r) := ReceiveFrom(s, receiver, capacity);
    if r.Ok? { PopMail(s.endpoints, after.endpoints, i); }
  }

  lemma PopMail(before: seq<Endpoint>, after: seq<Endpoint>, i: nat)
    requires OwnersUnique(before) && i < |before| && before[i].owner != 0 && before[i].queue != []
    requires after == before[i := before[i].(queue := before[i].queue[1..])]
    ensures before[i].owner in Mail(before) && Mail(before)[before[i].owner] == before[i].queue
    ensures Mail(after) == Mail(before)[before[i].owner := before[i].queue[1..]]
  {
    KeyedAt(before, QueueOf(), i);
    KeyedPut(before, after, QueueOf(), i);
  }

  /** One step of the IPC subsystem is one step of the map of FIFO queues, attachments included. */
  lemma StepRefinesMail(s: State, op: Op)
    requires Inv(s) && NonZeroIds(op) && (op.OpInit? ==> s.initialized)
    ensures Follows(Mail(s.endpoints), EventOf(s, op), Mail(Step(s, op).endpoints))
  {
    if op.OpSend? || op.OpSendCapability? || op.OpTransfer? || op.OpReceive? {
      MessageMail(s, op);
    } else {
      match op
      case OpInit =>
      case OpRegister(id) => RegisterMail(s, id);
      case OpUnregister(id) => UnregisterMail(s, id);
      case OpGrant(owner, target, rights) => GrantMail(s, owner, target, rights);
      case OpRevoke(owner, handle) => RevokeMail(s, owner, handle);
      case OpResolve(owner, handle, required) => ResolveKeepsState(s, owner, handle, required);
      case OpSetWaiting(id, waiting) => WaitingMail(s, id, waiting);
    }
  }

  lemma GrantMail(s: State, owner: nat, target: nat, rights: Rights)
    requires Inv(s)
    ensures Mail(Grant(s, owner, target, rights).0.endpoints) == Mail(s.endpoints)
  {
    KeyedSame(s.endpoints, Grant(s, owner, target, rights).0.endpoints, QueueOf());
  }

  lemma WaitingMail(s: State, id: nat, waiting: bool)
    ensures Mail(SetWaiting(s, id, waiting).0.endpoints) == Mail(s.endpoints)
  {
    KeyedSame(s.endpoints, SetWaiting(s, id, waiting).0.endpoints, QueueOf());
  }

  lemma MessageMail(s: State, op: Op)
    requires Inv(s) && NonZeroIds(op) && (op.OpSend? || op.OpSendCapability? || op.OpTransfer? || op.OpReceive?)
    ensures Follows(Mail(s.endpoints), EventOf(s, op), Mail(Step(s, op).endpoints))
  {
    match op
    case OpSend(sender, receiver, bytes) => SendMail(s, sender, receiver, bytes);
    case OpSendCapability(sender, handle, bytes) =>
      var receiver := SendCapabilityCases(s, sender, handle, bytes);
      SendMail(s, sender, receiver, bytes);
    case OpTransfer(sender, destination, source, requested, bytes) =>
      TransferMail(s, sender, destination, source, requested, bytes);
    case OpReceive(receiver, capacity) => ReceiveMail(s, receiver, capacity);
  }

  lemma SendMail(s: State, sender: nat, receiver: nat, bytes: seq<Byte>)
    requires Inv(s) && receiver != 0
    ensures var (after, r) := SendTo(s, sender, receiver, bytes);
            Follows(Mail(s.endpoints),
                    if r.Ok? then Accepted(receiver, Message(sender, r.value.0, 0, {}, bytes)) else Quiet,
                    Mail(after.endpoints))
  {
    var i := SendCases(s, sender, receiver, bytes);
    var (after, r) := SendTo(s, sender, receiver, bytes);
    if r.Ok? {
      DeliverMail(s, i, Message(sender, s.nextSequence, 0, {}, bytes), after.endpoints);
    }
  }
}
