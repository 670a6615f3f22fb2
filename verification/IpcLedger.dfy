/** Conservation: what was created, granted and sent is exactly what is gone plus what is left. */
module IpcLedger {
  import opened Common
  import opened IpcModel
  import opened IpcLineage
  import opened IpcInvariant
  import opened IpcPreservation
  import opened IpcTransfer
  import opened IpcRuns

  function Registered(e: Endpoint): nat { if e.owner != 0 then 1 else 0 }

  function Queued(e: Endpoint): nat { |e.queue| }

  function CountActive(caps: seq<Capability>): nat
  {
    if caps == [] then 0 else CountActive(caps[..|caps| - 1]) + (if caps[|caps| - 1].active then 1 else 0)
  }

  function ActiveCaps(e: Endpoint): nat { CountActive(e.caps) }

  /** The sums that `snapshot` reports. */
  function Total(eps: seq<Endpoint>, f: Endpoint -> nat): nat
  {
    if eps == [] then 0 else Total(eps[..|eps| - 1], f) + f(eps[|eps| - 1])
  }

  ghost predicate Conserved(s: State)
  {
    && s.ledger.created == s.ledger.destroyed + Total(s.endpoints, Registered)
    && s.ledger.sent == s.ledger.received + s.ledger.dropped + Total(s.endpoints, Queued)
    && s.ledger.granted == s.ledger.revoked + Total(s.endpoints, ActiveCaps)
  }

  lemma {:induction false} TotalUpdate(eps: seq<Endpoint>, i: nat, e: Endpoint, f: Endpoint -> nat)
    requires i < |eps|
    ensures Total(eps[i := e], f) + f(eps[i]) == Total(eps, f) + f(e)
  {
    var last := |eps| - 1;
    if i == last {
      assert eps[i := e][..last] == eps[..last];
    } else {
      assert eps[i := e][..last] == eps[..last][i := e];
      TotalUpdate(eps[..last], i, e, f);
    }
  }

  lemma {:induction false} TotalSame(before: seq<Endpoint>, after: seq<Endpoint>, f: Endpoint -> nat)
    requires |before| == |after| && forall i :: 0 <= i < |before| ==> f(before[i]) == f(after[i])
    ensures Total(before, f) == Total(after, f)
  {
    if before != [] {
      TotalSame(before[..|before| - 1], after[..|after| - 1], f);
    }
  }

  lemma {:induction false} CountActiveUpdate(caps: seq<Capability>, s: nat, c: Capability)
    requires s < |caps|
    ensures CountActive(caps[s := c]) + (if caps[s].active then 1 else 0)
            == CountActive(caps) + (if c.active then 1 else 0)
  {
    var last := |caps| - 1;
    if s == last {
      assert caps[s := c][..last] == caps[..last];
    } else {
      assert caps[s := c][..last] == caps[..last][s := c];
      CountActiveUpdate(caps[..last], s, c);
    }
  }

  lemma {:induction false} NoneActive(caps: seq<Capability>)
    requires forall s :: 0 <= s < |caps| ==> !caps[s].active
    ensures CountActive(caps) == 0
  {
    if caps != [] { NoneActive(caps[..|caps| - 1]); }
  }

  lemma EraseOneCaps(eps: seq<Endpoint>, i: int, s: int)
    requires UniqueGenerations(eps) && Live(eps, i, s)
    ensures var after := Erase(eps, {CapAt(eps, i, s).generation});
            && after[i].caps == eps[i].caps[s := NO_CAPABILITY]
            && forall j :: 0 <= j < |eps| && j != i ==> after[j].caps == eps[j].caps
  {
    var g := CapAt(eps, i, s).generation;
    var after := Erase(eps, {g});
    forall j, t | 0 <= j < |eps| && 0 <= t < |eps[j].caps| && !(j == i && t == s)
      ensures after[j].caps[t] == eps[j].caps[t]
    {
      assert Live(eps, j, t) ==> CapAt(eps, j, t).generation != g;
    }
  }

  lemma EraseOneTotal(eps: seq<Endpoint>, g: nat)
    requires UniqueGenerations(eps) && g in Generations(eps)
    ensures Total(Erase(eps, {g}), ActiveCaps) + 1 == Total(eps, ActiveCaps)
  {
    var i, s :| Live(eps, i, s) && CapAt(eps, i, s).generation == g;
    assert Live(eps, i, s);
    EraseOneCaps(eps, i, s);
    var after := Erase(eps, {g});
    CountActiveUpdate(eps[i].caps, s, NO_CAPABILITY);
    TotalUpdate(eps, i, after[i], ActiveCaps);
    TotalSame(eps[i := after[i]], after, ActiveCaps);
  }

  /** Erasing live generations lowers the active count by exactly their number. */
  lemma {:induction false} EraseTotal(eps: seq<Endpoint>, gens: set<nat>)
    requires UniqueGenerations(eps) && gens <= Generations(eps)
    ensures Total(Erase(eps, gens), ActiveCaps) + |gens| == Total(eps, ActiveCaps)
    decreases |gens|
  {
    if gens == {} {
      EraseNone(eps);
    } else {
      var g :| g in gens;
      var rest := gens - {g};
      EraseTotal(eps, rest);
      EraseKeepsUnique(eps, rest);
      EraseGenerations(eps, rest);
      EraseOneTotal(Erase(eps, rest), g);
      EraseTwice(eps, rest, {g});
      assert rest + {g} == gens;
    }
  }

  lemma EraseNone(eps: seq<Endpoint>)
    ensures Total(Erase(eps, {}), ActiveCaps) == Total(eps, ActiveCaps)
  {
    forall i | 0 <= i < |eps| ensures Erase(eps, {})[i].caps == eps[i].caps {}
    TotalSame(Erase(eps, {}), eps, ActiveCaps);
  }

  lemma EraseOtherTotals(eps: seq<Endpoint>, gens: set<nat>)
    ensures Total(Erase(eps, gens), Registered) == Total(eps, Registered)
    ensures Total(Erase(eps, gens), Queued) == Total(eps, Queued)
  {
    TotalSame(Erase(eps, gens), eps, Registered);
    TotalSame(Erase(eps, gens), eps, Queued);
  }

  lemma EndpointReplaced(eps: seq<Endpoint>, i: nat, e: Endpoint)
    requires i < |eps|
    ensures Total(eps[i := e], Registered) + Registered(eps[i]) == Total(eps, Registered) + Registered(e)
    ensures Total(eps[i := e], Queued) + Queued(eps[i]) == Total(eps, Queued) + Queued(e)
    ensures Total(eps[i := e], ActiveCaps) + ActiveCaps(eps[i]) == Total(eps, ActiveCaps) + ActiveCaps(e)
  {
    TotalUpdate(eps, i, e, Registered);
    TotalUpdate(eps, i, e, Queued);
    TotalUpdate(eps, i, e, ActiveCaps);
  }

  lemma EraseCountedConserves(s: State, gens: set<nat>)
    requires Conserved(s) && UniqueGenerations(s.endpoints) && gens <= Generations(s.endpoints)
    ensures Conserved(EraseCounted(s, gens))
  {
    EraseTotal(s.endpoints, gens);
    EraseOtherTotals(s.endpoints, gens);
  }

  lemma FreeEndpointEmpty(s: State, i: nat)
    requires Inv(s) && i < |s.endpoints| && s.endpoints[i].owner == 0
    ensures Registered(s.endpoints[i]) == Queued(s.endpoints[i]) == ActiveCaps(s.endpoints[i]) == 0
  {
    assert TableOk(s.endpoints, i);
    forall t | 0 <= t < |s.endpoints[i].caps| ensures !s.endpoints[i].caps[t].active { assert !Live(s.endpoints, i, t); }
    NoneActive(s.endpoints[i].caps);
  }

  lemma RegisterConserves(s: State, id: nat)
    requires Inv(s) && Conserved(s)
    ensures Conserved(Register(s, id).0)
  {
    if s.initialized && id != 0 && Find(s.endpoints, id).None? && Find(s.endpoints, 0).Some? {
      var i := Find(s.endpoints, 0).value;
      FreeEndpointEmpty(s, i);
      var e := Register(s, id).0.endpoints[i];
      NoneActive(EmptyEndpoint(id).caps);
      CountActiveUpdate(EmptyEndpoint(id).caps, 0, e.caps[0]);
      EndpointReplaced(s.endpoints, i, e);
      assert Register(s, id).0.endpoints == s.endpoints[i := e];
    }
  }

  lemma UnregisterConserves(s: State, id: nat)
    requires Inv(s) && Conserved(s) && (id != 0 || Find(s.endpoints, id).None?)
    ensures Conserved(Unregister(s, id).0)
  {
    if Find(s.endpoints, id).Some? {
      var eps := s.endpoints;
      var i := Find(eps, id).value;
      var gens := Branches(eps, CleanupRoots(eps, i, id));
      EraseTotal(eps, gens);
      EraseOtherTotals(eps, gens);
      CleanupBranches(eps, i, id);
      var mid := Erase(eps, gens);
      forall t | 0 <= t < |mid[i].caps| ensures !mid[i].caps[t].active {
        EraseLive(eps, gens, i, t);
        assert !Live(mid, i, t);
      }
      NoneActive(mid[i].caps);
      NoneActive(EmptyEndpoint(0).caps);
      EndpointReplaced(mid, i, EmptyEndpoint(0));
    }
  }

  lemma PlaceConserves(eps: seq<Endpoint>, i: nat, slot: nat, c: Capability)
    requires i < |eps| && slot < |eps[i].caps| && !eps[i].caps[slot].active && c.active
    ensures Total(PutCap(eps, i, slot, c), Registered) == Total(eps, Registered)
    ensures Total(PutCap(eps, i, slot, c), Queued) == Total(eps, Queued)
    ensures Total(PutCap(eps, i, slot, c), ActiveCaps) == Total(eps, ActiveCaps) + 1
  {
    CountActiveUpdate(eps[i].caps, slot, c);
    EndpointReplaced(eps, i, eps[i].(caps := eps[i].caps[slot := c]));
  }

  lemma DeliverConserves(s: State, i: nat, m: Message)
    requires i < |s.endpoints| && Conserved(s)
    ensures Conserved(Deliver(s, i, m))
  {
    EndpointReplaced(s.endpoints, i, Deliver(s, i, m).endpoints[i]);
  }

  lemma PoppedConserves(s: State, i: nat)
    requires i < |s.endpoints| && s.endpoints[i].queue != [] && Conserved(s)
    ensures Conserved(Popped(s, i))
  {
    EndpointReplaced(s.endpoints, i, Popped(s, i).endpoints[i]);
  }

  lemma GrantConserves(s: State, owner: nat, target: nat, rights: Rights)
    requires Inv(s) && Conserved(s)
    ensures Conserved(Grant(s, owner, target, rights).0)
  {
    if Grant(s, owner, target, rights).1.Ok? {
      var i := Find(s.endpoints, owner).value;
      PlaceConserves(s.endpoints, i, FreeSlot(s.endpoints[i].caps).value,
                     Capability(target, Allocate(s).1, 0, 0, rights, true));
    }
  }

  lemma TransferConserves(s: State, sender: nat, destination: nat, source: nat, requested: Rights, bytes: seq<Byte>)
    requires Inv(s) && Conserved(s)
    ensures Conserved(Transfer(s, sender, destination, source, requested, bytes).0)
  {
    var receiver, i, slot, j, t, from := TransferCases(s, sender, destination, source, requested, bytes);
    var (after, r) := Transfer(s, sender, destination, source, requested, bytes);
    if r.Ok? {
      var child := ChildOf(s, from, requested);
      PlaceConserves(s.endpoints, i, slot, child);
      DeliverConserves(PlaceChild(s, i, slot, child), i, Message(sender, s.nextSequence, r.value.3, requested, bytes));
    }
  }

  lemma RevokeConserves(s: State, owner: nat, handle: nat)
    requires Inv(s) && Conserved(s)
    ensures Conserved(Revoke(s, owner, handle).0)
  {
    if Revoke(s, owner, handle).1.Ok? {
      var (slot, g) := Decode(handle).value;
      EraseCountedConserves(s, RevokedBy(s.endpoints, slot, g));
    }
  }

  lemma SendConserves(s: State, sender: nat, receiver: nat, bytes: seq<Byte>)
    requires Conserved(s)
    ensures Conserved(SendTo(s, sender, receiver, bytes).0)
  {
    var i := SendCases(s, sender, receiver, bytes);
    if SendTo(s, sender, receiver, bytes).1.Ok? {
      DeliverConserves(s, i, Message(sender, s.nextSequence, 0, {}, bytes));
    }
  }

  lemma SetWaitingConserves(s: State, id: nat, waiting: bool)
    requires Conserved(s)
    ensures Conserved(SetWaiting(s, id, waiting).0)
  {
    if Find(s.endpoints, id).Some? {
      var i := Find(s.endpoints, id).value;
      EndpointReplaced(s.endpoints, i, s.endpoints[i].(waiting := waiting));
    }
  }

  lemma BootConserves(initialized: bool)
    ensures Conserved(Boot(initialized))
  {
    var eps := Boot(initialized).endpoints;
    NoneActive(EmptyEndpoint(0).caps);
    AllZero(eps, Registered);
    AllZero(eps, Queued);
    AllZero(eps, ActiveCaps);
  }

  lemma {:induction false} AllZero(eps: seq<Endpoint>, f: Endpoint -> nat)
    requires forall i :: 0 <= i < |eps| ==> f(eps[i]) == 0
    ensures Total(eps, f) == 0
  {
    if eps != [] { AllZero(eps[..|eps| - 1], f); }
  }

  /** Unregistering task 0 while an endpoint is free counts a destruction that never was a creation. */
  predicate DestroysFree(s: State, op: Op) { op.OpUnregister? && op.id == 0 && Find(s.endpoints, 0).Some? }

  lemma StepConserves(s: State, op: Op)
    requires Inv(s) && Conserved(s) && !DestroysFree(s, op)
    ensures Conserved(Step(s, op))
  {
    match op
    case OpInit => BootConserves(true);
    case OpRegister(id) => RegisterConserves(s, id);
    case OpUnregister(id) => UnregisterConserves(s, id);
    case OpGrant(owner, target, rights) => GrantConserves(s, owner, target, rights);
    case OpRevoke(owner, handle) => RevokeConserves(s, owner, handle);
    case OpSend(sender, receiver, bytes) => SendConserves(s, sender, receiver, bytes);
    case OpSendCapability(sender, handle, bytes) =>
      var receiver := SendCapabilityCases(s, sender, handle, bytes);
      SendConserves(s, sender, receiver, bytes);
    case OpTransfer(sender, destination, source, requested, bytes) =>
      TransferConserves(s, sender, destination, source, requested, bytes);
    case OpReceive(receiver, capacity) =>
      var i := ReceiveCases(s, receiver, capacity);
      if ReceiveFrom(s, receiver, capacity).1.Ok? { PoppedConserves(s, i); }
    case OpResolve(owner, handle, required) => ResolveKeepsState(s, owner, handle, required);
    case OpSetWaiting(id, waiting) => SetWaitingConserves(s, id, waiting);
  }

  /**
   In every run from boot: endpoints created = destroyed + registered, messages sent = received +
   queued + dropped on cleanup, capabilities granted = revoked + active.
   */
  lemma {:induction false} RunConserves(ops: seq<Op>)
    requires AllNonZero(ops)
    ensures Conserved(FromBoot(false, ops))
  {
    if ops == [] {
      BootConserves(false);
    } else {
      RunConserves(ops[..|ops| - 1]);
      StepConserves(FromBoot(false, ops[..|ops| - 1]), ops[|ops| - 1]);
    }
  }

  // ---- task id 0

  /** A grant between endpoints that `find` finds, one of them free, with a slot for the capability. */
  predicate GrantsFree(s: State, owner: nat, target: nat, rights: Rights)
  {
    && (owner == 0 || target == 0)
    && rights != {} && (Receive in rights ==> owner == target)
    && Find(s.endpoints, target).Some? && Find(s.endpoints, owner).Some?
    && FreeSlot(s.endpoints[Find(s.endpoints, owner).value].caps).Some?
  }

  /** A message that fits, from a sender that `find` finds, to a free endpoint. */
  predicate SendsFree(s: State, sender: nat, receiver: nat, bytes: seq<Byte>)
  {
    && receiver == 0 && s.initialized && |bytes| <= MAX_MESSAGE_BYTES
    && Find(s.endpoints, sender).Some? && Find(s.endpoints, 0).Some?
  }

  /**
   The calls that put something in a free endpoint, or aim at one. A free endpoint has owner 0, so
   `find(0)` succeeds whenever an endpoint is free; `register` refuses task 0, these calls do not.
   */
  predicate TouchesFree(s: State, op: Op)
  {
    match op
    case OpGrant(owner, target, rights) => GrantsFree(s, owner, target, rights)
    case OpSend(sender, receiver, bytes) => SendsFree(s, sender, receiver, bytes)
    case OpSetWaiting(id, waiting) => id == 0 && waiting && Find(s.endpoints, 0).Some?
    case _ => false
  }

  lemma GrantKeepsInvIff(s: State, owner: nat, target: nat, rights: Rights)
    requires Inv(s)
    ensures Inv(Grant(s, owner, target, rights).0) <==> !GrantsFree(s, owner, target, rights)
  {
    if owner != 0 && target != 0 {
      GrantKeepsInv(s, owner, target, rights);
    } else if GrantsFree(s, owner, target, rights) {
      var after := Grant(s, owner, target, rights).0.endpoints;
      var i := Find(s.endpoints, owner).value;
      var slot := FreeSlot(s.endpoints[i].caps).value;
      assert Live(after, i, slot) && CapAt(after, i, slot).target == target;
      if owner == 0 { assert !TableOk(after, i); } else { assert !CapOk(after, i, slot); }
    }
  }

  lemma SendKeepsInvIff(s: State, sender: nat, receiver: nat, bytes: seq<Byte>)
    requires Inv(s)
    ensures Inv(SendTo(s, sender, receiver, bytes).0) <==> !SendsFree(s, sender, receiver, bytes)
  {
    var i := SendCases(s, sender, receiver, bytes);
    if receiver != 0 {
      SendKeepsInv(s, sender, receiver, bytes);
    } else if SendsFree(s, sender, receiver, bytes) {
      assert TableOk(s.endpoints, Find(s.endpoints, 0).value);
      assert !TableOk(SendTo(s, sender, receiver, bytes).0.endpoints, i);
    }
  }

  lemma SetWaitingKeepsInvIff(s: State, id: nat, waiting: bool)
    requires Inv(s)
    ensures Inv(SetWaiting(s, id, waiting).0) <==> !(id == 0 && waiting && Find(s.endpoints, 0).Some?)
  {
    if id != 0 {
      SetWaitingKeepsInv(s, id, waiting);
    } else if Find(s.endpoints, 0).Some? {
      var i := Find(s.endpoints, 0).value;
      assert TableOk(s.endpoints, i);
      if waiting {
        assert !TableOk(SetWaiting(s, id, waiting).0.endpoints, i);
      } else {
        assert SetWaiting(s, id, waiting).0.endpoints == s.endpoints;
      }
    }
  }

  /** For every operation with any arguments: the invariant is kept exactly if no free endpoint is touched. */
  lemma StepKeepsInvIff(s: State, op: Op)
    requires Inv(s)
    ensures Inv(Step(s, op)) <==> !TouchesFree(s, op)
  {
    match op
    case OpGrant(owner, target, rights) => GrantKeepsInvIff(s, owner, target, rights);
    case OpSend(sender, receiver, bytes) => SendKeepsInvIff(s, sender, receiver, bytes);
    case OpSetWaiting(id, waiting) => SetWaitingKeepsInvIff(s, id, waiting);
    case OpUnregister(id) => UnregisterKeepsInv(s, id);
    case _ => StepKeepsInv(s, op);
  }

  /** For every operation with any arguments: the books balance exactly if no free endpoint is destroyed. */
  lemma StepConservesIff(s: State, op: Op)
    requires Inv(s) && Conserved(s)
    ensures Conserved(Step(s, op)) <==> !DestroysFree(s, op)
  {
    if DestroysFree(s, op) {
      ZeroUnregister(s, Find(s.endpoints, 0).value);
    } else {
      StepConserves(s, op);
    }
  }

  lemma ZeroUnregister(s: State, i: nat)
    requires Inv(s) && Conserved(s) && i < |s.endpoints| && s.endpoints[i].owner == 0 && Find(s.endpoints, 0) == Some(i)
    ensures !Conserved(Unregister(s, 0).0)
  {
    var gens := Branches(s.endpoints, CleanupRoots(s.endpoints, i, 0));
    EraseOtherTotals(s.endpoints, gens);
    EndpointReplaced(Erase(s.endpoints, gens), i, EmptyEndpoint(0));
  }

  /** Each of these happens right after initialization: granting, sending, waiting and unregistering as task 0. */
  lemma ZeroIdBreaks()
    ensures var s := FromBoot(false, [OpInit]);
            && Grant(s, 0, 0, {Send}).1.Ok? && !Inv(Grant(s, 0, 0, {Send}).0)
            && SendTo(s, 0, 0, []).1.Ok? && !Inv(SendTo(s, 0, 0, []).0)
            && SetWaiting(s, 0, true).1.Ok? && !Inv(SetWaiting(s, 0, true).0)
            && Unregister(s, 0).1.Ok? && !Conserved(Unregister(s, 0).0)
  {
    var s := FromBoot(false, [OpInit]);
    BootInv(false);
    assert [OpInit][..0] == [] && s == Boot(true);
    BootConserves(true);
    assert s.endpoints[0] == EmptyEndpoint(0);
    assert Find(s.endpoints, 0).Some?;
    GrantKeepsInvIff(s, 0, 0, {Send});
    SendKeepsInvIff(s, 0, 0, []);
    SetWaitingKeepsInvIff(s, 0, true);
    StepConservesIff(s, OpUnregister(0));
  }
}
