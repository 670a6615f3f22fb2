/** Capability transfer is all-or-nothing, attenuating, and keeps the invariant. */
module IpcTransfer {
  import opened Common
  import opened IpcModel
  import opened IpcLineage
  import opened IpcInvariant
  import opened IpcPreservation

  /** No queued message carries a generation that is not live. */
  lemma FreshNotAttached(eps: seq<Endpoint>, next: nat, i: nat, slot: nat, g: nat)
    requires i < |eps| && QueueOk(eps[i], next) && slot < MAX_CAPABILITIES && g != 0
    requires g !in Generations(eps)
    ensures forall k :: 0 <= k < |eps[i].queue| ==> eps[i].queue[k].handle != Encode(slot, g)
  {
    EncodeDecode(slot, g);
    forall k | 0 <= k < |eps[i].queue| ensures eps[i].queue[k].handle != Encode(slot, g) {
      assert AttachmentOk(eps[i], k);
      if eps[i].queue[k].handle != 0 {
        LiveGeneration(eps, i, Decode(eps[i].queue[k].handle).value.0);
      }
    }
  }

  /** The checks a transfer makes before it commits, for a delegating capability at (j, t). */
  ghost predicate Committable(
    s: State, receiver: nat, i: nat, slot: nat, j: int, t: int, from: Capability, requested: Rights, bytes: seq<Byte>)
  {
    && i < |s.endpoints| && s.endpoints[i].owner == receiver != 0
    && |s.endpoints[i].queue| < QUEUE_DEPTH && |bytes| <= MAX_MESSAGE_BYTES
    && slot < |s.endpoints[i].caps| && !s.endpoints[i].caps[slot].active
    && Live(s.endpoints, j, t) && CapAt(s.endpoints, j, t) == from && Delegate in from.rights
    && {} != requested <= from.rights && (Receive in requested ==> receiver == from.target)
    && from.depth < MAX_LINEAGE_DEPTH
  }

  /** The child is fresh, attenuated, one level below its source, and has a live parent. */
  lemma ChildAdmissible(
    s: State, receiver: nat, i: nat, slot: nat, j: int, t: int, from: Capability, requested: Rights, bytes: seq<Byte>)
    requires Inv(s) && Committable(s, receiver, i, slot, j, t, from, requested, bytes)
    ensures Admissible(s.endpoints, i, ChildOf(s, from, requested))
    ensures MayDelegate(from, ChildOf(s, from, requested))
  {
    AllocateNotLive(s);
    assert CapOk(s.endpoints, j, t);
    assert MayDelegate(CapAt(s.endpoints, j, t), ChildOf(s, from, requested));
  }

  lemma PlaceChildKeepsInv(s: State, i: nat, slot: nat, child: Capability)
    requires Inv(s) && i < |s.endpoints| && slot < MAX_CAPABILITIES
    requires s.endpoints[i].owner != 0 && !Live(s.endpoints, i, slot) && Admissible(s.endpoints, i, child)
    ensures Inv(PlaceChild(s, i, slot, child))
  {
    AllocateNotLive(s);
    PutCapOk(s.endpoints, i, slot, child);
    PutCapQueue(s.endpoints[i], slot, child, s.nextSequence);
  }

  lemma CommitKeepsInv(
    s: State, sender: nat, receiver: nat, i: nat, slot: nat, j: int, t: int, from: Capability, requested: Rights, bytes: seq<Byte>)
    requires Inv(s) && Committable(s, receiver, i, slot, j, t, from, requested, bytes)
    ensures Inv(Commit(s, sender, receiver, i, slot, from, requested, bytes).0)
  {
    var child := ChildOf(s, from, requested);
    ChildAdmissible(s, receiver, i, slot, j, t, from, requested, bytes);
    PlaceChildKeepsInv(s, i, slot, child);
    EncodeDecode(slot, child.generation);
    FreshNotAttached(s.endpoints, s.nextSequence, i, slot, child.generation);
    PutCapLive(s.endpoints, i, slot, child, i, slot);
    DeliverKeepsInv(PlaceChild(s, i, slot, child), i,
                    Message(sender, s.nextSequence, Encode(slot, child.generation), requested, bytes));
  }

  /** A transfer either changes nothing or commits, and it commits only when every check holds. */
  lemma TransferCases(s: State, sender: nat, destination: nat, source: nat, requested: Rights, bytes: seq<Byte>)
    returns (receiver: nat, i: nat, slot: nat, j: int, t: int, from: Capability)
    requires Inv(s)
    ensures Transfer(s, sender, destination, source, requested, bytes).1.Err? ==>
              Transfer(s, sender, destination, source, requested, bytes).0 == s
    ensures Transfer(s, sender, destination, source, requested, bytes).1.Ok? ==>
              && Committable(s, receiver, i, slot, j, t, from, requested, bytes)
              && Resolve(s, sender, source, {Delegate}) == (s, Ok(from))
              && Transfer(s, sender, destination, source, requested, bytes)
                 == Commit(s, sender, receiver, i, slot, from, requested, bytes)
  {
    ResolveKeepsState(s, sender, destination, {Send});
    ResolveKeepsState(s, sender, source, {Delegate});
    receiver, i, slot, j, t, from := 0, 0, 0, 0, 0, NO_CAPABILITY;
    TransferShape(s, sender, destination, source, requested, bytes);
    if Transfer(s, sender, destination, source, requested, bytes).1.Ok? {
      receiver := Resolve(s, sender, destination, {Send}).1.value.target;
      from := Resolve(s, sender, source, {Delegate}).1.value;
      i, slot := ResolvedCases(s, sender, receiver, from, requested, bytes);
      j, t := Find(s.endpoints, sender).value, Decode(source).value.0;
    } else if Resolve(s, sender, destination, {Send}).1.Ok? && Resolve(s, sender, source, {Delegate}).1.Ok? {
      RefusedUnchanged(s, sender, Resolve(s, sender, destination, {Send}).1.value.target, Resolve(s, sender, source, {Delegate}).1.value, requested, bytes);
    }
  }

  /** A transfer whose handles resolve without side effect goes on with what they name. */
  lemma TransferShape(s: State, sender: nat, destination: nat, source: nat, requested: Rights, bytes: seq<Byte>)
    requires CounterOk(s) && Resolve(s, sender, destination, {Send}).0 == s && Resolve(s, sender, source, {Delegate}).0 == s
    ensures var (to, from) := (Resolve(s, sender, destination, {Send}).1, Resolve(s, sender, source, {Delegate}).1);
            if requested != {} && |bytes| <= MAX_MESSAGE_BYTES && to.Ok? && from.Ok?
            then Transfer(s, sender, destination, source, requested, bytes) == TransferResolved(s, sender, to.value.target, from.value, requested, bytes)
            else Transfer(s, sender, destination, source, requested, bytes).0 == s && Transfer(s, sender, destination, source, requested, bytes).1.Err?
  {
  }

  lemma ResolvedCases(s: State, sender: nat, receiver: nat, from: Capability, requested: Rights, bytes: seq<Byte>) returns (i: nat, slot: nat)
    requires CounterOk(s) && TransferResolved(s, sender, receiver, from, requested, bytes).1.Ok?
    ensures i < |s.endpoints| && s.endpoints[i].owner == receiver && |s.endpoints[i].queue| < QUEUE_DEPTH
    ensures slot < |s.endpoints[i].caps| && !s.endpoints[i].caps[slot].active
    ensures requested <= from.rights && (Receive in requested ==> receiver == from.target) && from.depth < MAX_LINEAGE_DEPTH
    ensures TransferResolved(s, sender, receiver, from, requested, bytes) == Commit(s, sender, receiver, i, slot, from, requested, bytes)
  {
    i := Find(s.endpoints, receiver).value;
    slot := FreeSlot(s.endpoints[i].caps).value;
  }

  lemma RefusedUnchanged(s: State, sender: nat, receiver: nat, from: Capability, requested: Rights, bytes: seq<Byte>)
    requires CounterOk(s)
    ensures TransferResolved(s, sender, receiver, from, requested, bytes).1.Err? ==> TransferResolved(s, sender, receiver, from, requested, bytes).0 == s
  {
  }

  lemma TransferKeepsInv(s: State, sender: nat, destination: nat, source: nat, requested: Rights, bytes: seq<Byte>)
    requires Inv(s)
    ensures Inv(Transfer(s, sender, destination, source, requested, bytes).0)
  {
    var receiver, i, slot, j, t, from := TransferCases(s, sender, destination, source, requested, bytes);
    if Transfer(s, sender, destination, source, requested, bytes).1.Ok? {
      CommitKeepsInv(s, sender, receiver, i, slot, j, t, from, requested, bytes);
    }
  }

  /**
   What a successful transfer did: one message appended to the receiver's queue and one
   capability placed in its table, the handle in the message resolving for the receiver to that
   capability, which was delegated from what the sender's source handle resolves to.
   */
  ghost predicate Transferred(
    s: State, after: State, sender: nat, receiver: nat, source: nat, requested: Rights, bytes: seq<Byte>,
    sequence: nat, waiting: bool, handle: nat, i: nat, slot: nat, parent: Capability, child: Capability)
  {
    && i < |s.endpoints| && slot < |s.endpoints[i].caps| && s.endpoints[i].owner == receiver
    && !Live(s.endpoints, i, slot) && child.generation !in Generations(s.endpoints)
    && after.endpoints == s.endpoints[i := Endpoint(
         receiver, s.endpoints[i].queue + [Message(sender, sequence, handle, requested, bytes)], false,
         s.endpoints[i].caps[slot := child])]
    && sequence == s.nextSequence && after.nextSequence == sequence + 1
    && waiting == s.endpoints[i].waiting
    && child.rights == requested
    && (forall required | required <= requested :: Resolve(after, receiver, handle, required) == (after, Ok(child)))
    && Resolve(s, sender, source, {Delegate}) == (s, Ok(parent)) && MayDelegate(parent, child)
  }

  /** After a commit the receiver's new handle resolves to the child. */
  lemma CommitResolves(after: State, receiver: nat, i: nat, slot: nat, child: Capability, required: Rights)
    requires Inv(after) && i < |after.endpoints| && after.endpoints[i].owner == receiver != 0
    requires Live(after.endpoints, i, slot) && CapAt(after.endpoints, i, slot) == child && required <= child.rights
    ensures Resolve(after, receiver, Encode(slot, child.generation), required) == (after, Ok(child))
  {
    FindUnique(after.endpoints, i);
    assert CapOk(after.endpoints, i, slot);
    EncodeDecode(slot, child.generation);
  }

  lemma CommitEffect(
    s: State, sender: nat, receiver: nat, i: nat, slot: nat, from: Capability, requested: Rights, bytes: seq<Byte>)
    requires CounterOk(s) && i < |s.endpoints| && slot < |s.endpoints[i].caps| && s.endpoints[i].owner == receiver
    ensures var (after, r) := Commit(s, sender, receiver, i, slot, from, requested, bytes);
            && after.endpoints == s.endpoints[i := Endpoint(
                 receiver, s.endpoints[i].queue + [Message(sender, r.value.0, r.value.3, requested, bytes)], false,
                 s.endpoints[i].caps[slot := ChildOf(s, from, requested)])]
            && after.nextSequence == s.nextSequence + 1
  {
  }

  /** All-or-nothing transfer. */
  lemma TransferAtomic(s: State, sender: nat, destination: nat, source: nat, requested: Rights, bytes: seq<Byte>)
    requires Inv(s)
    ensures var (after, r) := Transfer(s, sender, destination, source, requested, bytes);
            if r.Err? then after == s
            else exists i: nat, slot: nat, parent: Capability, child: Capability ::
              Transferred(s, after, sender, r.value.2, source, requested, bytes,
                          r.value.0, r.value.1, r.value.3, i, slot, parent, child)
  {
    var receiver, i, slot, j, t, from := TransferCases(s, sender, destination, source, requested, bytes);
    var (after, r) := Transfer(s, sender, destination, source, requested, bytes);
    if r.Ok? {
      CommitKeepsInv(s, sender, receiver, i, slot, j, t, from, requested, bytes);
      ChildAdmissible(s, receiver, i, slot, j, t, from, requested, bytes);
      AllocateNotLive(s);
      var child := ChildOf(s, from, requested);
      CommitEffect(s, sender, receiver, i, slot, from, requested, bytes);
      assert CapAt(after.endpoints, i, slot) == child;
      forall required | required <= requested
        ensures Resolve(after, receiver, r.value.3, required) == (after, Ok(child))
      {
        CommitResolves(after, receiver, i, slot, child, required);
      }
      assert Transferred(s, after, sender, receiver, source, requested, bytes,
                         r.value.0, r.value.1, r.value.3, i, slot, from, child);
    }
  }
}
