/**
 Capability IPC, stated over values: bounded mailboxes as FIFO sequences, a capability
 table per endpoint, and revocation as the removal of one set of generations.
 The executable form in module Ipc is proved equal to these functions.
 */
module IpcModel {
  import opened Common

  const MAX_ENDPOINTS: nat := 8
  const QUEUE_DEPTH: nat := 8
  const MAX_MESSAGE_BYTES: nat := 64
  const MAX_CAPABILITIES: nat := 8
  const MAX_LINEAGE_DEPTH: nat := 16
  const SLOT_BASE: nat := 256
  const MAX_GENERATION: nat := 0xFF_FFFF_FFFF_FFFF

  datatype Right = Send | Receive | Cancel | Delegate
  type Rights = set<Right>

  const ALL_RIGHTS: Rights := {Send, Receive, Cancel, Delegate}

  datatype IpcError =
    | NotInitialized | InvalidTask | EndpointCapacity | EndpointMissing | MessageTooLarge
    | QueueFull | QueueEmpty | BufferTooSmall | BlockFailed | WakeFailed | CapabilityCapacity
    | InvalidCapability | StaleCapability | PermissionDenied | InvalidRights | Timeout
    | Cancelled | NotWaiting | RightsEscalation | LineageDepthExceeded

  datatype Capability = Capability(
    target: nat, generation: nat, parent: nat, depth: nat, rights: Rights, active: bool)

  const NO_CAPABILITY := Capability(0, 0, 0, 0, {}, false)

  /** `bytes` is the used prefix of the 64-byte buffer; its length is the message length. */
  datatype Message = Message(sender: nat, sequence: nat, handle: nat, rights: Rights, bytes: seq<Byte>)

  datatype Endpoint = Endpoint(owner: nat, queue: seq<Message>, waiting: bool, caps: seq<Capability>)

  function EmptyEndpoint(owner: nat): Endpoint
  {
    Endpoint(owner, [], false, seq(MAX_CAPABILITIES, _ => NO_CAPABILITY))
  }

  /** The counters whose conservation laws are proved. */
  datatype Ledger = Ledger(
    created: nat, destroyed: nat, sent: nat, received: nat, dropped: nat, granted: nat, revoked: nat)

  datatype State = State(
    initialized: bool, endpoints: seq<Endpoint>, nextSequence: nat, nextGeneration: nat, ledger: Ledger)

  function Boot(initialized: bool): State
  {
    State(initialized, seq(MAX_ENDPOINTS, _ => EmptyEndpoint(0)), 1, 1, Ledger(0, 0, 0, 0, 0, 0, 0))
  }

  datatype Report = Report(revoked: nat, descendants: nat, stripped: nat)

  datatype Delivery = Delivery(sender: nat, sequence: nat, handle: nat, rights: Rights, bytes: seq<Byte>)

  // ---- handles

  function Encode(slot: nat, generation: nat): nat { generation * SLOT_BASE + slot + 1 }

  function Decode(handle: nat): Option<(nat, nat)>
  {
    var encodedSlot, generation := handle % SLOT_BASE, handle / SLOT_BASE;
    if encodedSlot == 0 || generation == 0 || encodedSlot - 1 >= MAX_CAPABILITIES then None
    else Some((encodedSlot - 1, generation))
  }

  /** The generation a handle names; 0 when the handle decodes to nothing. */
  function HandleGeneration(handle: nat): nat
  {
    match Decode(handle) case None => 0 case Some((_, generation)) => generation
  }

  lemma EncodeDecode(slot: nat, generation: nat)
    requires slot < MAX_CAPABILITIES && generation != 0
    ensures Decode(Encode(slot, generation)) == Some((slot, generation))
    ensures generation <= MAX_GENERATION ==> Encode(slot, generation) < 0x1_0000_0000_0000_0000
  {
    assert Encode(slot, generation) / SLOT_BASE == generation;
    assert Encode(slot, generation) % SLOT_BASE == slot + 1;
  }

  lemma DecodeEncode(handle: nat)
    ensures Decode(handle).Some? ==>
              Encode(Decode(handle).value.0, Decode(handle).value.1) == handle
              && Decode(handle).value.0 < MAX_CAPABILITIES && Decode(handle).value.1 != 0
  {
  }

  // ---- lookups

  function Find(eps: seq<Endpoint>, id: nat): (r: Option<nat>)
    ensures r.Some? ==> r.value < |eps| && eps[r.value].owner == id
    ensures r.Some? ==> forall j :: 0 <= j < r.value ==> eps[j].owner != id
    ensures r.None? ==> forall j :: 0 <= j < |eps| ==> eps[j].owner != id
  {
    First(eps, (e: Endpoint) => e.owner == id)
  }

  function FreeSlot(caps: seq<Capability>): (r: Option<nat>)
    ensures r.Some? ==> r.value < |caps| && !caps[r.value].active
    ensures r.Some? ==> forall j :: 0 <= j < r.value ==> caps[j].active
    ensures r.None? ==> forall j :: 0 <= j < |caps| ==> caps[j].active
  {
    First(caps, (c: Capability) => !c.active)
  }

  /** Slot `s` of endpoint `i` holds an active capability. */
  predicate Live(eps: seq<Endpoint>, i: int, s: int)
  {
    0 <= i < |eps| && 0 <= s < |eps[i].caps| && eps[i].caps[s].active
  }

  function CapAt(eps: seq<Endpoint>, i: int, s: int): Capability
    requires Live(eps, i, s)
  {
    eps[i].caps[s]
  }

  /** Active capability slots: the count reported by `snapshot`. */
  ghost function LiveSlots(eps: seq<Endpoint>): set<(int, int)>
  {
    set i, s | 0 <= i < |eps| && 0 <= s < |eps[i].caps| && Live(eps, i, s) :: (i, s)
  }

  ghost function Generations(eps: seq<Endpoint>): set<nat>
  {
    set i, s | 0 <= i < |eps| && 0 <= s < |eps[i].caps| && Live(eps, i, s) :: CapAt(eps, i, s).generation
  }

  ghost predicate UniqueGenerations(eps: seq<Endpoint>)
  {
    forall i, s, j, t ::
      (Live(eps, i, s) && Live(eps, j, t) && CapAt(eps, i, s).generation == CapAt(eps, j, t).generation)
      ==> i == j && s == t
  }

  // ---- lineage and revocation

  /** An active capability of generation `child` names `parent` as its parent generation. */
  ghost predicate Link(eps: seq<Endpoint>, child: nat, parent: nat)
  {
    exists i, s :: Live(eps, i, s) && CapAt(eps, i, s).generation == child && CapAt(eps, i, s).parent == parent
  }

  /** `g` is reached from `h` by exactly `n` parent links, all through active capabilities. */
  ghost predicate Descends(eps: seq<Endpoint>, h: nat, g: nat, n: nat)
    decreases n
  {
    if n == 0 then h == g && g in Generations(eps)
    else exists p: nat :: Link(eps, h, p) && Descends(eps, p, g, n - 1)
  }

  ghost predicate InBranch(eps: seq<Endpoint>, h: nat, g: nat)
  {
    exists n: nat :: Descends(eps, h, g, n)
  }

  /** A capability and all its transitive descendants. */
  ghost function Branch(eps: seq<Endpoint>, g: nat): set<nat>
  {
    set h | h in Generations(eps) && InBranch(eps, h, g)
  }

  /** The union of the branches rooted at the generations in `roots`. */
  ghost function Branches(eps: seq<Endpoint>, roots: set<nat>): set<nat>
  {
    set h | h in Generations(eps) && exists g :: g in roots && InBranch(eps, h, g)
  }

  function EraseCap(c: Capability, gens: set<nat>): Capability
  {
    if c.active && c.generation in gens then NO_CAPABILITY else c
  }

  function StripMessage(m: Message, gens: set<nat>): Message
  {
    if Decode(m.handle).Some? && HandleGeneration(m.handle) in gens then m.(handle := 0, rights := {}) else m
  }

  function EraseEndpoint(e: Endpoint, gens: set<nat>): Endpoint
  {
    Endpoint(e.owner,
             seq(|e.queue|, k requires 0 <= k < |e.queue| => StripMessage(e.queue[k], gens)),
             e.waiting,
             seq(|e.caps|, s requires 0 <= s < |e.caps| => EraseCap(e.caps[s], gens)))
  }

  /** Removes exactly the capabilities in `gens` and the queued attachments that carry them. */
  function Erase(eps: seq<Endpoint>, gens: set<nat>): seq<Endpoint>
  {
    seq(|eps|, i requires 0 <= i < |eps| => EraseEndpoint(eps[i], gens))
  }

  /** Queue positions whose attachment carries a generation in `gens`. */
  ghost function Attached(eps: seq<Endpoint>, gens: set<nat>): set<(int, int)>
  {
    set i, k | 0 <= i < |eps| && 0 <= k < |eps[i].queue|
      && Decode(eps[i].queue[k].handle).Some? && HandleGeneration(eps[i].queue[k].handle) in gens :: (i, k)
  }

  /** Slot 0 is the endpoint's own root and is kept: only its strict descendants go. */
  ghost function RevokedBy(eps: seq<Endpoint>, slot: nat, generation: nat): set<nat>
  {
    if slot == 0 then Branch(eps, generation) - {generation} else Branch(eps, generation)
  }

  /** The table slot a handle of `owner` names: endpoint index and slot of an active capability. */
  function Lookup(eps: seq<Endpoint>, owner: nat, handle: nat): (r: Result<(nat, nat), IpcError>)
    ensures r.Ok? ==> Live(eps, r.value.0, r.value.1) && Find(eps, owner) == Some(r.value.0)
    ensures r.Ok? ==> Decode(handle) == Some((r.value.1, CapAt(eps, r.value.0, r.value.1).generation))
  {
    match Find(eps, owner)
    case None => Err(EndpointMissing)
    case Some(i) =>
      match Decode(handle)
      case None => Err(InvalidCapability)
      case Some((slot, generation)) =>
        if slot < |eps[i].caps| && eps[i].caps[slot].active && eps[i].caps[slot].generation == generation
        then Ok((i, slot)) else Err(StaleCapability)
  }

  ghost function Revoke(s: State, owner: nat, handle: nat): (State, Result<Report, IpcError>)
  {
    match Lookup(s.endpoints, owner, handle)
    case Err(e) => (s, Err(e))
    case Ok((i, slot)) =>
      var gens := RevokedBy(s.endpoints, slot, s.endpoints[i].caps[slot].generation);
      (EraseCounted(s, gens), Ok(RevocationReport(s.endpoints, slot, s.endpoints[i].caps[slot].generation)))
  }

  ghost function RevocationReport(eps: seq<Endpoint>, slot: nat, g: nat): Report
  {
    var gens := RevokedBy(eps, slot, g);
    Report(|gens|, if slot == 0 then |gens| else |gens - {g}|, |Attached(eps, gens)|)
  }

  ghost function EraseCounted(s: State, gens: set<nat>): State
  {
    State(s.initialized, Erase(s.endpoints, gens), s.nextSequence, s.nextGeneration,
          s.ledger.(revoked := s.ledger.revoked + |gens|))
  }

  // ---- generation allocation

  function NextGeneration(g: nat): nat { if g >= MAX_GENERATION then 1 else g + 1 }

  /** The k-th generation probed by a search that starts at `g`. */
  function Probe(g: nat, k: nat): nat
    requires 1 <= g <= MAX_GENERATION
  {
    (g - 1 + k) % MAX_GENERATION + 1
  }

  /** The generation the allocation loop settles on, starting at `g`, when `used` are taken. */
  ghost function FreshGeneration(used: set<nat>, g: nat): (r: nat)
    requires 1 <= g <= MAX_GENERATION
    ensures 1 <= r <= MAX_GENERATION
    decreases |used|
  {
    if g !in used then g else FreshGeneration(used - {g}, NextGeneration(g))
  }

  function AtLeastOne(g: nat): nat { if g < 1 then 1 else g }

  ghost predicate CounterOk(s: State) { s.nextGeneration <= MAX_GENERATION }

  ghost function Allocate(s: State): (State, nat)
    requires CounterOk(s)
  {
    var g := FreshGeneration(Generations(s.endpoints), AtLeastOne(s.nextGeneration));
    (s.(nextGeneration := NextGeneration(g)), g)
  }

  // ---- operations

  function Init(s: State): State
  {
    if s.initialized then s else Boot(true)
  }

  function PutCap(eps: seq<Endpoint>, i: nat, slot: nat, c: Capability): seq<Endpoint>
    requires i < |eps| && slot < |eps[i].caps|
  {
    eps[i := eps[i].(caps := eps[i].caps[slot := c])]
  }

  function Granted(s: State): State { s.(ledger := s.ledger.(granted := s.ledger.granted + 1)) }

  ghost function Register(s: State, id: nat): (State, Result<(), IpcError>)
    requires CounterOk(s)
  {
    if !s.initialized then (s, Err(NotInitialized))
    else if id == 0 then (s, Err(InvalidTask))
    else if Find(s.endpoints, id).Some? then (s, Ok(()))
    else
      match Find(s.endpoints, 0)
      case None => (s, Err(EndpointCapacity))
      case Some(i) =>
        var cleared := s.(endpoints := s.endpoints[i := EmptyEndpoint(id)]);
        var (numbered, g) := Allocate(cleared);
        var self := Capability(id, g, 0, 0, ALL_RIGHTS, true);
        (numbered.(
           endpoints := PutCap(numbered.endpoints, i, 0, self),
           ledger := s.ledger.(created := s.ledger.created + 1, granted := s.ledger.granted + 1)),
         Ok(()))
  }

  /** Everything held by endpoint `i` or aimed at its owner, with all descendants. */
  ghost function CleanupRoots(eps: seq<Endpoint>, i: nat, id: nat): set<nat>
  {
    set j, t | 0 <= j < |eps| && 0 <= t < |eps[j].caps| && Live(eps, j, t)
      && (j == i || CapAt(eps, j, t).target == id) :: CapAt(eps, j, t).generation
  }

  ghost function Unregister(s: State, id: nat): (State, Result<nat, IpcError>)
  {
    match Find(s.endpoints, id)
    case None => (s, Err(EndpointMissing))
    case Some(i) =>
      var gens := Branches(s.endpoints, CleanupRoots(s.endpoints, i, id));
      var dropped := |s.endpoints[i].queue|;
      (s.(endpoints := Erase(s.endpoints, gens)[i := EmptyEndpoint(0)],
          ledger := s.ledger.(destroyed := s.ledger.destroyed + 1,
                              dropped := s.ledger.dropped + dropped,
                              revoked := s.ledger.revoked + |gens|)),
       Ok(dropped))
  }

  ghost function Grant(s: State, owner: nat, target: nat, rights: Rights): (State, Result<nat, IpcError>)
    requires CounterOk(s)
  {
    if rights == {} || (Receive in rights && owner != target) then (s, Err(InvalidRights))
    else if Find(s.endpoints, target).None? then (s, Err(EndpointMissing))
    else
      match Find(s.endpoints, owner)
      case None => (s, Err(EndpointMissing))
      case Some(i) =>
        match FreeSlot(s.endpoints[i].caps)
        case None => (s, Err(CapabilityCapacity))
        case Some(slot) =>
          var (numbered, g) := Allocate(s);
          (Granted(numbered).(
             endpoints := PutCap(numbered.endpoints, i, slot, Capability(target, g, 0, 0, rights, true))),
           Ok(Encode(slot, g)))
  }

  function SelfCapability(s: State, id: nat): Result<nat, IpcError>
  {
    match Find(s.endpoints, id)
    case None => Err(EndpointMissing)
    case Some(i) =>
      if 0 < |s.endpoints[i].caps| && s.endpoints[i].caps[0].active && s.endpoints[i].caps[0].target == id
         && {Send, Receive} <= s.endpoints[i].caps[0].rights
      then Ok(Encode(0, s.endpoints[i].caps[0].generation))
      else Err(PermissionDenied)
  }

  ghost function Resolve(s: State, owner: nat, handle: nat, required: Rights)
    : (State, Result<Capability, IpcError>)
  {
    match Lookup(s.endpoints, owner, handle)
    case Err(e) => (s, Err(e))
    case Ok((i, slot)) =>
      var cap := s.endpoints[i].caps[slot];
      if !(required <= cap.rights) then (s, Err(PermissionDenied))
      else if Find(s.endpoints, cap.target).None? then
        (EraseCounted(s, Branch(s.endpoints, cap.generation)), Err(StaleCapability))
      else (s, Ok(cap))
  }

  function Deliver(s: State, i: nat, m: Message): State
    requires i < |s.endpoints|
  {
    s.(endpoints := s.endpoints[i := s.endpoints[i].(queue := s.endpoints[i].queue + [m], waiting := false)],
       nextSequence := s.nextSequence + 1,
       ledger := s.ledger.(sent := s.ledger.sent + 1))
  }

  /** On success: the sequence number, and whether the receiver was waiting. */
  function SendTo(s: State, sender: nat, receiver: nat, bytes: seq<Byte>)
    : (State, Result<(nat, bool), IpcError>)
  {
    if !s.initialized then (s, Err(NotInitialized))
    else if |bytes| > MAX_MESSAGE_BYTES then (s, Err(MessageTooLarge))
    else if Find(s.endpoints, sender).None? then (s, Err(EndpointMissing))
    else
      match Find(s.endpoints, receiver)
      case None => (s, Err(EndpointMissing))
      case Some(i) =>
        if |s.endpoints[i].queue| >= QUEUE_DEPTH then (s, Err(QueueFull))
        else (Deliver(s, i, Message(sender, s.nextSequence, 0, {}, bytes)),
              Ok((s.nextSequence, s.endpoints[i].waiting)))
  }

  ghost function SendCapability(s: State, sender: nat, handle: nat, bytes: seq<Byte>)
    : (State, Result<(nat, bool, nat), IpcError>)
  {
    match Resolve(s, sender, handle, {Send})
    case (s1, Err(e)) => (s1, Err(e))
    case (s1, Ok(cap)) =>
      match SendTo(s1, sender, cap.target, bytes)
      case (s2, Err(e)) => (s2, Err(e))
      case (s2, Ok((sequence, waiting))) => (s2, Ok((sequence, waiting, cap.target)))
  }

  /** On success: sequence number, whether the receiver was waiting, receiver, and the new handle. */
  ghost function Transfer(
    s: State, sender: nat, destination: nat, source: nat, requested: Rights, bytes: seq<Byte>)
    : (State, Result<(nat, bool, nat, nat), IpcError>)
    requires CounterOk(s)
  {
    if requested == {} then (s, Err(InvalidRights))
    else if |bytes| > MAX_MESSAGE_BYTES then (s, Err(MessageTooLarge))
    else
      match Resolve(s, sender, destination, {Send})
      case (s1, Err(e)) => (s1, Err(e))
      case (s1, Ok(to)) =>
        match Resolve(s1, sender, source, {Delegate})
        case (s2, Err(e)) => (s2, Err(e))
        case (s2, Ok(from)) => TransferResolved(s2, sender, to.target, from, requested, bytes)
  }

  ghost function TransferResolved(
    s: State, sender: nat, receiver: nat, from: Capability, requested: Rights, bytes: seq<Byte>)
    : (State, Result<(nat, bool, nat, nat), IpcError>)
    requires CounterOk(s)
  {
    if !(requested <= from.rights) then (s, Err(RightsEscalation))
    else if Receive in requested && receiver != from.target then (s, Err(InvalidRights))
    else if from.depth + 1 > MAX_LINEAGE_DEPTH then (s, Err(LineageDepthExceeded))
    else
      match Find(s.endpoints, receiver)
      case None => (s, Err(EndpointMissing))
      case Some(i) =>
        if |s.endpoints[i].queue| >= QUEUE_DEPTH then (s, Err(QueueFull))
        else
          match FreeSlot(s.endpoints[i].caps)
          case None => (s, Err(CapabilityCapacity))
          case Some(slot) => Commit(s, sender, receiver, i, slot, from, requested, bytes)
  }

  ghost function ChildOf(s: State, from: Capability, requested: Rights): Capability
    requires CounterOk(s)
  {
    Capability(from.target, Allocate(s).1, from.generation, from.depth + 1, requested, true)
  }

  ghost function PlaceChild(s: State, i: nat, slot: nat, child: Capability): State
    requires CounterOk(s) && i < |s.endpoints| && slot < |s.endpoints[i].caps|
  {
    Granted(Allocate(s).0).(endpoints := PutCap(s.endpoints, i, slot, child))
  }

  ghost function Commit(
    s: State, sender: nat, receiver: nat, i: nat, slot: nat, from: Capability, requested: Rights, bytes: seq<Byte>)
    : (State, Result<(nat, bool, nat, nat), IpcError>)
    requires CounterOk(s) && i < |s.endpoints| && slot < |s.endpoints[i].caps|
  {
    var handle := Encode(slot, ChildOf(s, from, requested).generation);
    (Deliver(PlaceChild(s, i, slot, ChildOf(s, from, requested)), i,
             Message(sender, s.nextSequence, handle, requested, bytes)),
     Ok((s.nextSequence, s.endpoints[i].waiting, receiver, handle)))
  }

  ghost function CanReceive(s: State, receiver: nat): (State, Result<(), IpcError>)
  {
    match SelfCapability(s, receiver)
    case Err(e) => (s, Err(e))
    case Ok(handle) =>
      match Resolve(s, receiver, handle, {Receive})
      case (s1, Err(e)) => (s1, Err(e))
      case (s1, Ok(cap)) => if cap.target != receiver then (s1, Err(PermissionDenied)) else (s1, Ok(()))
  }

  function Popped(s: State, i: nat): State
    requires i < |s.endpoints| && s.endpoints[i].queue != []
  {
    s.(endpoints := s.endpoints[i := s.endpoints[i].(queue := s.endpoints[i].queue[1..])],
       ledger := s.ledger.(received := s.ledger.received + 1))
  }

  function DeliveryOf(m: Message): Delivery { Delivery(m.sender, m.sequence, m.handle, m.rights, m.bytes) }

  ghost function ReceiveFrom(s: State, receiver: nat, capacity: nat): (State, Result<Delivery, IpcError>)
  {
    match CanReceive(s, receiver)
    case (s1, Err(e)) => (s1, Err(e))
    case (s1, Ok(_)) =>
      match Find(s1.endpoints, receiver)
      case None => (s1, Err(EndpointMissing))
      case Some(i) =>
        var queue := s1.endpoints[i].queue;
        if queue == [] then (s1, Err(QueueEmpty))
        else if capacity < |queue[0].bytes| then (s1, Err(BufferTooSmall))
        else
          (Popped(s1, i), Ok(DeliveryOf(queue[0])))
  }

  function SetWaiting(s: State, id: nat, waiting: bool): (State, Result<(), IpcError>)
  {
    match Find(s.endpoints, id)
    case None => (s, Err(EndpointMissing))
    case Some(i) => (s.(endpoints := s.endpoints[i := s.endpoints[i].(waiting := waiting)]), Ok(()))
  }
}
