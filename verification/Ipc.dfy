/**
 The IPC state as the kernel keeps it: fixed arrays of endpoints, each with a ring buffer and a
 capability table, updated in place. Every method is proved to compute its counterpart in IpcModel.
 */
module Ipc {
  import opened Common
  import opened IpcModel
  import opened IpcLineage
  import opened IpcInvariant
  import opened IpcPreservation
  import opened IpcTransfer
  import opened IpcRuns

  /** An endpoint as stored: `len` messages in ring order from `head`. */
  datatype Mailbox = Mailbox(
    owner: nat, queue: seq<Message>, head: nat, len: nat, waiting: bool, caps: seq<Capability>)
  {
    ghost predicate Valid()
    {
      |queue| == QUEUE_DEPTH && head < QUEUE_DEPTH && len <= QUEUE_DEPTH && |caps| == MAX_CAPABILITIES
    }

    function At(k: nat): Message
      requires |queue| == QUEUE_DEPTH
    {
      queue[(head + k) % QUEUE_DEPTH]
    }

    ghost function Contents(): seq<Message>
      requires Valid()
    {
      seq(len, k requires 0 <= k < len => At(k))
    }

    ghost function View(): Endpoint
      requires Valid()
    {
      Endpoint(owner, Contents(), waiting, caps)
    }

    /** Overwrites the message at distance `k` from the head. */
    function Replace(k: nat, m: Message): (r: Mailbox)
      requires Valid() && k < len
      ensures r.Valid() && r == this.(queue := r.queue) && r.Contents() == Contents()[k := m]
    {
      var r := this.(queue := queue[(head + k) % QUEUE_DEPTH := m]);
      assert r.Contents() == Contents()[k := m];
      r
    }

    /** The table changes, the queue does not. */
    function WithCap(s: nat, c: Capability): (r: Mailbox)
      requires Valid() && s < MAX_CAPABILITIES
      ensures r.Valid() && r.View() == View().(caps := caps[s := c])
    {
      var r := this.(caps := caps[s := c]);
      assert r.Contents() == Contents();
      r
    }

    /** Appends at the tail of the ring; a full ring is left alone. */
    function Push(m: Message): (r: (Mailbox, bool))
      requires Valid()
      ensures r.0.Valid() && r.1 == (len < QUEUE_DEPTH)
      ensures r.0.View() == if r.1 then View().(queue := Contents() + [m]) else View()
    {
      if len >= QUEUE_DEPTH then (this, false)
      else
        var r := this.(queue := queue[(head + len) % QUEUE_DEPTH := m], len := len + 1);
        assert r.Contents() == Contents() + [m];
        (r, true)
    }

    function Front(): (r: Option<Message>)
      requires Valid()
      ensures r == if Contents() == [] then None else Some(Contents()[0])
    {
      if len == 0 then None else Some(queue[head])
    }

    /** Takes the head of the ring, clearing its slot and rewinding an emptied ring to slot 0. */
    function Pop(): (r: (Mailbox, Option<Message>))
      requires Valid()
      ensures r.0.Valid() && r.1 == Front()
      ensures r.0.View() == if len == 0 then View() else View().(queue := Contents()[1..])
    {
      if len == 0 then (this, None)
      else
        var next := if len == 1 then 0 else (head + 1) % QUEUE_DEPTH;
        var r := this.(queue := queue[head := EMPTY_MESSAGE], head := next, len := len - 1);
        assert r.Contents() == Contents()[1..] by {
          forall k: nat | k < r.len ensures r.At(k) == At(k + 1) { RingNext(head, k); }
        }
        (r, Some(queue[head]))
    }
  }

  lemma RingNext(head: nat, k: nat)
    requires head < QUEUE_DEPTH && k < QUEUE_DEPTH
    ensures ((head + 1) % QUEUE_DEPTH + k) % QUEUE_DEPTH == (head + (k + 1)) % QUEUE_DEPTH
  {
  }

  const EMPTY_MESSAGE := Message(0, 0, 0, {}, [])

  function EmptyMailbox(owner: nat): (r: Mailbox)
    ensures r.Valid() && r.View() == EmptyEndpoint(owner)
  {
    var r := Mailbox(owner, seq(QUEUE_DEPTH, _ => EMPTY_MESSAGE), 0, 0, false, seq(MAX_CAPABILITIES, _ => NO_CAPABILITY));
    assert r.Contents() == [];
    r
  }

  ghost predicate AllValid(boxes: seq<Mailbox>) { forall i :: 0 <= i < |boxes| ==> boxes[i].Valid() }

  ghost function Views(boxes: seq<Mailbox>): seq<Endpoint>
    requires AllValid(boxes)
  {
    seq(|boxes|, i requires 0 <= i < |boxes| => boxes[i].View())
  }

  lemma ViewsUpdate(boxes: seq<Mailbox>, i: nat, box: Mailbox)
    requires AllValid(boxes) && i < |boxes| && box.Valid()
    ensures AllValid(boxes[i := box]) && Views(boxes[i := box]) == Views(boxes)[i := box.View()]
  {
  }

  function FindBox(boxes: seq<Mailbox>, id: nat): (r: Option<nat>)
    ensures AllValid(boxes) ==> r == Find(Views(boxes), id)
    ensures r.Some? ==> r.value < |boxes| && boxes[r.value].owner == id
  {
    assert AllValid(boxes) ==> forall j :: 0 <= j < |boxes| ==> Views(boxes)[j].owner == boxes[j].owner;
    First(boxes, (b: Mailbox) => b.owner == id)
  }

  /** The first capability, in endpoint then slot order, that satisfies `p`. */
  function FirstCapability(boxes: seq<Mailbox>, p: Capability -> bool): (r: Option<Capability>)
    ensures r.Some? ==>
              p(r.value) && exists i, s :: 0 <= i < |boxes| && 0 <= s < |boxes[i].caps| && boxes[i].caps[s] == r.value
    ensures r.None? ==> forall i, s :: 0 <= i < |boxes| && 0 <= s < |boxes[i].caps| ==> !p(boxes[i].caps[s])
  {
    if boxes == [] then None
    else
      match First(boxes[0].caps, p)
      case Some(s) => Some(boxes[0].caps[s])
      case None =>
        assert forall i :: 1 <= i < |boxes| ==> boxes[i] == boxes[1..][i - 1];
        FirstCapability(boxes[1..], p)
  }

  class IpcState {
    var initialized: bool
    const endpoints: array<Mailbox>
    var nextSequence: nat
    var nextGeneration: nat
    var ledger: Ledger

    /** The abstract value of `endpoints`, kept up to date by every write. */
    ghost var eps: seq<Endpoint>

    ghost predicate Shape()
      reads this, endpoints
    {
      && endpoints.Length == MAX_ENDPOINTS && AllValid(endpoints[..]) && eps == Views(endpoints[..])
      && nextGeneration <= MAX_GENERATION
    }

    ghost function Model(): State
      reads this
    {
      State(initialized, eps, nextSequence, nextGeneration, ledger)
    }

    constructor ()
      ensures Shape() && Model() == Boot(false) && fresh(endpoints)
    {
      initialized, nextSequence, nextGeneration, ledger := false, 1, 1, Ledger(0, 0, 0, 0, 0, 0, 0);
      endpoints := new Mailbox[MAX_ENDPOINTS](_ => EmptyMailbox(0));
      eps := Boot(false).endpoints;
      new;
      assert Views(endpoints[..]) == Boot(false).endpoints;
    }

    method Put(i: nat, box: Mailbox)
      requires Shape() && i < MAX_ENDPOINTS && box.Valid()
      modifies this`eps, endpoints
      ensures Shape() && endpoints[i] == box && eps == old(eps)[i := box.View()]
      ensures forall j :: 0 <= j < MAX_ENDPOINTS && j != i ==> endpoints[j] == old(endpoints[j])
    {
      ViewsUpdate(endpoints[..], i, box);
      ghost var before := endpoints[..];
      endpoints[i] := box;
      eps := eps[i := box.View()];
      assert endpoints[..] == before[i := box];
    }

    // ---- generations

    /** Some active capability has generation `g`. */
    method InUse(g: nat) returns (taken: bool)
      requires Shape()
      ensures taken == (g in Generations(eps))
    {
      var found := FirstCapability(endpoints[..], (c: Capability) => c.active && c.generation == g);
      TakenIsUsed(endpoints[..], g, found);
      taken := found.Some?;
    }

    /** The loop probes at most one generation more than there are active capabilities. */
    method SearchGeneration() returns (g: nat, ghost probes: nat)
      requires Shape()
      modifies this`nextGeneration
      ensures Shape() && nextGeneration == NextGeneration(g)
      ensures g == FreshGeneration(Generations(eps), AtLeastOne(old(nextGeneration)))
      ensures probes <= |Generations(eps)| + 1
    {
      ghost var used, start := Generations(eps), AtLeastOne(nextGeneration);
      probes := 0;
      GenerationsBound(eps);
      SearchStart(used, start);
      while true
        invariant Shape() && eps == old(eps) && Searching(used, start, probes, AtLeastOne(nextGeneration))
        decreases |used| - probes
      {
        g := AtLeastOne(nextGeneration);
        nextGeneration := if g >= MAX_GENERATION then 1 else g + 1;
        var taken := InUse(g);
        SearchStep(used, start, probes, g);
        probes := probes + 1;
        if !taken {
          return;
        }
      }
    }

    method AllocateGeneration() returns (g: nat, ghost probes: nat)
      requires Shape()
      modifies this`nextGeneration
      ensures Shape() && Model() == Allocate(old(Model())).0 && g == Allocate(old(Model())).1
      ensures probes <= |Generations(eps)| + 1
    {
      g, probes := SearchGeneration();
    }

    // ---- revocation

    /** Clears the first active capability of generation `g`. */
    method RemoveFirst(g: nat) returns (removed: bool, ghost at: (int, int))
      requires Shape()
      modifies this`eps, endpoints
      ensures Shape()
      ensures !removed ==> endpoints[..] == old(endpoints[..]) && g !in Generations(eps)
      ensures removed ==> Live(old(eps), at.0, at.1) && CapAt(old(eps), at.0, at.1).generation == g
                          && eps == old(eps)[at.0 := old(eps)[at.0].(caps := old(eps)[at.0].caps[at.1 := NO_CAPABILITY])]
    {
      removed, at := false, (0, 0);
      var i := 0;
      while i < MAX_ENDPOINTS
        invariant 0 <= i <= MAX_ENDPOINTS && Shape() && endpoints[..] == old(endpoints[..])
        invariant forall j, t :: 0 <= j < i && Live(eps, j, t) ==> CapAt(eps, j, t).generation != g
      {
        var s := 0;
        while s < MAX_CAPABILITIES
          invariant 0 <= s <= MAX_CAPABILITIES && endpoints[..] == old(endpoints[..])
          invariant forall t :: t < s && Live(eps, i, t) ==> CapAt(eps, i, t).generation != g
        {
          var box := endpoints[i];
          if box.caps[s].active && box.caps[s].generation == g {
            removed, at := true, (i, s);
            assert Live(eps, i, s);
            Put(i, box.WithCap(s, NO_CAPABILITY));
            return;
          }
          s := s + 1;
        }
        i := i + 1;
      }
    }

    /** Strips the attachments of generation `g` from every queue and counts them. */
    method StripQueued(g: nat) returns (stripped: nat)
      requires Shape()
      modifies this`eps, endpoints
      ensures Shape() && stripped == |Attached(old(eps), {g})|
      ensures forall j :: 0 <= j < MAX_ENDPOINTS ==>
                eps[j] == StripEndpoint(old(eps)[j], g)
    {
      stripped := 0;
      ghost var before := eps;
      var i := 0;
      while i < MAX_ENDPOINTS
        invariant 0 <= i <= MAX_ENDPOINTS == |before| && Shape() && eps == StripFirst(before, i, g)
        invariant stripped == |Attached(before[..i], {g})|
      {
        var n := StripAt(i, g);
        stripped := stripped + n;
        StripNext(before, i, g);
        AttachedPrefix(before, i, {g});
        i := i + 1;
      }
      assert before[..MAX_ENDPOINTS] == before;
    }

    /** Strips the attachments of generation `g` from one queue. */
    method StripAt(i: nat, g: nat) returns (n: nat)
      requires Shape() && i < MAX_ENDPOINTS
      modifies this`eps, endpoints
      ensures Shape() && n == |Hits(old(eps)[i], i, {g})|
      ensures eps == old(eps)[i := StripEndpoint(old(eps)[i], g)]
    {
      var box;
      box, n := StripBox(endpoints[i], g, i);
      Put(i, box);
    }

    /** Removes the capability of generation `g` itself, strips its attachments, counts it. */
    method RevokeOne(g: nat, descendant: bool, report: Report) returns (removed: bool, r: Report)
      requires Shape() && UniqueGenerations(eps)
      modifies this`eps, endpoints
      ensures Shape() && removed == (g in Generations(old(eps)))
      ensures eps == if removed then Erase(old(eps), {g}) else old(eps)
      ensures r == if removed then Report(report.revoked + 1, report.descendants + (if descendant then 1 else 0),
                                          report.stripped + |Attached(old(eps), {g})|)
                   else report
    {
      r := report;
      ghost var before := eps;
      ghost var at;
      removed, at := RemoveFirst(g);
      if !removed {
        return;
      }
      LiveGeneration(before, at.0, at.1);
      r := r.(revoked := r.revoked + 1);
      if descendant {
        r := r.(descendants := r.descendants + 1);
      }
      ghost var cleared := eps;
      var stripped := StripQueued(g);
      r := r.(stripped := r.stripped + stripped);
      EraseOne(before, cleared, eps, at.0, at.1, g);
    }

    /**
     Removes a capability and, recursively, everything delegated from it. Proved to erase exactly
     the branch of `g` and to report the true counts.
     */
    method RevokeBranch(g: nat, descendant: bool, report: Report) returns (r: Report)
      requires Shape() && UniqueGenerations(eps)
      modifies this`eps, endpoints
      ensures Shape() && eps == Erase(old(eps), Branch(old(eps), g))
      ensures r == Tally(report, old(eps), g, Branch(old(eps), g), descendant)
      decreases |Generations(eps)|, 0
    {
      var removed, first := RevokeOne(g, descendant, report);
      if removed {
        r := RevokeRest(g, old(eps), descendant, report, first);
      } else {
        r := first;
        TallyNone(report, old(eps), g, descendant);
      }
    }

    /** The rest of a branch, once its root `g` has been removed and counted in `first`. */
    method RevokeRest(g: nat, ghost before: seq<Endpoint>, ghost descendant: bool, ghost report: Report, first: Report)
      returns (r: Report)
      requires Shape() && UniqueGenerations(before) && g in Generations(before) && eps == Erase(before, {g})
      requires first == Report(report.revoked + 1, report.descendants + (if descendant then 1 else 0),
                               report.stripped + |Attached(before, {g})|)
      modifies this`eps, endpoints
      ensures Shape() && eps == Erase(before, Branch(before, g))
      ensures r == Tally(report, before, g, Branch(before, g), descendant)
      decreases |Generations(before)| - 1, 2
    {
      EraseGenerations(before, {g});
      assert |Generations(before) - {g}| == |Generations(before)| - 1;
      ghost var gone;
      r, gone := RevokeOrphans(g, before, {g}, first);
      BranchRevoked(report, first, r, before, g, gone, descendant);
    }

    /** The child loop: while some active capability names `g` as its parent, revoke its branch. */
    method RevokeOrphans(g: nat, ghost before: seq<Endpoint>, ghost start: set<nat>, report: Report)
      returns (r: Report, ghost gone: set<nat>)
      requires Shape() && UniqueGenerations(before) && Sweep(before, start, start, g)
      requires eps == Erase(before, start)
      modifies this`eps, endpoints
      ensures Shape() && eps == Erase(before, gone) && start <= gone
      ensures Sweep(before, start, gone, g) && forall c: nat :: !Link(eps, c, g)
      ensures Counted(report, r, before, start, gone)
      decreases |Generations(eps)|, 1
    {
      r, gone := report, start;
      EraseGenerations(before, start);
      assert gone - start == {};
      while true
        invariant Shape() && eps == Erase(before, gone) && start <= gone && Sweep(before, start, gone, g)
        invariant Counted(report, r, before, start, gone)
        decreases |Generations(before) - gone|
      {
        var child := FirstCapability(endpoints[..], (c: Capability) => c.active && c.parent == g);
        ChildFound(endpoints[..], g, child);
        if child.None? {
          return;
        }
        ghost var more := Branch(eps, child.value.generation);
        SweepStep(before, start, gone, g, child.value.generation);
        SubsetSize(Generations(before) - gone, Generations(before) - start);
        r := RevokeBranch(child.value.generation, true, r);
        gone := gone + more;
      }
    }

    /** Revokes everything delegated from the root `g`, which itself stays. */
    method RevokeChildren(g: nat, ghost i: nat, ghost t: nat) returns (r: Report)
      requires Shape() && TablesOk(eps) && Live(eps, i, t)
      requires CapAt(eps, i, t).generation == g && CapAt(eps, i, t).parent == 0
      modifies this`eps, endpoints
      ensures Shape() && eps == Erase(old(eps), Branch(old(eps), g) - {g})
      ensures var gens := Branch(old(eps), g) - {g}; r == Report(|gens|, |gens|, |Attached(old(eps), gens)|)
    {
      ghost var before := eps;
      LiveGeneration(before, i, t);
      EraseNoGenerations(before);
      ghost var gone;
      r, gone := RevokeOrphans(g, before, {}, Report(0, 0, 0));
      ChildrenRevoked(r, before, gone, i, t);
    }

    method RevokeGeneration(g: nat) returns (r: Report)
      requires Shape() && UniqueGenerations(eps)
      modifies this`eps, endpoints
      ensures Shape() && eps == Erase(old(eps), Branch(old(eps), g))
      ensures r == Tally(Report(0, 0, 0), old(eps), g, Branch(old(eps), g), false)
    {
      r := RevokeBranch(g, false, Report(0, 0, 0));
    }

    /** Finds the slot a handle names; the checks shared by revoking and resolving. */
    method LookUp(owner: nat, handle: nat) returns (r: Result<(nat, nat), IpcError>)
      requires Shape()
      ensures r == Lookup(eps, owner, handle)
      ensures r.Ok? ==> r.value.0 < MAX_ENDPOINTS && r.value.1 < MAX_CAPABILITIES
                        && eps[r.value.0].caps == endpoints[r.value.0].caps
    {
      var found := FindBox(endpoints[..], owner);
      if found.None? {
        return Err(EndpointMissing);
      }
      var decoded := Decode(handle);
      if decoded.None? {
        return Err(InvalidCapability);
      }
      var (slot, generation) := decoded.value;
      var cap := endpoints[found.value].caps[slot];
      if !cap.active || cap.generation != generation {
        return Err(StaleCapability);
      }
      r := Ok((found.value, slot));
    }

    method RevokeCapability(owner: nat, handle: nat) returns (r: Result<Report, IpcError>)
      requires Shape() && TablesOk(eps)
      modifies this`eps, this`ledger, endpoints
      ensures Shape() && Model() == IpcModel.Revoke(old(Model()), owner, handle).0
      ensures r == IpcModel.Revoke(old(Model()), owner, handle).1
    {
      var at := LookUp(owner, handle);
      match at {
        case Err(e) => r := Err(e);
        case Ok((i, slot)) =>
          var report := RevokeFound(i, slot);
          r := Ok(report);
      }
    }

    method RevokeFound(i: nat, slot: nat) returns (r: Report)
      requires Shape() && TablesOk(eps) && Live(eps, i, slot)
      modifies this`eps, this`ledger, endpoints
      ensures Shape()
      ensures var after := EraseCounted(old(Model()), RevokedBy(old(eps), slot, CapAt(old(eps), i, slot).generation));
              eps == after.endpoints && ledger == after.ledger
      ensures r == RevocationReport(old(eps), slot, CapAt(old(eps), i, slot).generation)
    {
      r := RevokeSlot(i, slot);
      ledger := ledger.(revoked := ledger.revoked + r.revoked);
    }

    method RevokeSlot(i: nat, slot: nat) returns (r: Report)
      requires Shape() && TablesOk(eps) && Live(eps, i, slot)
      modifies this`eps, endpoints
      ensures Shape()
      ensures var g := CapAt(old(eps), i, slot).generation;
              && eps == Erase(old(eps), RevokedBy(old(eps), slot, g))
              && r == RevocationReport(old(eps), slot, g)
    {
      assert eps[i].caps == endpoints[i].caps;
      if slot == 0 {
        assert TableOk(eps, i);
        r := RevokeChildren(endpoints[i].caps[slot].generation, i, slot);
      } else {
        r := RevokeGeneration(endpoints[i].caps[slot].generation);
      }
    }

    // ---- registration

    method Init()
      requires Shape()
      modifies this, endpoints
      ensures Shape() && Model() == IpcModel.Init(old(Model()))
    {
      if initialized {
        return;
      }
      var i := 0;
      while i < MAX_ENDPOINTS
        invariant 0 <= i <= MAX_ENDPOINTS && Shape() && initialized == old(initialized)
        invariant forall j :: 0 <= j < i ==> eps[j] == EmptyEndpoint(0)
      {
        Put(i, EmptyMailbox(0));
        i := i + 1;
      }
      forall j | 0 <= j < MAX_ENDPOINTS ensures Views(endpoints[..])[j] == Boot(true).endpoints[j] {
        assert eps[j] == EmptyEndpoint(0);
      }
      initialized, nextSequence, nextGeneration, ledger := true, 1, 1, Ledger(0, 0, 0, 0, 0, 0, 0);
    }

    method Register(id: nat) returns (r: Result<(), IpcError>)
      requires Shape()
      modifies this, endpoints
      ensures Shape() && Model() == IpcModel.Register(old(Model()), id).0
      ensures r == IpcModel.Register(old(Model()), id).1
    {
      if !initialized {
        return Err(NotInitialized);
      }
      if id == 0 {
        return Err(InvalidTask);
      }
      if FindBox(endpoints[..], id).Some? {
        return Ok(());
      }
      var free := FindBox(endpoints[..], 0);
      if free.None? {
        return Err(EndpointCapacity);
      }
      var i := free.value;
      Put(i, EmptyMailbox(id));
      ghost var cleared := Model();
      var g; ghost var probes;
      g, probes := AllocateGeneration();
      Put(i, endpoints[i].WithCap(0, Capability(id, g, 0, 0, ALL_RIGHTS, true)));
      ledger := ledger.(created := ledger.created + 1, granted := ledger.granted + 1);
      r := Ok(());
    }

    method Grant(owner: nat, target: nat, rights: Rights) returns (r: Result<nat, IpcError>)
      requires Shape()
      modifies this, endpoints
      ensures Shape() && Model() == IpcModel.Grant(old(Model()), owner, target, rights).0
      ensures r == IpcModel.Grant(old(Model()), owner, target, rights).1
    {
      if rights == {} || (Receive in rights && owner != target) {
        return Err(InvalidRights);
      }
      if FindBox(endpoints[..], target).None? {
        return Err(EndpointMissing);
      }
      var found := FindBox(endpoints[..], owner);
      if found.None? {
        return Err(EndpointMissing);
      }
      var i := found.value;
      var slot := FreeSlot(endpoints[i].caps);
      if slot.None? {
        return Err(CapabilityCapacity);
      }
      var g; ghost var probes;
      g, probes := AllocateGeneration();
      Put(i, endpoints[i].WithCap(slot.value, Capability(target, g, 0, 0, rights, true)));
      ledger := ledger.(granted := ledger.granted + 1);
      r := Ok(Encode(slot.value, g));
    }

    // ---- messages

    method Resolve(owner: nat, handle: nat, required: Rights) returns (r: Result<Capability, IpcError>)
      requires Shape() && UniqueGenerations(eps)
      modifies this`eps, this`ledger, endpoints
      ensures Shape() && Model() == IpcModel.Resolve(old(Model()), owner, handle, required).0
      ensures r == IpcModel.Resolve(old(Model()), owner, handle, required).1
    {
      var at := LookUp(owner, handle);
      if at.Err? {
        return Err(at.error);
      }
      var cap := endpoints[at.value.0].caps[at.value.1];
      if !(required <= cap.rights) {
        return Err(PermissionDenied);
      }
      if FindBox(endpoints[..], cap.target).None? {
        RevokeStale(cap.generation);
        return Err(StaleCapability);
      }
      r := Ok(cap);
    }

    method RevokeStale(g: nat)
      requires Shape() && UniqueGenerations(eps)
      modifies this`eps, this`ledger, endpoints
      ensures Shape() && eps == EraseCounted(old(Model()), Branch(old(eps), g)).endpoints
      ensures ledger == EraseCounted(old(Model()), Branch(old(eps), g)).ledger
    {
      var report := RevokeGeneration(g);
      ledger := ledger.(revoked := ledger.revoked + report.revoked);
    }

    method Send(sender: nat, receiver: nat, bytes: seq<Byte>) returns (r: Result<(nat, bool), IpcError>)
      requires Shape()
      modifies this, endpoints
      ensures Shape() && Model() == SendTo(old(Model()), sender, receiver, bytes).0
      ensures r == SendTo(old(Model()), sender, receiver, bytes).1
    {
      if !initialized {
        return Err(NotInitialized);
      }
      if |bytes| > MAX_MESSAGE_BYTES {
        return Err(MessageTooLarge);
      }
      if FindBox(endpoints[..], sender).None? {
        return Err(EndpointMissing);
      }
      var found := FindBox(endpoints[..], receiver);
      if found.None? {
        return Err(EndpointMissing);
      }
      var i := found.value;
      if endpoints[i].len >= QUEUE_DEPTH {
        return Err(QueueFull);
      }
      var sequence, waiting := nextSequence, endpoints[i].waiting;
      Enqueue(i, Message(sender, sequence, 0, {}, bytes));
      r := Ok((sequence, waiting));
    }

    /** Queues a message at an endpoint with room and takes the next sequence number. */
    method Enqueue(i: nat, m: Message)
      requires Shape() && i < MAX_ENDPOINTS && endpoints[i].len < QUEUE_DEPTH
      modifies this`eps, this`nextSequence, this`ledger, endpoints
      ensures Shape() && Model() == Deliver(old(Model()), i, m)
    {
      var (box, pushed) := endpoints[i].Push(m);
      assert box.Contents() == endpoints[i].Contents() + [m];
      var quiet := box.(waiting := false);
      assert quiet.Contents() == box.Contents();
      Put(i, quiet);
      nextSequence := nextSequence + 1;
      ledger := ledger.(sent := ledger.sent + 1);
    }

    method SendCapability(sender: nat, handle: nat, bytes: seq<Byte>) returns (r: Result<(nat, bool, nat), IpcError>)
      requires Shape() && UniqueGenerations(eps)
      modifies this, endpoints
      ensures Shape() && Model() == IpcModel.SendCapability(old(Model()), sender, handle, bytes).0
      ensures r == IpcModel.SendCapability(old(Model()), sender, handle, bytes).1
    {
      var resolved := Resolve(sender, handle, {IpcModel.Send});
      if resolved.Err? {
        return Err(resolved.error);
      }
      var sent := Send(sender, resolved.value.target, bytes);
      if sent.Err? {
        return Err(sent.error);
      }
      r := Ok((sent.value.0, sent.value.1, resolved.value.target));
    }

    method Transfer(sender: nat, destination: nat, source: nat, requested: Rights, bytes: seq<Byte>)
      returns (r: Result<(nat, bool, nat, nat), IpcError>)
      requires Shape() && UniqueGenerations(eps)
      modifies this, endpoints
      ensures Shape() && Model() == IpcModel.Transfer(old(Model()), sender, destination, source, requested, bytes).0
      ensures r == IpcModel.Transfer(old(Model()), sender, destination, source, requested, bytes).1
    {
      if requested == {} {
        return Err(InvalidRights);
      }
      if |bytes| > MAX_MESSAGE_BYTES {
        return Err(MessageTooLarge);
      }
      var to := Resolve(sender, destination, {IpcModel.Send});
      if to.Err? {
        return Err(to.error);
      }
      var from := Resolve(sender, source, {Delegate});
      if from.Err? {
        return Err(from.error);
      }
      r := TransferResolved(sender, to.value.target, from.value, requested, bytes);
    }

    method TransferResolved(sender: nat, receiver: nat, from: Capability, requested: Rights, bytes: seq<Byte>)
      returns (r: Result<(nat, bool, nat, nat), IpcError>)
      requires Shape()
      modifies this, endpoints
      ensures Shape() && Model() == IpcModel.TransferResolved(old(Model()), sender, receiver, from, requested, bytes).0
      ensures r == IpcModel.TransferResolved(old(Model()), sender, receiver, from, requested, bytes).1
    {
      if !(requested <= from.rights) {
        return Err(RightsEscalation);
      }
      if Receive in requested && receiver != from.target {
        return Err(InvalidRights);
      }
      if from.depth + 1 > MAX_LINEAGE_DEPTH {
        return Err(LineageDepthExceeded);
      }
      var found := FindBox(endpoints[..], receiver);
      if found.None? {
        return Err(EndpointMissing);
      }
      var i := found.value;
      if endpoints[i].len >= QUEUE_DEPTH {
        return Err(QueueFull);
      }
      var slot := FreeSlot(endpoints[i].caps);
      if slot.None? {
        return Err(CapabilityCapacity);
      }
      r := Commit(sender, receiver, i, slot.value, from, requested, bytes);
    }

    method Commit(
      sender: nat, receiver: nat, i: nat, slot: nat, from: Capability, requested: Rights, bytes: seq<Byte>)
      returns (r: Result<(nat, bool, nat, nat), IpcError>)
      requires Shape() && i < MAX_ENDPOINTS && slot < MAX_CAPABILITIES && endpoints[i].len < QUEUE_DEPTH
      modifies this, endpoints
      ensures Shape() && Model() == IpcModel.Commit(old(Model()), sender, receiver, i, slot, from, requested, bytes).0
      ensures r == IpcModel.Commit(old(Model()), sender, receiver, i, slot, from, requested, bytes).1
    {
      var sequence, waiting := nextSequence, endpoints[i].waiting;
      var g; ghost var probes;
      g, probes := AllocateGeneration();
      var handle := Encode(slot, g);
      var child := Capability(from.target, g, from.generation, from.depth + 1, requested, true);
      Put(i, endpoints[i].WithCap(slot, child));
      ledger := ledger.(granted := ledger.granted + 1);
      Enqueue(i, Message(sender, sequence, handle, requested, bytes));
      r := Ok((sequence, waiting, receiver, handle));
    }

    method CanReceive(receiver: nat) returns (r: Result<(), IpcError>)
      requires Shape() && UniqueGenerations(eps)
      modifies this`eps, this`ledger, endpoints
      ensures Shape() && Model() == IpcModel.CanReceive(old(Model()), receiver).0
      ensures r == IpcModel.CanReceive(old(Model()), receiver).1
    {
      var found := FindBox(endpoints[..], receiver);
      if found.None? {
        return Err(EndpointMissing);
      }
      var own := endpoints[found.value].caps[0];
      if !own.active || own.target != receiver || !({IpcModel.Send, Receive} <= own.rights) {
        return Err(PermissionDenied);
      }
      var resolved := Resolve(receiver, Encode(0, own.generation), {Receive});
      if resolved.Err? {
        return Err(resolved.error);
      }
      if resolved.value.target != receiver {
        return Err(PermissionDenied);
      }
      r := Ok(());
    }

    method Dequeue(receiver: nat, capacity: nat) returns (r: Result<Delivery, IpcError>)
      requires Shape() && UniqueGenerations(eps)
      modifies this`eps, this`ledger, endpoints
      ensures Shape() && Model() == ReceiveFrom(old(Model()), receiver, capacity).0
      ensures r == ReceiveFrom(old(Model()), receiver, capacity).1
    {
      var allowed := CanReceive(receiver);
      if allowed.Err? {
        return Err(allowed.error);
      }
      var found := FindBox(endpoints[..], receiver);
      if found.None? {
        return Err(EndpointMissing);
      }
      var i := found.value;
      var front := endpoints[i].Front();
      if front.None? {
        return Err(QueueEmpty);
      }
      if capacity < |front.value.bytes| {
        return Err(BufferTooSmall);
      }
      var (box, message) := endpoints[i].Pop();
      Put(i, box);
      ledger := ledger.(received := ledger.received + 1);
      r := Ok(DeliveryOf(message.value));
    }

    method SetWaiting(id: nat, waiting: bool) returns (r: Result<(), IpcError>)
      requires Shape()
      modifies this`eps, endpoints
      ensures Shape() && Model() == IpcModel.SetWaiting(old(Model()), id, waiting).0
      ensures r == IpcModel.SetWaiting(old(Model()), id, waiting).1
    {
      var found := FindBox(endpoints[..], id);
      if found.None? {
        return Err(EndpointMissing);
      }
      var box := endpoints[found.value].(waiting := waiting);
      assert box.Contents() == endpoints[found.value].Contents();
      Put(found.value, box);
      r := Ok(());
    }

    // ---- unregistration

    /** Revokes, first to last, everything endpoint `i` holds. */
    method RevokeHeld(i: nat, ghost id: nat) returns (r: Report, ghost gone: set<nat>)
      requires Shape() && UniqueGenerations(eps) && i < MAX_ENDPOINTS
      modifies this`eps, endpoints
      ensures Shape() && eps == Erase(old(eps), gone) && Cleaning(old(eps), gone, i, id)
      ensures forall t :: !Live(eps, i, t)
      ensures r.revoked == |gone|
    {
      ghost var before := eps;
      r, gone := Report(0, 0, 0), {};
      EraseNoGenerations(before);
      while true
        invariant Shape() && eps == Erase(before, gone) && Cleaning(before, gone, i, id) && r.revoked == |gone|
        decreases |Generations(before) - gone|
      {
        var held := First(endpoints[i].caps, (c: Capability) => c.active);
        assert eps[i].caps == endpoints[i].caps;
        if held.None? {
          return;
        }
        assert Live(eps, i, held.value);
        CleaningStep(before, gone, i, id, i, held.value);
        ghost var more := Branch(eps, endpoints[i].caps[held.value].generation);
        var part := RevokeGeneration(endpoints[i].caps[held.value].generation);
        r := Merge(r, part);
        gone := gone + more;
      }
    }

    /** Revokes everything that still aims at task `id`. */
    method RevokeAimed(i: nat, id: nat, ghost before: seq<Endpoint>, ghost start: set<nat>, report: Report)
      returns (r: Report, ghost gone: set<nat>)
      requires Shape() && UniqueGenerations(before) && i < MAX_ENDPOINTS
      requires eps == Erase(before, start) && Cleaning(before, start, i, id)
      requires report.revoked == |start| && forall t :: !Live(eps, i, t)
      modifies this`eps, endpoints
      ensures Shape() && eps == Erase(before, gone) && Cleaning(before, gone, i, id)
      ensures forall j, t :: Live(eps, j, t) ==> j != i && CapAt(eps, j, t).target != id
      ensures r.revoked == |gone|
    {
      r, gone := report, start;
      while true
        invariant Shape() && eps == Erase(before, gone) && Cleaning(before, gone, i, id) && r.revoked == |gone|
        invariant forall t :: !Live(eps, i, t)
        decreases |Generations(before) - gone|
      {
        var aimed := FirstCapability(endpoints[..], (c: Capability) => c.active && c.target == id);
        ghost var at := AimedFound(endpoints[..], id, aimed);
        if aimed.None? {
          return;
        }
        CleaningStep(before, gone, i, id, at.0, at.1);
        ghost var more := Branch(eps, aimed.value.generation);
        NoneHeldAfter(eps, more, i);
        var part := RevokeGeneration(aimed.value.generation);
        r := Merge(r, part);
        gone := gone + more;
      }
    }

    /** The two cleanup loops: what endpoint `i` holds, then what aims at its owner. */
    method RevokeAll(i: nat, id: nat) returns (revoked: nat)
      requires Shape() && UniqueGenerations(eps) && i < MAX_ENDPOINTS
      modifies this`eps, endpoints
      ensures Shape() && eps == Erase(old(eps), Branches(old(eps), CleanupRoots(old(eps), i, id)))
      ensures revoked == |Branches(old(eps), CleanupRoots(old(eps), i, id))|
    {
      ghost var before := eps;
      var report; ghost var gone;
      report, gone := RevokeHeld(i, id);
      report, gone := RevokeAimed(i, id, before, gone, report);
      CleaningDone(before, gone, i, id);
      revoked := report.revoked;
    }

    method Unregister(id: nat) returns (r: Result<nat, IpcError>)
      requires Shape() && UniqueGenerations(eps)
      modifies this`eps, this`ledger, endpoints
      ensures Shape() && Model() == IpcModel.Unregister(old(Model()), id).0
      ensures r == IpcModel.Unregister(old(Model()), id).1
    {
      var found := FindBox(endpoints[..], id);
      if found.None? {
        return Err(EndpointMissing);
      }
      var i := found.value;
      var dropped := endpoints[i].len;
      assert dropped == |eps[i].queue|;
      var revoked := RevokeAll(i, id);
      Put(i, EmptyMailbox(0));
      ledger := ledger.(destroyed := ledger.destroyed + 1, dropped := ledger.dropped + dropped,
                        revoked := ledger.revoked + revoked);
      r := Ok(dropped);
    }
  }

  function Merge(r: Report, part: Report): Report
  {
    Report(r.revoked + part.revoked, r.descendants + part.descendants, r.stripped + part.stripped)
  }

  /** Part of the cleanup of endpoint `i`: whole branches of what it holds or what aims at `id`. */
  ghost predicate Cleaning(before: seq<Endpoint>, gone: set<nat>, i: nat, id: nat)
  {
    gone <= Branches(before, CleanupRoots(before, i, id)) && ChildClosed(before, gone)
  }

  lemma CleaningStep(before: seq<Endpoint>, gone: set<nat>, i: nat, id: nat, j: int, t: int)
    requires UniqueGenerations(before) && Cleaning(before, gone, i, id)
    requires Live(Erase(before, gone), j, t) && (j == i || CapAt(Erase(before, gone), j, t).target == id)
    ensures var now := Erase(before, gone);
            var more := Branch(now, CapAt(now, j, t).generation);
            && UniqueGenerations(now)
            && Cleaning(before, gone + more, i, id)
            && Erase(now, more) == Erase(before, gone + more)
            && |gone + more| == |gone| + |more|
            && |Generations(before) - (gone + more)| < |Generations(before) - gone|
  {
    var now := Erase(before, gone);
    var g := CapAt(now, j, t).generation;
    var more := Branch(now, g);
    EraseLive(before, gone, j, t);
    EraseKeepsUnique(before, gone);
    EraseGenerations(before, gone);
    LiveGeneration(now, j, t);
    BranchRoot(now, g);
    EraseTwice(before, gone, more);
    assert Live(before, j, t) && g in CleanupRoots(before, i, id);
    forall h | h in more ensures h in Branches(before, CleanupRoots(before, i, id)) && h !in gone {
      BranchAfterErase(before, gone, g, h);
    }
    assert more !! gone;
    forall x: nat, p: nat | Link(before, x, p) && p in gone + more ensures x in gone + more {
      if p in more { BranchKeepsClosed(before, gone, g, x, p); }
    }
    ShrinkingDifference(Generations(before), gone, more, g);
  }

  lemma NoneHeldAfter(eps: seq<Endpoint>, gens: set<nat>, i: nat)
    requires forall t :: !Live(eps, i, t)
    ensures forall t :: !Live(Erase(eps, gens), i, t)
  {
    forall t ensures !Live(Erase(eps, gens), i, t) { EraseLive(eps, gens, i, t); }
  }

  lemma AimedFound(boxes: seq<Mailbox>, id: nat, aimed: Option<Capability>) returns (at: (int, int))
    requires AllValid(boxes)
    requires aimed == FirstCapability(boxes, (c: Capability) => c.active && c.target == id)
    ensures aimed.Some? ==> Live(Views(boxes), at.0, at.1) && CapAt(Views(boxes), at.0, at.1) == aimed.value
                            && aimed.value.target == id
    ensures aimed.None? ==> forall j, t :: Live(Views(boxes), j, t) ==> CapAt(Views(boxes), j, t).target != id
  {
    var eps := Views(boxes);
    at := (0, 0);
    if aimed.Some? {
      var i, s :| 0 <= i < |boxes| && 0 <= s < |boxes[i].caps| && boxes[i].caps[s] == aimed.value;
      at := (i, s);
      assert Live(eps, i, s);
    } else {
      forall j, t | Live(eps, j, t) ensures CapAt(eps, j, t).target != id { assert eps[j].caps[t] == boxes[j].caps[t]; }
    }
  }

  lemma RootGone(before: seq<Endpoint>, gone: set<nat>, i: nat, id: nat, g: nat)
    requires forall j, t :: Live(Erase(before, gone), j, t) ==> j != i && CapAt(Erase(before, gone), j, t).target != id
    requires g in CleanupRoots(before, i, id)
    ensures g in gone
  {
    CleanupRootLive(before, i, id, g);
    var j, t :| Live(before, j, t) && CapAt(before, j, t).generation == g && (j == i || CapAt(before, j, t).target == id);
    EraseLive(before, gone, j, t);
  }

  lemma CleaningDone(before: seq<Endpoint>, gone: set<nat>, i: nat, id: nat)
    requires Cleaning(before, gone, i, id)
    requires forall j, t :: Live(Erase(before, gone), j, t) ==> j != i && CapAt(Erase(before, gone), j, t).target != id
    ensures gone == Branches(before, CleanupRoots(before, i, id))
  {
    var roots := CleanupRoots(before, i, id);
    forall g | g in roots ensures g in gone { RootGone(before, gone, i, id, g); }
    forall h | h in Branches(before, roots) ensures h in gone {
      var g :| g in roots && InBranch(before, h, g);
      var n: nat :| Descends(before, h, g, n);
      ClosedContains(before, gone, h, g, n);
    }
  }

  ghost function StripEndpoint(e: Endpoint, g: nat): Endpoint
  {
    Endpoint(e.owner, seq(|e.queue|, k requires 0 <= k < |e.queue| => StripMessage(e.queue[k], {g})), e.waiting, e.caps)
  }

  /** The first `n` queues stripped of generation `g`, the rest as they were. */
  ghost function StripFirst(eps: seq<Endpoint>, n: nat, g: nat): seq<Endpoint>
  {
    seq(|eps|, j requires 0 <= j < |eps| => if j < n then StripEndpoint(eps[j], g) else eps[j])
  }

  lemma StripNext(eps: seq<Endpoint>, i: nat, g: nat)
    requires i < |eps|
    ensures StripFirst(eps, i, g)[i] == eps[i]
    ensures StripFirst(eps, i + 1, g) == StripFirst(eps, i, g)[i := StripEndpoint(eps[i], g)]
  {
  }

  /** Queue positions of one endpoint whose attachment carries a generation in `gens`. */
  ghost function Hits(e: Endpoint, i: int, gens: set<nat>): set<(int, int)>
  {
    set k | 0 <= k < |e.queue| && Decode(e.queue[k].handle).Some? && HandleGeneration(e.queue[k].handle) in gens :: (i, k)
  }

  lemma AttachedPrefix(eps: seq<Endpoint>, i: nat, gens: set<nat>)
    requires i < |eps|
    ensures Attached(eps[..i + 1], gens) == Attached(eps[..i], gens) + Hits(eps[i], i, gens)
    ensures |Attached(eps[..i + 1], gens)| == |Attached(eps[..i], gens)| + |Hits(eps[i], i, gens)|
  {
    assert Attached(eps[..i + 1], gens) == Attached(eps[..i], gens) + Hits(eps[i], i, gens);
    assert Attached(eps[..i], gens) !! Hits(eps[i], i, gens);
  }

  /** The first `n` messages stripped of generation `g`, the rest as they were. */
  ghost function StripPrefix(queue: seq<Message>, n: nat, g: nat): seq<Message>
    requires n <= |queue|
  {
    seq(|queue|, k requires 0 <= k < |queue| => if k < n then StripMessage(queue[k], {g}) else queue[k])
  }

  lemma HitsGrow(queue: seq<Message>, n: nat, i: int, g: nat)
    requires n < |queue|
    ensures var hit := Decode(queue[n].handle).Some? && HandleGeneration(queue[n].handle) == g;
            |Hits(Endpoint(0, queue[..n + 1], false, []), i, {g})|
            == |Hits(Endpoint(0, queue[..n], false, []), i, {g})| + (if hit then 1 else 0)
    ensures StripPrefix(queue, n + 1, g) == StripPrefix(queue, n, g)[n := StripMessage(queue[n], {g})]
  {
    var hit := Decode(queue[n].handle).Some? && HandleGeneration(queue[n].handle) == g;
    var less, more := Hits(Endpoint(0, queue[..n], false, []), i, {g}), Hits(Endpoint(0, queue[..n + 1], false, []), i, {g});
    assert more == if hit then less + {(i, n)} else less;
  }

  /** The inner loop of the strip: one ring, in place. */
  method StripBox(box: Mailbox, g: nat, ghost i: int) returns (r: Mailbox, n: nat)
    requires box.Valid()
    ensures r.Valid() && r.View() == StripEndpoint(box.View(), g)
    ensures n == |Hits(box.View(), i, {g})|
  {
    r, n := box, 0;
    ghost var queue := box.Contents();
    assert r.Contents() == StripPrefix(queue, 0, g);
    var offset := 0;
    while offset < box.len
      invariant 0 <= offset <= box.len && r.Valid() && r == box.(queue := r.queue)
      invariant r.Contents() == StripPrefix(queue, offset, g)
      invariant n == |Hits(Endpoint(0, queue[..offset], false, []), i, {g})|
    {
      var m := r.At(offset);
      assert m == r.Contents()[offset] == queue[offset];
      HitsGrow(queue, offset, i, g);
      if Decode(m.handle).Some? && HandleGeneration(m.handle) == g {
        r := r.Replace(offset, m.(handle := 0, rights := {}));
        n := n + 1;
      }
      offset := offset + 1;
    }
    assert queue[..box.len] == queue;
    assert r.Contents() == StripEndpoint(box.View(), g).queue;
    assert Hits(Endpoint(0, queue, false, []), i, {g}) == Hits(box.View(), i, {g});
  }

  // ---- glue between the stored arrays and the model

  lemma TakenIsUsed(boxes: seq<Mailbox>, g: nat, taken: Option<Capability>)
    requires AllValid(boxes)
    requires taken == FirstCapability(boxes, (c: Capability) => c.active && c.generation == g)
    ensures taken.Some? <==> g in Generations(Views(boxes))
  {
    var eps := Views(boxes);
    if taken.Some? {
      var i, s :| 0 <= i < |boxes| && 0 <= s < |boxes[i].caps| && boxes[i].caps[s] == taken.value;
      assert Live(eps, i, s) && CapAt(eps, i, s).generation == g;
    } else {
      forall i, s | Live(eps, i, s) ensures CapAt(eps, i, s).generation != g { assert eps[i].caps[s] == boxes[i].caps[s]; }
    }
  }

  lemma ChildFound(boxes: seq<Mailbox>, g: nat, child: Option<Capability>)
    requires AllValid(boxes)
    requires child == FirstCapability(boxes, (c: Capability) => c.active && c.parent == g)
    ensures child.Some? ==> Link(Views(boxes), child.value.generation, g)
    ensures child.None? ==> forall c: nat :: !Link(Views(boxes), c, g)
  {
    var eps := Views(boxes);
    if child.Some? {
      var i, s :| 0 <= i < |boxes| && 0 <= s < |boxes[i].caps| && boxes[i].caps[s] == child.value;
      assert Live(eps, i, s) && CapAt(eps, i, s) == child.value;
    } else {
      forall i, s | Live(eps, i, s) ensures CapAt(eps, i, s).parent != g { assert eps[i].caps[s] == boxes[i].caps[s]; }
    }
  }

  /** The first `n` generations probed from `start`. */
  ghost function Probed(start: nat, n: nat): set<nat>
    requires 1 <= start <= MAX_GENERATION
  {
    set j: nat | j < n :: Probe(start, j)
  }

  /** The allocation loop after `n` failed probes: all distinct, all taken, next candidate `g`. */
  ghost predicate Searching(used: set<nat>, start: nat, n: nat, g: nat)
    requires 1 <= start <= MAX_GENERATION
  {
    && Probed(start, n) <= used && |Probed(start, n)| == n && g == Probe(start, n)
    && FreshGeneration(used, start) == FreshGeneration(used - Probed(start, n), g)
  }

  lemma SearchStart(used: set<nat>, start: nat)
    requires 1 <= start <= MAX_GENERATION
    ensures Searching(used, start, 0, start)
  {
    ProbeStep(start, 0);
    assert Probed(start, 0) == {} && used - {} == used;
  }

  /** A free candidate is the answer; a taken one is new, and the search goes on after it. */
  lemma SearchStep(used: set<nat>, start: nat, n: nat, g: nat)
    requires 1 <= start <= MAX_GENERATION && |used| < MAX_GENERATION
    requires Searching(used, start, n, g)
    ensures n <= |used|
    ensures g !in used ==> FreshGeneration(used, start) == g
    ensures g in used ==> n < |used| && Searching(used, start, n + 1, NextGeneration(g))
  {
    var probed, more := Probed(start, n), Probed(start, n + 1);
    SubsetSize(probed, used);
    if g in used {
      forall j: nat | j < n ensures Probe(start, j) != g { ProbesDiffer(start, j, n); }
      NextProbe(start, n);
      assert more == probed + {g};
      assert used - more == (used - probed) - {g};
      SubsetSize(more, used);
    }
  }

  lemma NextProbe(start: nat, n: nat)
    requires 1 <= start <= MAX_GENERATION
    ensures NextGeneration(Probe(start, n)) == Probe(start, n + 1)
  {
    if (start - 1 + n) % MAX_GENERATION == MAX_GENERATION - 1 {
      assert (start - 1 + n + 1) % MAX_GENERATION == 0;
    } else {
      assert (start - 1 + n + 1) % MAX_GENERATION == (start - 1 + n) % MAX_GENERATION + 1;
    }
  }

  lemma EraseNoGenerations(eps: seq<Endpoint>)
    ensures Erase(eps, {}) == eps && Attached(eps, {}) == {}
  {
    forall i | 0 <= i < |eps| ensures Erase(eps, {})[i] == eps[i] {
      assert Erase(eps, {})[i].caps == eps[i].caps && Erase(eps, {})[i].queue == eps[i].queue;
    }
  }

  lemma EraseOne(before: seq<Endpoint>, cleared: seq<Endpoint>, after: seq<Endpoint>, i: int, s: int, g: nat)
    requires UniqueGenerations(before) && Live(before, i, s) && CapAt(before, i, s).generation == g
    requires cleared == before[i := before[i].(caps := before[i].caps[s := NO_CAPABILITY])]
    requires |after| == |cleared| && forall j :: 0 <= j < |after| ==> after[j] == StripEndpoint(cleared[j], g)
    ensures after == Erase(before, {g}) && Attached(cleared, {g}) == Attached(before, {g})
  {
    var erased := Erase(before, {g});
    forall j | 0 <= j < |after| ensures after[j] == erased[j] {
      forall t | 0 <= t < |before[j].caps| ensures after[j].caps[t] == erased[j].caps[t] {
        assert !(j == i && t == s) && Live(before, j, t) ==> CapAt(before, j, t).generation != g;
      }
      assert after[j].caps == erased[j].caps && after[j].queue == erased[j].queue;
    }
  }

  ghost predicate StrictlyBelow(eps: seq<Endpoint>, h: nat, g: nat)
  {
    exists n: nat :: n != 0 && Descends(eps, h, g, n)
  }

  /** All removed beyond `start` descends strictly from `g`, and only `g` may still have children. */
  ghost predicate Sweep(before: seq<Endpoint>, start: set<nat>, gone: set<nat>, g: nat)
  {
    && g in Generations(before) && gone <= Generations(before)
    && (forall h :: h in gone - start ==> StrictlyBelow(before, h, g))
    && (forall x: nat, p: nat :: Link(before, x, p) && p in gone && p != g ==> x in gone)
  }

  /** From `report` to `r`, everything in `gone` beyond `start` was counted once. */
  ghost predicate Counted(report: Report, r: Report, before: seq<Endpoint>, start: set<nat>, gone: set<nat>)
  {
    && r.revoked == report.revoked + |gone - start|
    && r.descendants == report.descendants + |gone - start|
    && r.stripped + |Attached(before, start)| == report.stripped + |Attached(before, gone)|
  }

  /** The report after revoking `gens`, all of them descendants except possibly the root `g`. */
  ghost function Tally(report: Report, before: seq<Endpoint>, g: nat, gens: set<nat>, descendant: bool): Report
  {
    Report(report.revoked + |gens|,
           report.descendants + (if descendant then |gens| else |gens - {g}|),
           report.stripped + |Attached(before, gens)|)
  }

  lemma BranchRevoked(
    report: Report, first: Report, r: Report, before: seq<Endpoint>, g: nat, gone: set<nat>, descendant: bool)
    requires UniqueGenerations(before) && Sweep(before, {g}, gone, g) && g in gone
    requires forall c: nat :: !Link(Erase(before, gone), c, g)
    requires Counted(first, r, before, {g}, gone)
    requires first == Report(report.revoked + 1, report.descendants + (if descendant then 1 else 0),
                             report.stripped + |Attached(before, {g})|)
    ensures gone == Branch(before, g) && UniqueGenerations(Erase(before, gone))
    ensures r == Tally(report, before, g, gone, descendant)
  {
    SweepDone(before, gone, g);
    assert |gone - {g}| == |gone| - 1;
  }

  lemma TallyNone(report: Report, before: seq<Endpoint>, g: nat, descendant: bool)
    requires g !in Generations(before)
    ensures Erase(before, Branch(before, g)) == before
    ensures report == Tally(report, before, g, Branch(before, g), descendant)
  {
    BranchRoot(before, g);
    EraseNoGenerations(before);
    var none: set<nat> := {};
    assert none - {g} == {};
  }

  /** One round of the child loop keeps the removed set sound and closed, and the counts true. */
  lemma SweepStep(before: seq<Endpoint>, start: set<nat>, gone: set<nat>, g: nat, c: nat)
    requires UniqueGenerations(before) && start <= gone && Sweep(before, start, gone, g) && Link(Erase(before, gone), c, g)
    ensures var now := Erase(before, gone);
            var more := Branch(now, c);
            && UniqueGenerations(now)
            && Sweep(before, start, gone + more, g)
            && Erase(now, more) == Erase(before, gone + more)
            && |(gone + more) - start| == |gone - start| + |more|
            && |Attached(before, gone + more)| == |Attached(before, gone)| + |Attached(now, more)|
            && |Generations(before) - (gone + more)| < |Generations(before) - gone|
            && Generations(now) == Generations(before) - gone
  {
    var now := Erase(before, gone);
    var more := Branch(now, c);
    EraseGenerations(before, gone);
    EraseKeepsUnique(before, gone);
    LinkGeneration(now, c, g);
    BranchRoot(now, c);
    SweepSound(before, gone, g, c);
    forall x: nat, p: nat | Link(before, x, p) && p in gone + more && p != g ensures x in gone + more {
      if p in more { BranchKeepsClosed(before, gone, c, x, p); }
    }
    assert more !! gone;
    assert (gone + more) - start == (gone - start) + more;
    EraseTwice(before, gone, more);
    AttachedAfterErase(before, gone, more);
    ShrinkingDifference(Generations(before), gone, more, c);
  }

  lemma SweepSound(before: seq<Endpoint>, gone: set<nat>, g: nat, c: nat)
    requires Link(Erase(before, gone), c, g) && g in Generations(before)
    ensures forall h :: h in Branch(Erase(before, gone), c) ==> h !in gone && h in Generations(before) && StrictlyBelow(before, h, g)
  {
    EraseLink(before, gone, c, g);
    assert Descends(before, g, g, 0);
    assert Descends(before, c, g, 1);
    forall h | h in Branch(Erase(before, gone), c)
      ensures h !in gone && h in Generations(before) && StrictlyBelow(before, h, g)
    {
      BranchAfterErase(before, gone, c, h);
      var n: nat :| Descends(before, h, c, n);
      DescendsJoin(before, h, c, g, n, 1);
    }
  }

  lemma BranchKeepsClosed(before: seq<Endpoint>, gone: set<nat>, c: nat, x: nat, p: nat)
    requires Link(before, x, p) && p in Branch(Erase(before, gone), c)
    ensures x in gone + Branch(Erase(before, gone), c)
  {
    if x !in gone {
      EraseLink(before, gone, x, p);
      BranchClosed(Erase(before, gone), c, x, p);
    }
  }

  lemma SweepClosedAtEnd(before: seq<Endpoint>, gone: set<nat>, g: nat)
    requires forall x: nat, p: nat :: Link(before, x, p) && p in gone && p != g ==> x in gone
    requires forall c: nat :: !Link(Erase(before, gone), c, g)
    ensures forall x: nat, p: nat :: Link(before, x, p) && p in gone + {g} ==> x in gone
  {
    forall x: nat, p: nat | Link(before, x, p) && p in gone + {g} ensures x in gone {
      EraseLink(before, gone, x, p);
    }
  }

  lemma SweepDone(before: seq<Endpoint>, gone: set<nat>, g: nat)
    requires UniqueGenerations(before) && Sweep(before, {g}, gone, g) && g in gone
    requires forall c: nat :: !Link(Erase(before, gone), c, g)
    ensures gone == Branch(before, g) && UniqueGenerations(Erase(before, gone))
  {
    SweepClosedAtEnd(before, gone, g);
    forall h | h in gone ensures InBranch(before, h, g) {
      if h == g { assert Descends(before, g, g, 0); } else { assert h in gone - {g}; }
    }
    BranchCharacterised(before, gone, g);
    EraseKeepsUnique(before, gone);
  }

  lemma SweepChildrenDone(before: seq<Endpoint>, gone: set<nat>, i: nat, t: nat)
    requires TablesOk(before) && Live(before, i, t) && CapAt(before, i, t).parent == 0
    requires Sweep(before, {}, gone, CapAt(before, i, t).generation)
    requires forall c: nat :: !Link(Erase(before, gone), c, CapAt(before, i, t).generation)
    ensures gone == Branch(before, CapAt(before, i, t).generation) - {CapAt(before, i, t).generation}
  {
    var g := CapAt(before, i, t).generation;
    SweepClosedAtEnd(before, gone, g);
    forall h | h in gone + {g} ensures InBranch(before, h, g) {
      if h == g { assert Descends(before, g, g, 0); } else { assert h in gone - {}; }
    }
    BranchCharacterised(before, gone + {g}, g);
    RootNotBelow(before, i, t, g);
    assert g in gone ==> g in gone - {};
  }

  lemma ChildrenRevoked(r: Report, before: seq<Endpoint>, gone: set<nat>, i: nat, t: nat)
    requires TablesOk(before) && Live(before, i, t) && CapAt(before, i, t).parent == 0
    requires Sweep(before, {}, gone, CapAt(before, i, t).generation)
    requires forall c: nat :: !Link(Erase(before, gone), c, CapAt(before, i, t).generation)
    requires Counted(Report(0, 0, 0), r, before, {}, gone)
    ensures gone == Branch(before, CapAt(before, i, t).generation) - {CapAt(before, i, t).generation}
    ensures r == Report(|gone|, |gone|, |Attached(before, gone)|)
  {
    SweepChildrenDone(before, gone, i, t);
    EraseNoGenerations(before);
    assert gone - {} == gone;
  }

  lemma RootNotBelow(eps: seq<Endpoint>, i: nat, t: nat, g: nat)
    requires TablesOk(eps) && Live(eps, i, t) && CapAt(eps, i, t).parent == 0
    ensures !StrictlyBelow(eps, CapAt(eps, i, t).generation, g)
  {
    var root := CapAt(eps, i, t).generation;
    ZeroNotLive(eps);
    forall p: nat | Link(eps, root, p) ensures p == 0 { LinkParent(eps, i, t, p); }
    forall n: nat | Descends(eps, root, g, n) ensures n == 0 { DescendsFrom(eps, root, g, n); }
  }

  lemma ShrinkingDifference(all: set<nat>, gone: set<nat>, more: set<nat>, c: nat)
    requires c in more && c !in gone && c in all
    ensures |all - (gone + more)| < |all - gone|
  {
    SubsetSize(all - (gone + more), (all - gone) - {c});
  }
}
