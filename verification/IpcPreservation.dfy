/** Every IPC operation keeps the invariant. */
module IpcPreservation {
  import opened Common
  import opened IpcModel
  import opened IpcLineage
  import opened IpcInvariant

  lemma FindSameOwners(before: seq<Endpoint>, after: seq<Endpoint>, id: nat)
    requires |before| == |after| && forall i :: 0 <= i < |before| ==> before[i].owner == after[i].owner
    ensures Find(before, id) == Find(after, id)
  {
  }

  /** The new capability `c` may be placed in endpoint `i`. */
  ghost predicate Admissible(eps: seq<Endpoint>, i: nat, c: Capability)
    requires i < |eps|
  {
    && c.active && 1 <= c.generation <= MAX_GENERATION && c.generation !in Generations(eps)
    && c.rights != {} && c.depth <= MAX_LINEAGE_DEPTH
    && c.target != 0 && Find(eps, c.target).Some?
    && (Receive in c.rights ==> eps[i].owner == c.target)
    && (if c.parent == 0 then c.depth == 0 else HasParent(eps, c))
  }

  lemma PutCapLive(eps: seq<Endpoint>, i: nat, slot: nat, c: Capability, j: int, t: int)
    requires i < |eps| && slot < |eps[i].caps| && c.active
    ensures Live(PutCap(eps, i, slot, c), j, t) <==> Live(eps, j, t) || (j == i && t == slot)
    ensures j == i && t == slot ==> CapAt(PutCap(eps, i, slot, c), j, t) == c
    ensures Live(eps, j, t) && !(j == i && t == slot) ==> CapAt(PutCap(eps, i, slot, c), j, t) == CapAt(eps, j, t)
  {
  }

  lemma PutCapUnique(eps: seq<Endpoint>, i: nat, slot: nat, c: Capability)
    requires UniqueGenerations(eps) && i < |eps| && slot < |eps[i].caps| && !Live(eps, i, slot)
    requires c.active && c.generation !in Generations(eps)
    ensures UniqueGenerations(PutCap(eps, i, slot, c))
  {
    var after := PutCap(eps, i, slot, c);
    forall j, t | Live(after, j, t)
      ensures || (j == i && t == slot && CapAt(after, j, t) == c)
              || (Live(eps, j, t) && CapAt(after, j, t) == CapAt(eps, j, t) && CapAt(eps, j, t).generation != c.generation)
    {
      PutCapLive(eps, i, slot, c, j, t);
      if Live(eps, j, t) { LiveGeneration(eps, j, t); }
    }
  }

  lemma PutCapCapOk(eps: seq<Endpoint>, i: nat, slot: nat, c: Capability, j: int, t: int)
    requires i < |eps| && slot < |eps[i].caps| && !Live(eps, i, slot) && Admissible(eps, i, c)
    requires Live(PutCap(eps, i, slot, c), j, t) && (Live(eps, j, t) ==> CapOk(eps, j, t))
    ensures CapOk(PutCap(eps, i, slot, c), j, t)
  {
    var after := PutCap(eps, i, slot, c);
    PutCapLive(eps, i, slot, c, j, t);
    var d := CapAt(after, j, t);
    FindSameOwners(eps, after, d.target);
    if d.parent != 0 {
      var k, u :| Live(eps, k, u) && MayDelegate(CapAt(eps, k, u), d);
      PutCapLive(eps, i, slot, c, k, u);
      assert Live(after, k, u) && MayDelegate(CapAt(after, k, u), d);
    }
  }

  lemma PutCapOk(eps: seq<Endpoint>, i: nat, slot: nat, c: Capability)
    requires TablesOk(eps) && i < |eps| && slot < |eps[i].caps|
    requires eps[i].owner != 0 && !Live(eps, i, slot) && Admissible(eps, i, c)
    ensures TablesOk(PutCap(eps, i, slot, c))
  {
    var after := PutCap(eps, i, slot, c);
    PutCapUnique(eps, i, slot, c);
    forall j, t | Live(after, j, t) ensures CapOk(after, j, t) {
      PutCapCapOk(eps, i, slot, c, j, t);
    }
    forall j | 0 <= j < |after| ensures TableOk(after, j) {
      assert TableOk(eps, j);
      forall t ensures Live(after, j, t) <==> Live(eps, j, t) || (j == i && t == slot) { PutCapLive(eps, i, slot, c, j, t); }
    }
  }

  /** Placing a capability in a free slot leaves queued attachments as they were. */
  lemma PutCapQueue(e: Endpoint, slot: nat, c: Capability, next: nat)
    requires QueueOk(e, next) && slot < |e.caps| && !e.caps[slot].active
    ensures QueueOk(e.(caps := e.caps[slot := c]), next)
  {
    var after := e.(caps := e.caps[slot := c]);
    forall k | 0 <= k < |after.queue| ensures AttachmentOk(after, k) { assert AttachmentOk(e, k); }
  }

  lemma RegisterKeepsInv(s: State, id: nat)
    requires Inv(s)
    ensures Inv(Register(s, id).0)
  {
    var r := Register(s, id).0;
    if s.initialized && id != 0 && Find(s.endpoints, id).None? && Find(s.endpoints, 0).Some? {
      var i := Find(s.endpoints, 0).value;
      var eps := s.endpoints;
      var cleared := s.(endpoints := eps[i := EmptyEndpoint(id)]);
      assert TableOk(eps, i);
      AllocateNotLive(cleared);
      var g := Allocate(cleared).1;
      var after := r.endpoints;
      forall j, t
        ensures Live(after, j, t) <==> Live(eps, j, t) || (j == i && t == 0)
        ensures Live(eps, j, t) ==> j != i && CapAt(after, j, t) == CapAt(eps, j, t) && Live(cleared.endpoints, j, t)
      {
      }
      assert CapAt(after, i, 0) == Capability(id, g, 0, 0, ALL_RIGHTS, true);
      RegisteredOk(eps, after, i, id, g);
      forall j | 0 <= j < |after| ensures QueueOk(after[j], r.nextSequence) {}
    }
  }

  lemma RegisteredOk(eps: seq<Endpoint>, after: seq<Endpoint>, i: nat, id: nat, g: nat)
    requires TablesOk(eps) && i < |eps| == |after| && eps[i].owner == 0 && id != 0 && Find(eps, id).None?
    requires after[i].owner == id && |after[i].caps| == MAX_CAPABILITIES && after[i].queue == []
    requires forall j :: 0 <= j < |eps| && j != i ==> after[j] == eps[j]
    requires forall j, t :: Live(after, j, t) <==> Live(eps, j, t) || (j == i && t == 0)
    requires CapAt(after, i, 0) == Capability(id, g, 0, 0, ALL_RIGHTS, true)
    requires 1 <= g <= MAX_GENERATION && forall j, t :: Live(eps, j, t) && j != i ==> CapAt(eps, j, t).generation != g
    ensures TablesOk(after)
  {
    assert TableOk(eps, i);
    forall j, t | Live(after, j, t) ensures CapOk(after, j, t) {
      if Live(eps, j, t) {
        assert CapOk(eps, j, t) && after[j] == eps[j];
        var d := CapAt(eps, j, t);
        var f := Find(eps, d.target).value;
        assert after[f].owner == d.target;
        if d.parent != 0 {
          var k, u :| Live(eps, k, u) && MayDelegate(CapAt(eps, k, u), d);
          assert Live(after, k, u) && MayDelegate(CapAt(after, k, u), d);
        }
      }
    }
    forall j | 0 <= j < |after| ensures TableOk(after, j) {
      assert TableOk(eps, j);
      if after[j].owner == 0 {
        forall t ensures !Live(after, j, t) {}
      }
    }
  }

  // ---- erasure

  /** A set of generations that no surviving capability descends from. */
  ghost predicate ChildClosed(eps: seq<Endpoint>, gens: set<nat>)
  {
    forall c: nat, p: nat :: Link(eps, c, p) && p in gens ==> c in gens
  }

  lemma EraseQueue(e: Endpoint, gens: set<nat>, next: nat)
    requires QueueOk(e, next)
    ensures QueueOk(EraseEndpoint(e, gens), next)
  {
    var after := EraseEndpoint(e, gens);
    assert Decode(0).None?;
    forall k | 0 <= k < |after.queue| ensures AttachmentOk(after, k) { assert AttachmentOk(e, k); }
  }

  /** What survives the erasure of a child-closed set is still a valid capability. */
  lemma SurvivorOk(eps: seq<Endpoint>, gens: set<nat>, after: seq<Endpoint>, j: int, t: int)
    requires TablesOk(eps) && ChildClosed(eps, gens) && |after| == |eps|
    requires forall k, u :: Live(eps, k, u) && CapAt(eps, k, u).generation !in gens ==>
                              Live(after, k, u) && CapAt(after, k, u) == CapAt(eps, k, u)
    requires Live(eps, j, t) && CapAt(eps, j, t).generation !in gens && after[j].owner == eps[j].owner
    requires Find(after, CapAt(eps, j, t).target).Some?
    ensures CapOk(after, j, t)
  {
    assert CapOk(eps, j, t);
    var d := CapAt(eps, j, t);
    if d.parent != 0 {
      var k, u :| Live(eps, k, u) && MayDelegate(CapAt(eps, k, u), d);
      assert Live(eps, k, u);
      LiveGeneration(eps, j, t);
      assert Link(eps, d.generation, d.parent);
      assert CapAt(eps, k, u).generation !in gens;
      assert Live(after, k, u) && MayDelegate(CapAt(after, k, u), d);
    }
  }

  ghost predicate SparesRoots(eps: seq<Endpoint>, gens: set<nat>)
  {
    forall i :: 0 <= i < |eps| && eps[i].owner != 0 && Live(eps, i, 0) ==> CapAt(eps, i, 0).generation !in gens
  }

  lemma EraseOk(eps: seq<Endpoint>, gens: set<nat>)
    requires TablesOk(eps) && ChildClosed(eps, gens) && SparesRoots(eps, gens)
    ensures TablesOk(Erase(eps, gens))
  {
    var after := Erase(eps, gens);
    EraseKeepsUnique(eps, gens);
    forall j, t
      ensures Live(after, j, t) <==> Live(eps, j, t) && CapAt(eps, j, t).generation !in gens
      ensures Live(after, j, t) ==> CapAt(after, j, t) == CapAt(eps, j, t)
    {
      EraseLive(eps, gens, j, t);
    }
    forall j, t | Live(after, j, t) ensures CapOk(after, j, t) {
      assert CapOk(eps, j, t);
      FindSameOwners(eps, after, CapAt(eps, j, t).target);
      SurvivorOk(eps, gens, after, j, t);
    }
    forall j | 0 <= j < |after| ensures TableOk(after, j) { assert TableOk(eps, j); }
  }

  lemma EraseCountedKeepsInv(s: State, gens: set<nat>)
    requires Inv(s) && ChildClosed(s.endpoints, gens) && SparesRoots(s.endpoints, gens)
    ensures Inv(EraseCounted(s, gens))
  {
    EraseOk(s.endpoints, gens);
    var after := EraseCounted(s, gens);
    forall j | 0 <= j < |after.endpoints| ensures QueueOk(after.endpoints[j], after.nextSequence) {
      EraseQueue(s.endpoints[j], gens, s.nextSequence);
    }
  }

  lemma LinkParent(eps: seq<Endpoint>, i: int, t: int, p: nat)
    requires UniqueGenerations(eps) && Live(eps, i, t) && Link(eps, CapAt(eps, i, t).generation, p)
    ensures p == CapAt(eps, i, t).parent
  {
  }

  lemma DescendsFrom(eps: seq<Endpoint>, h: nat, g: nat, n: nat)
    requires Descends(eps, h, g, n)
    ensures h in Generations(eps)
    ensures n == 0 ==> h == g
    ensures n != 0 ==> exists p: nat :: Link(eps, h, p) && p in Generations(eps)
    decreases n
  {
    if n != 0 {
      var p: nat :| Link(eps, h, p) && Descends(eps, p, g, n - 1);
      LinkGeneration(eps, h, p);
      DescendsFrom(eps, p, g, n - 1);
    }
  }

  /** A root capability belongs to no branch but its own. */
  lemma RootBranch(eps: seq<Endpoint>, i: int, t: int, g: nat)
    requires TablesOk(eps) && Live(eps, i, t) && CapAt(eps, i, t).parent == 0
    requires CapAt(eps, i, t).generation in Branch(eps, g)
    ensures CapAt(eps, i, t).generation == g
  {
    var root := CapAt(eps, i, t).generation;
    var n: nat :| Descends(eps, root, g, n);
    DescendsFrom(eps, root, g, n);
    forall p: nat | Link(eps, root, p) ensures p == 0 { LinkParent(eps, i, t, p); }
    ZeroNotLive(eps);
  }

  lemma BranchChildClosed(eps: seq<Endpoint>, g: nat)
    ensures ChildClosed(eps, Branch(eps, g))
  {
    forall c: nat, p: nat | Link(eps, c, p) && p in Branch(eps, g) ensures c in Branch(eps, g) {
      BranchClosed(eps, g, c, p);
    }
  }

  lemma RevokedByClosed(eps: seq<Endpoint>, i: nat, slot: nat)
    requires TablesOk(eps) && Live(eps, i, slot)
    ensures ChildClosed(eps, RevokedBy(eps, slot, CapAt(eps, i, slot).generation))
    ensures SparesRoots(eps, RevokedBy(eps, slot, CapAt(eps, i, slot).generation))
  {
    var g := CapAt(eps, i, slot).generation;
    var gens := RevokedBy(eps, slot, g);
    BranchChildClosed(eps, g);
    ZeroNotLive(eps);
    assert TableOk(eps, i);
    forall c: nat, p: nat | Link(eps, c, p) && p in gens ensures c in gens {
      if c == g { LinkParent(eps, i, slot, p); }
    }
    forall j | 0 <= j < |eps| && eps[j].owner != 0 && Live(eps, j, 0)
      ensures CapAt(eps, j, 0).generation !in gens
    {
      assert TableOk(eps, j);
      if CapAt(eps, j, 0).generation in Branch(eps, g) { RootBranch(eps, j, 0, g); }
    }
  }

  lemma RevokeKeepsInv(s: State, owner: nat, handle: nat)
    requires Inv(s)
    ensures Inv(Revoke(s, owner, handle).0)
  {
    if Revoke(s, owner, handle).1.Ok? {
      var i := Find(s.endpoints, owner).value;
      var (slot, g) := Decode(handle).value;
      assert Live(s.endpoints, i, slot) && CapAt(s.endpoints, i, slot).generation == g;
      RevokedByClosed(s.endpoints, i, slot);
      EraseCountedKeepsInv(s, RevokedBy(s.endpoints, slot, g));
    }
  }

  lemma ZeroNotLive(eps: seq<Endpoint>)
    requires TablesOk(eps)
    ensures 0 !in Generations(eps)
  {
    forall i, s | Live(eps, i, s) ensures CapAt(eps, i, s).generation != 0 { assert CapOk(eps, i, s); }
  }

  // ---- unregistering

  lemma CleanupRootLive(eps: seq<Endpoint>, i: nat, id: nat, g: nat)
    requires g in CleanupRoots(eps, i, id)
    ensures exists j, t :: Live(eps, j, t) && CapAt(eps, j, t).generation == g && (j == i || CapAt(eps, j, t).target == id)
  {
    var j, t :| 0 <= j < |eps| && 0 <= t < |eps[j].caps| && Live(eps, j, t)
      && (j == i || CapAt(eps, j, t).target == id) && CapAt(eps, j, t).generation == g;
    assert Live(eps, j, t);
  }

  lemma CleanupBranches(eps: seq<Endpoint>, i: nat, id: nat)
    requires TablesOk(eps) && i < |eps| && eps[i].owner == id
    ensures var gens := Branches(eps, CleanupRoots(eps, i, id));
            && ChildClosed(eps, gens)
            && (forall j, t :: Live(eps, j, t) && (j == i || CapAt(eps, j, t).target == id) ==>
                                 CapAt(eps, j, t).generation in gens)
            && (forall j, t :: Live(eps, j, t) && j != i && CapAt(eps, j, t).target != id && CapAt(eps, j, t).parent == 0 ==>
                                 CapAt(eps, j, t).generation !in gens)
  {
    var roots := CleanupRoots(eps, i, id);
    var gens := Branches(eps, roots);
    forall c: nat, p: nat | Link(eps, c, p) && p in gens ensures c in gens {
      var g :| g in roots && InBranch(eps, p, g);
      BranchClosed(eps, g, c, p);
    }
    forall j, t | Live(eps, j, t) && (j == i || CapAt(eps, j, t).target == id)
      ensures CapAt(eps, j, t).generation in gens
    {
      var g := CapAt(eps, j, t).generation;
      assert g in roots && g in Generations(eps);
      assert Descends(eps, g, g, 0);
    }
    forall j, t | Live(eps, j, t) && j != i && CapAt(eps, j, t).target != id && CapAt(eps, j, t).parent == 0
      ensures CapAt(eps, j, t).generation !in gens
    {
      var h := CapAt(eps, j, t).generation;
      forall g | g in roots && h in Branch(eps, g) ensures h == g { RootBranch(eps, j, t, g); }
      forall g | g in roots ensures g != h { CleanupRootLive(eps, i, id, g); }
    }
  }

  lemma UnregisterKeepsInv(s: State, id: nat)
    requires Inv(s)
    ensures Inv(Unregister(s, id).0)
  {
    if Find(s.endpoints, id).Some? {
      var eps := s.endpoints;
      var i := Find(eps, id).value;
      var gens := Branches(eps, CleanupRoots(eps, i, id));
      var after := Unregister(s, id).0;
      CleanupBranches(eps, i, id);
      UnregisteredOk(eps, gens, i, id);
      UnregisteredQueues(eps, gens, i, s.nextSequence);
    }
  }

  lemma UnregisteredQueues(eps: seq<Endpoint>, gens: set<nat>, i: nat, next: nat)
    requires i < |eps| && forall j :: 0 <= j < |eps| ==> QueueOk(eps[j], next)
    ensures var after := Erase(eps, gens)[i := EmptyEndpoint(0)];
            |after| == |eps| && forall j :: 0 <= j < |after| ==> QueueOk(after[j], next)
  {
    forall j | 0 <= j < |eps| ensures QueueOk(EraseEndpoint(eps[j], gens), next) { EraseQueue(eps[j], gens, next); }
  }

  lemma UnregisteredOk(eps: seq<Endpoint>, gens: set<nat>, i: nat, id: nat)
    requires TablesOk(eps) && i < |eps| && eps[i].owner == id && ChildClosed(eps, gens)
    requires forall j, t :: Live(eps, j, t) && (j == i || CapAt(eps, j, t).target == id) ==>
                              CapAt(eps, j, t).generation in gens
    requires forall j, t :: Live(eps, j, t) && j != i && CapAt(eps, j, t).target != id && CapAt(eps, j, t).parent == 0 ==>
                              CapAt(eps, j, t).generation !in gens
    ensures TablesOk(Erase(eps, gens)[i := EmptyEndpoint(0)])
  {
    var after := Erase(eps, gens)[i := EmptyEndpoint(0)];
    forall j, t
      ensures Live(after, j, t) <==> Live(eps, j, t) && CapAt(eps, j, t).generation !in gens
      ensures Live(after, j, t) ==> j != i && CapAt(after, j, t) == CapAt(eps, j, t)
    {
      EraseLive(eps, gens, j, t);
    }
    forall j, t | Live(after, j, t) ensures CapOk(after, j, t) {
      assert CapOk(eps, j, t);
      var f := Find(eps, CapAt(eps, j, t).target).value;
      assert after[f].owner == CapAt(eps, j, t).target;
      SurvivorOk(eps, gens, after, j, t);
    }
    forall j | 0 <= j < |after| ensures TableOk(after, j) {
      assert TableOk(eps, j);
      if j == i { forall t ensures !Live(after, j, t) {} }
    }
  }

  // ---- granting and resolving

  lemma GrantKeepsInv(s: State, owner: nat, target: nat, rights: Rights)
    requires Inv(s) && owner != 0 && target != 0
    ensures Inv(Grant(s, owner, target, rights).0)
  {
    if Grant(s, owner, target, rights).1.Ok? {
      var i := Find(s.endpoints, owner).value;
      var slot := FreeSlot(s.endpoints[i].caps).value;
      AllocateNotLive(s);
      var c := Capability(target, Allocate(s).1, 0, 0, rights, true);
      PutCapOk(s.endpoints, i, slot, c);
      PutCapQueue(s.endpoints[i], slot, c, s.nextSequence);
    }
  }

  /** Targets are always registered, so resolving never reaches its cleanup branch. */
  lemma ResolveKeepsState(s: State, owner: nat, handle: nat, required: Rights)
    requires Inv(s)
    ensures Resolve(s, owner, handle, required).0 == s
    ensures Resolve(s, owner, handle, required).1.Ok? ==>
              var i := Find(s.endpoints, owner).value;
              var c := Resolve(s, owner, handle, required).1.value;
              && Decode(handle).Some?
              && Live(s.endpoints, i, Decode(handle).value.0) && CapAt(s.endpoints, i, Decode(handle).value.0) == c
              && c.generation == Decode(handle).value.1 && required <= c.rights && Find(s.endpoints, c.target).Some?
              && c.target != 0
  {
    var i, d := Find(s.endpoints, owner), Decode(handle);
    if i.Some? && d.Some? && Live(s.endpoints, i.value, d.value.0) {
      assert CapOk(s.endpoints, i.value, d.value.0);
    }
  }

  // ---- messages

  ghost predicate SameTables(before: seq<Endpoint>, after: seq<Endpoint>)
  {
    && |before| == |after|
    && (forall i :: 0 <= i < |before| ==> before[i].owner == after[i].owner && before[i].caps == after[i].caps)
    && (forall i :: 0 <= i < |before| && before[i].owner == 0 ==> before[i] == after[i])
    && (forall i :: 0 <= i < |after| ==> |after[i].queue| <= QUEUE_DEPTH)
  }

  lemma SameTablesOk(before: seq<Endpoint>, after: seq<Endpoint>)
    requires TablesOk(before) && SameTables(before, after)
    ensures TablesOk(after)
  {
    forall i, s ensures Live(before, i, s) <==> Live(after, i, s)
      ensures Live(before, i, s) ==> CapAt(before, i, s) == CapAt(after, i, s)
    {
    }
    forall i, s | Live(after, i, s) ensures CapOk(after, i, s) {
      assert CapOk(before, i, s);
      var c := CapAt(before, i, s);
      FindSameOwners(before, after, c.target);
      if c.parent != 0 {
        var k, u :| Live(before, k, u) && MayDelegate(CapAt(before, k, u), c);
        assert Live(after, k, u) && MayDelegate(CapAt(after, k, u), c);
      }
    }
    forall i | 0 <= i < |after| ensures TableOk(after, i) { assert TableOk(before, i); }
  }

  /** Message `m` may be queued at `e`: its attachment, if any, names a live capability of `e`. */
  ghost predicate Deliverable(e: Endpoint, m: Message, next: nat)
  {
    && m.sequence == next && |m.bytes| <= MAX_MESSAGE_BYTES
    && if m.handle == 0 then m.rights == {} else
         && Decode(m.handle).Some?
         && var (slot, g) := Decode(m.handle).value;
         slot < |e.caps| && e.caps[slot].active && e.caps[slot].generation == g && e.caps[slot].rights == m.rights
         && forall k :: 0 <= k < |e.queue| ==> e.queue[k].handle != m.handle
  }

  lemma PushQueue(e: Endpoint, m: Message, next: nat)
    requires QueueOk(e, next) && Deliverable(e, m, next)
    ensures QueueOk(e.(queue := e.queue + [m], waiting := false), next + 1)
  {
    var after := e.(queue := e.queue + [m], waiting := false);
    forall k | 0 <= k < |after.queue| ensures AttachmentOk(after, k) {
      if k < |e.queue| { assert AttachmentOk(e, k) && after.queue[k] == e.queue[k]; }
    }
  }

  lemma LaterQueue(e: Endpoint, next: nat)
    requires QueueOk(e, next)
    ensures QueueOk(e, next + 1)
  {
  }

  lemma DeliverKeepsInv(s: State, i: nat, m: Message)
    requires Inv(s) && i < |s.endpoints| && s.endpoints[i].owner != 0 && |s.endpoints[i].queue| < QUEUE_DEPTH
    requires Deliverable(s.endpoints[i], m, s.nextSequence)
    ensures Inv(Deliver(s, i, m))
  {
    var after := Deliver(s, i, m);
    SameTablesOk(s.endpoints, after.endpoints);
    forall j | 0 <= j < |after.endpoints| ensures QueueOk(after.endpoints[j], after.nextSequence) {
      if j == i { PushQueue(s.endpoints[i], m, s.nextSequence); } else { LaterQueue(s.endpoints[j], s.nextSequence); }
    }
  }

  /** Sending fails without effect, or appends one plain message to the receiver's queue. */
  lemma SendCases(s: State, sender: nat, receiver: nat, bytes: seq<Byte>) returns (i: nat)
    ensures SendTo(s, sender, receiver, bytes).1.Err? ==> SendTo(s, sender, receiver, bytes).0 == s
    ensures SendTo(s, sender, receiver, bytes).1.Ok? ==>
              && i < |s.endpoints| && s.endpoints[i].owner == receiver && Find(s.endpoints, receiver) == Some(i)
              && |s.endpoints[i].queue| < QUEUE_DEPTH && |bytes| <= MAX_MESSAGE_BYTES
              && SendTo(s, sender, receiver, bytes).0 == Deliver(s, i, Message(sender, s.nextSequence, 0, {}, bytes))
              && SendTo(s, sender, receiver, bytes).1.value == (s.nextSequence, s.endpoints[i].waiting)
  {
    i := 0;
    if SendTo(s, sender, receiver, bytes).1.Ok? { i := Find(s.endpoints, receiver).value; }
  }

  lemma SendKeepsInv(s: State, sender: nat, receiver: nat, bytes: seq<Byte>)
    requires Inv(s) && receiver != 0
    ensures Inv(SendTo(s, sender, receiver, bytes).0)
  {
    var i := SendCases(s, sender, receiver, bytes);
    if SendTo(s, sender, receiver, bytes).1.Ok? {
      DeliverKeepsInv(s, i, Message(sender, s.nextSequence, 0, {}, bytes));
    }
  }

  /** Sending through a capability is sending to its target, or a refusal without effect. */
  lemma SendCapabilityCases(s: State, sender: nat, handle: nat, bytes: seq<Byte>) returns (receiver: nat)
    requires Inv(s)
    ensures receiver != 0
    ensures || (SendCapability(s, sender, handle, bytes).1.Err? && SendCapability(s, sender, handle, bytes).0 == s)
            || (&& SendTo(s, sender, receiver, bytes).1.Ok?
                && SendCapability(s, sender, handle, bytes).0 == SendTo(s, sender, receiver, bytes).0
                && SendCapability(s, sender, handle, bytes).1
                   == Ok((SendTo(s, sender, receiver, bytes).1.value.0, SendTo(s, sender, receiver, bytes).1.value.1, receiver)))
  {
    ResolveKeepsState(s, sender, handle, {Send});
    var r := Resolve(s, sender, handle, {Send}).1;
    receiver := if r.Ok? then r.value.target else 1;
    var i := SendCases(s, sender, receiver, bytes);
  }

  lemma SendCapabilityKeepsInv(s: State, sender: nat, handle: nat, bytes: seq<Byte>)
    requires Inv(s)
    ensures Inv(SendCapability(s, sender, handle, bytes).0)
  {
    var receiver := SendCapabilityCases(s, sender, handle, bytes);
    SendKeepsInv(s, sender, receiver, bytes);
  }

  /** Receiving fails without effect, or takes the head of the receiver's queue. */
  lemma ReceiveCases(s: State, receiver: nat, capacity: nat) returns (i: nat)
    requires Inv(s)
    ensures CanReceive(s, receiver).0 == s
    ensures ReceiveFrom(s, receiver, capacity).1.Err? ==> ReceiveFrom(s, receiver, capacity).0 == s
    ensures ReceiveFrom(s, receiver, capacity).1.Ok? ==>
              && i < |s.endpoints| && s.endpoints[i].owner == receiver != 0 && Find(s.endpoints, receiver) == Some(i)
              && s.endpoints[i].queue != []
              && ReceiveFrom(s, receiver, capacity).0 == Popped(s, i)
              && ReceiveFrom(s, receiver, capacity).1.value == DeliveryOf(s.endpoints[i].queue[0])
  {
    i := 0;
    var self := SelfCapability(s, receiver);
    if self.Ok? { ResolveKeepsState(s, receiver, self.value, {Receive}); }
    if ReceiveFrom(s, receiver, capacity).1.Ok? {
      i := Find(s.endpoints, receiver).value;
      assert TableOk(s.endpoints, i);
    }
  }

  lemma PoppedKeepsInv(s: State, i: nat)
    requires Inv(s) && i < |s.endpoints| && s.endpoints[i].owner != 0 && s.endpoints[i].queue != []
    ensures Inv(Popped(s, i))
  {
    var after := Popped(s, i);
    SameTablesOk(s.endpoints, after.endpoints);
    forall j | 0 <= j < |after.endpoints| ensures QueueOk(after.endpoints[j], after.nextSequence) {
      var e, e' := s.endpoints[j], after.endpoints[j];
      assert QueueOk(e, s.nextSequence);
      if j == i {
        forall k | 0 <= k < |e'.queue| ensures AttachmentOk(e', k) {
          assert AttachmentOk(e, k + 1) && e'.queue[k] == e.queue[k + 1];
        }
      }
    }
  }

  lemma ReceiveKeepsInv(s: State, receiver: nat, capacity: nat)
    requires Inv(s)
    ensures Inv(ReceiveFrom(s, receiver, capacity).0)
  {
    var i := ReceiveCases(s, receiver, capacity);
    if ReceiveFrom(s, receiver, capacity).1.Ok? { PoppedKeepsInv(s, i); }
  }

  lemma SetWaitingKeepsInv(s: State, id: nat, waiting: bool)
    requires Inv(s) && id != 0
    ensures Inv(SetWaiting(s, id, waiting).0)
  {
    if Find(s.endpoints, id).Some? {
      var i := Find(s.endpoints, id).value;
      var after := SetWaiting(s, id, waiting).0;
      SameTablesOk(s.endpoints, after.endpoints);
      forall j | 0 <= j < |after.endpoints| ensures QueueOk(after.endpoints[j], after.nextSequence) {
        assert QueueOk(s.endpoints[j], s.nextSequence);
        FlaggedQueue(s.endpoints[j], after.endpoints[j], s.nextSequence);
      }
    }
  }

  lemma FlaggedQueue(e: Endpoint, e': Endpoint, next: nat)
    requires QueueOk(e, next) && e'.queue == e.queue && e'.caps == e.caps
    ensures QueueOk(e', next)
  {
    forall k | 0 <= k < |e'.queue| ensures AttachmentOk(e', k) { assert AttachmentOk(e, k); }
  }
}
