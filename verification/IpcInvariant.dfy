/** The IPC invariant, and the proof that every operation keeps it. */
module IpcInvariant {
  import opened Common
  import opened IpcModel
  import opened IpcLineage

  ghost predicate ShapeOk(eps: seq<Endpoint>)
  {
    && |eps| == MAX_ENDPOINTS
    && (forall i :: 0 <= i < |eps| ==> |eps[i].caps| == MAX_CAPABILITIES)
    && (forall i :: 0 <= i < |eps| ==> |eps[i].queue| <= QUEUE_DEPTH)
  }

  ghost predicate OwnersUnique(eps: seq<Endpoint>)
  {
    forall i, j :: 0 <= i < j < |eps| && eps[i].owner != 0 ==> eps[i].owner != eps[j].owner
  }

  /** Free endpoints are idle; slot 0 of a registered endpoint is its own root capability. */
  ghost predicate TableOk(eps: seq<Endpoint>, i: int)
    requires 0 <= i < |eps|
  {
    if eps[i].owner == 0 then
      eps[i].queue == [] && !eps[i].waiting && forall s :: !Live(eps, i, s)
    else
      Live(eps, i, 0) && CapAt(eps, i, 0).target == eps[i].owner && CapAt(eps, i, 0).parent == 0
      && {Send, Receive} <= CapAt(eps, i, 0).rights
  }

  /** `p` may be the parent of `c`: same target, delegable, at least the rights, one level up. */
  predicate MayDelegate(p: Capability, c: Capability)
  {
    p.generation == c.parent && p.target == c.target && Delegate in p.rights && c.rights <= p.rights
    && p.depth + 1 == c.depth
  }

  ghost predicate HasParent(eps: seq<Endpoint>, c: Capability)
  {
    exists j, t :: Live(eps, j, t) && MayDelegate(CapAt(eps, j, t), c)
  }

  ghost predicate CapOk(eps: seq<Endpoint>, i: int, s: int)
    requires Live(eps, i, s)
  {
    var c := CapAt(eps, i, s);
    && 1 <= c.generation <= MAX_GENERATION
    && c.rights != {}
    && c.depth <= MAX_LINEAGE_DEPTH
    && c.target != 0 && Find(eps, c.target).Some?
    && (Receive in c.rights ==> eps[i].owner == c.target)
    && (if c.parent == 0 then c.depth == 0 else HasParent(eps, c))
  }

  /** A queued attachment names a live capability of the endpoint that will receive it. */
  ghost predicate AttachmentOk(e: Endpoint, k: int)
    requires 0 <= k < |e.queue|
  {
    var m := e.queue[k];
    if m.handle == 0 then m.rights == {}
    else
      && Decode(m.handle).Some?
      && var (slot, g) := Decode(m.handle).value;
      slot < |e.caps| && e.caps[slot].active && e.caps[slot].generation == g && e.caps[slot].rights == m.rights
  }

  ghost predicate QueueOk(e: Endpoint, nextSequence: nat)
  {
    && (forall k :: 0 <= k < |e.queue| ==> AttachmentOk(e, k))
    && (forall k :: 0 <= k < |e.queue| ==> |e.queue[k].bytes| <= MAX_MESSAGE_BYTES)
    && (forall k :: 0 <= k < |e.queue| ==> e.queue[k].sequence < nextSequence)
    && (forall k, l :: 0 <= k < l < |e.queue| ==> e.queue[k].sequence < e.queue[l].sequence)
    && (forall k, l :: 0 <= k < l < |e.queue| && e.queue[k].handle != 0 ==> e.queue[k].handle != e.queue[l].handle)
  }

  ghost predicate TablesOk(eps: seq<Endpoint>)
  {
    && ShapeOk(eps)
    && OwnersUnique(eps)
    && UniqueGenerations(eps)
    && (forall i :: 0 <= i < |eps| ==> TableOk(eps, i))
    && (forall i, s :: Live(eps, i, s) ==> CapOk(eps, i, s))
  }

  ghost predicate Inv(s: State)
  {
    && TablesOk(s.endpoints)
    && (forall i :: 0 <= i < |s.endpoints| ==> QueueOk(s.endpoints[i], s.nextSequence))
    && s.nextGeneration <= MAX_GENERATION
    && (!s.initialized ==> forall i :: 0 <= i < |s.endpoints| ==> s.endpoints[i].owner == 0)
  }

  lemma BootInv(initialized: bool)
    ensures Inv(Boot(initialized))
  {
    var s := Boot(initialized);
    forall i, t ensures !Live(s.endpoints, i, t) {}
  }

  // ---- lookups under the invariant

  lemma FindUnique(eps: seq<Endpoint>, i: int)
    requires OwnersUnique(eps) && 0 <= i < |eps| && eps[i].owner != 0
    ensures Find(eps, eps[i].owner) == Some(i)
  {
  }

  // ---- a fresh generation

  lemma ProbeStep(g: nat, k: nat)
    requires 1 <= g <= MAX_GENERATION
    ensures Probe(NextGeneration(g), k) == Probe(g, k + 1)
    ensures Probe(g, 0) == g
    ensures 1 <= Probe(g, k) <= MAX_GENERATION
  {
    if g == MAX_GENERATION {
      assert (g - 1 + (k + 1)) % MAX_GENERATION == (k + MAX_GENERATION) % MAX_GENERATION == k % MAX_GENERATION;
    }
  }

  lemma ProbesDiffer(g: nat, j: nat, k: nat)
    requires 1 <= g <= MAX_GENERATION && j < k < j + MAX_GENERATION
    ensures Probe(g, j) != Probe(g, k)
  {
  }

  /**
   The allocation loop makes at most one probe more than there are taken generations: its
   result is the k-th probe, every earlier probe was taken, and k is at most |used|.
   */
  lemma {:induction false} FreshProbes(used: set<nat>, g: nat) returns (k: nat)
    requires 1 <= g <= MAX_GENERATION && |used| < MAX_GENERATION
    ensures k <= |used| && FreshGeneration(used, g) == Probe(g, k)
    ensures forall j: nat :: j < k ==> Probe(g, j) in used
    ensures FreshGeneration(used, g) !in used
    decreases |used|
  {
    ProbeStep(g, 0);
    if g !in used {
      k := 0;
    } else {
      var rest := used - {g};
      var k' := FreshProbes(rest, NextGeneration(g));
      k := k' + 1;
      ProbeStep(g, k');
      ProbesDiffer(g, 0, k);
      forall j: nat | j < k ensures Probe(g, j) in used {
        if j > 0 {
          ProbeStep(g, j - 1);
          assert Probe(NextGeneration(g), j - 1) in rest;
        }
      }
    }
  }

  /** At most 64 capabilities can be active, so a fresh generation always exists. */
  lemma {:induction false} GenerationsBound(eps: seq<Endpoint>)
    requires forall i :: 0 <= i < |eps| ==> |eps[i].caps| == MAX_CAPABILITIES
    ensures |Generations(eps)| <= 8 * |eps|
  {
    if eps != [] {
      var last := |eps| - 1;
      var rest := eps[..last];
      GenerationsBound(rest);
      var own := seq(MAX_CAPABILITIES, s requires 0 <= s < MAX_CAPABILITIES => eps[last].caps[s].generation);
      var owned := Elements(own);
      forall h | h in Generations(eps) ensures h in Generations(rest) + owned {
        var i, s :| Live(eps, i, s) && CapAt(eps, i, s).generation == h;
        assert Live(eps, i, s);
        if i < last {
          assert rest[i] == eps[i];
          assert Live(rest, i, s) && CapAt(rest, i, s).generation == h;
        } else {
          assert own[s] == h;
        }
      }
      SubsetSize(Generations(eps), Generations(rest) + owned);
      ElementsBound(own);
    }
  }

  lemma AllocateNotLive(s: State)
    requires ShapeOk(s.endpoints) && CounterOk(s)
    ensures Allocate(s).1 !in Generations(s.endpoints)
    ensures 1 <= Allocate(s).1 <= MAX_GENERATION
    ensures 1 <= Allocate(s).0.nextGeneration <= MAX_GENERATION
    ensures Allocate(s).0 == s.(nextGeneration := Allocate(s).0.nextGeneration)
  {
    GenerationsBound(s.endpoints);
    var k := FreshProbes(Generations(s.endpoints), AtLeastOne(s.nextGeneration));
  }

  /** Some active capability has generation `g` or names it as its parent. */
  ghost predicate InTables(eps: seq<Endpoint>, g: nat)
  {
    exists i, s :: Live(eps, i, s) && (CapAt(eps, i, s).generation == g || CapAt(eps, i, s).parent == g)
  }

  /** Some queued message carries a handle of generation `g`. */
  ghost predicate InQueues(eps: seq<Endpoint>, g: nat)
  {
    exists i, k :: 0 <= i < |eps| && 0 <= k < |eps[i].queue|
      && eps[i].queue[k].handle != 0 && HandleGeneration(eps[i].queue[k].handle) == g
  }

  /** Parent links and queued handles name only generations of active capabilities. */
  lemma UsedIsLive(s: State, g: nat)
    requires Inv(s) && g != 0 && (InTables(s.endpoints, g) || InQueues(s.endpoints, g))
    ensures g in Generations(s.endpoints)
  {
    var eps := s.endpoints;
    if InTables(eps, g) {
      var i, t :| Live(eps, i, t) && (CapAt(eps, i, t).generation == g || CapAt(eps, i, t).parent == g);
      assert CapOk(eps, i, t);
      if CapAt(eps, i, t).generation == g {
        LiveGeneration(eps, i, t);
      } else {
        var j, u :| Live(eps, j, u) && MayDelegate(CapAt(eps, j, u), CapAt(eps, i, t));
        LiveGeneration(eps, j, u);
      }
    } else {
      var i, k :| 0 <= i < |eps| && 0 <= k < |eps[i].queue|
        && eps[i].queue[k].handle != 0 && HandleGeneration(eps[i].queue[k].handle) == g;
      assert QueueOk(eps[i], s.nextSequence) && AttachmentOk(eps[i], k);
      LiveGeneration(eps, i, Decode(eps[i].queue[k].handle).value.0);
    }
  }

  /**
   The allocated generation is used by no active capability, by no parent link and by no queued
   message. Registering allocates while the new owner's endpoint is still empty, which changes
   nothing about it.
   */
  lemma AllocateFresh(s: State)
    requires Inv(s)
    ensures var g := Allocate(s).1;
            1 <= g <= MAX_GENERATION && !InTables(s.endpoints, g) && !InQueues(s.endpoints, g)
    ensures forall i: nat, id: nat :: i < |s.endpoints| && s.endpoints[i].owner == 0 ==>
              Allocate(s.(endpoints := s.endpoints[i := EmptyEndpoint(id)])).1 == Allocate(s).1
  {
    AllocateNotLive(s);
    var g := Allocate(s).1;
    if InTables(s.endpoints, g) || InQueues(s.endpoints, g) {
      UsedIsLive(s, g);
      assert false;
    }
    forall i: nat, id: nat | i < |s.endpoints| && s.endpoints[i].owner == 0
      ensures Allocate(s.(endpoints := s.endpoints[i := EmptyEndpoint(id)])).1 == Allocate(s).1
    {
      EmptyGenerations(s.endpoints, i, id);
    }
  }

  lemma EmptyGenerations(eps: seq<Endpoint>, i: nat, id: nat)
    requires i < |eps| && TableOk(eps, i) && eps[i].owner == 0
    ensures Generations(eps[i := EmptyEndpoint(id)]) == Generations(eps)
  {
    var after := eps[i := EmptyEndpoint(id)];
    forall j, t
      ensures Live(after, j, t) <==> Live(eps, j, t)
      ensures Live(eps, j, t) ==> CapAt(after, j, t) == CapAt(eps, j, t)
    {
    }
  }
}
