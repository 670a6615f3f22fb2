/** Boot establishes the allocator's invariant, and every run keeps it. */
module PhysmemRuns {
  import opened Common
  import opened PhysmemModel
  import opened PhysmemLaws

  // ---- boot

  ghost predicate BootOk(boot: seq<BootRegion>)
  {
    && (forall i :: 0 <= i < |boot| ==> boot[i].base <= U64_MAX && boot[i].length <= U64_MAX)
    && (forall i, j :: 0 <= i < j < |boot| && boot[i].available && boot[j].available ==>
          boot[i].base + boot[i].length <= boot[j].base || boot[j].base + boot[j].length <= boot[i].base)
  }

  ghost predicate Within(r: Region, b: BootRegion) { b.available && b.base <= r.start < r.end <= b.base + b.length }

  ghost predicate Sourced(regions: seq<Region>, boot: seq<BootRegion>)
  {
    forall k :: 0 <= k < |regions| ==> exists i :: 0 <= i < |boot| && Within(regions[k], boot[i])
  }

  ghost predicate Building(a: Allocator, boot: seq<BootRegion>)
  {
    && RegionsOk(a.regions, a.protectedUntil) && Sourced(a.regions, boot) && |a.regions| <= MAX_REGIONS
    && a.current == 0 && a.recycled == [] && a.used == 0
    && a.allocatable == |AllFrames(a.regions)| && a.allocatable + a.skipped == a.totalUsable
  }

  lemma AlignedRange(r: BootRegion)
    requires r.base <= U64_MAX && r.length <= U64_MAX
    ensures var start, end := AlignUp(r.base), AlignDown(SaturatingAdd(r.base, r.length));
            && FrameAligned(start) && FrameAligned(end) && end <= U64_MAX && end <= r.base + r.length
            && (start < end ==> r.base <= start)
  {
  }

  lemma FrameCounts(start: nat, from: nat, end: nat)
    requires FrameAligned(start) && FrameAligned(from) && FrameAligned(end) && start <= from <= end
    ensures (end - start) / FRAME == (from - start) / FRAME + (end - from) / FRAME
  {
  }

  lemma AddRegionOk(a: Allocator, boot: seq<BootRegion>, r: BootRegion)
    requires Building(a, boot) && BootOk(boot + [r]) && FrameAligned(a.protectedUntil)
    ensures Building(AddRegion(a, r), boot + [r]) && AddRegion(a, r).protectedUntil == a.protectedUntil
  {
    var all := boot + [r];
    assert all[|boot|] == r;
    forall k | 0 <= k < |a.regions| ensures exists i :: 0 <= i < |all| && Within(a.regions[k], all[i]) {
      var i :| 0 <= i < |boot| && Within(a.regions[k], boot[i]);
      assert Within(a.regions[k], all[i]);
    }
    AlignedRange(r);
    var start, end := AlignUp(r.base), AlignDown(SaturatingAdd(r.base, r.length));
    if r.available && r.length >= FRAME && start < end && end > a.protectedUntil {
      var from := Max(start, a.protectedUntil);
      FrameCounts(start, from, end);
      if |a.regions| < MAX_REGIONS { AppendRegion(a, boot, r, Region(from, end)); }
    }
  }

  lemma AppendRegion(a: Allocator, boot: seq<BootRegion>, r: BootRegion, n: Region)
    requires Building(a, boot) && BootOk(boot + [r]) && Within(n, r) && RegionOk(n, a.protectedUntil)
    ensures RegionsOk(a.regions + [n], a.protectedUntil) && Sourced(a.regions + [n], boot + [r])
    ensures |AllFrames(a.regions + [n])| == |AllFrames(a.regions)| + (n.end - n.start) / FRAME
  {
    var all, regions := boot + [r], a.regions + [n];
    assert all[|boot|] == r;
    forall k | 0 <= k < |regions|
      ensures exists i :: 0 <= i < |all| && Within(regions[k], all[i])
      ensures k < |a.regions| ==> regions[k].end <= n.start || n.end <= regions[k].start
    {
      if k < |a.regions| {
        var i :| 0 <= i < |boot| && Within(a.regions[k], boot[i]);
        assert Within(regions[k], all[i]) && all[i] == boot[i];
      } else {
        assert Within(regions[k], all[|boot|]);
      }
    }
    AllFramesAppend(a.regions, [n]);
  }

  lemma {:induction false} AddRegionsOk(protectedUntil: nat, boot: seq<BootRegion>)
    requires BootOk(boot) && FrameAligned(protectedUntil)
    ensures var a := AddRegions(Allocator([], 0, 0, [], protectedUntil, 0, 0, 0, 0), boot);
            Building(a, boot) && a.protectedUntil == protectedUntil
  {
    if boot != [] {
      var before := boot[..|boot| - 1];
      AddRegionsOk(protectedUntil, before);
      assert before + [boot[|boot| - 1]] == boot;
      AddRegionOk(AddRegions(Allocator([], 0, 0, [], protectedUntil, 0, 0, 0, 0), before), before, boot[|boot| - 1]);
    }
  }

  /** With disjoint boot regions the allocator starts with every allocatable frame available and none in use. */
  lemma BootInv(protectedUntil: nat, boot: seq<BootRegion>)
    requires BootOk(boot) && FrameAligned(protectedUntil)
    ensures Inv(Boot(protectedUntil, boot)) && InUse(Boot(protectedUntil, boot)) == {}
  {
    AddRegionsOk(protectedUntil, boot);
    var a := Boot(protectedUntil, boot);
    if a.regions != [] {
      assert RegionOk(a.regions[0], protectedUntil);
      assert a.regions[..0] == [];
      assert FramesOf(Region(a.next, a.next)) == [];
    }
    assert Issued(a) == [];
  }

  // ---- runs

  datatype Op = OpAllocate | OpFree(frame: nat)

  function Step(a: Allocator, op: Op): (Allocator, Option<nat>)
  {
    match op
    case OpAllocate => AllocateFrame(a)
    case OpFree(frame) => (FreeFrame(a, frame).0, if FreeFrame(a, frame).1 then Some(frame) else None)
  }

  /** The reference: a set of frames in use that grows by what was handed out and shrinks by what was freed. */
  function SetStep(used: set<nat>, op: Op, result: Option<nat>): set<nat>
  {
    match result
    case None => used
    case Some(f) => if op.OpAllocate? then used + {f} else used - {f}
  }

  function Reach(a: Allocator, ops: seq<Op>): Allocator
  {
    if ops == [] then a else Step(Reach(a, ops[..|ops| - 1]), ops[|ops| - 1]).0
  }

  function SetReach(a: Allocator, ops: seq<Op>): set<nat>
  {
    if ops == [] then {}
    else
      var before := ops[..|ops| - 1];
      SetStep(SetReach(a, before), ops[|ops| - 1], Step(Reach(a, before), ops[|ops| - 1]).1)
  }

  /** Every run is a run of a set of frames: no frame is handed out while it is in use. */
  lemma {:induction false} RunRefines(protectedUntil: nat, boot: seq<BootRegion>, ops: seq<Op>)
    requires BootOk(boot) && FrameAligned(protectedUntil)
    ensures var start := Boot(protectedUntil, boot);
            && Inv(Reach(start, ops)) && InUse(Reach(start, ops)) == SetReach(start, ops)
            && Reach(start, ops).protectedUntil == protectedUntil
  {
    var start := Boot(protectedUntil, boot);
    if ops == [] {
      BootInv(protectedUntil, boot);
      AddRegionsOk(protectedUntil, boot);
    } else {
      var before := ops[..|ops| - 1];
      RunRefines(protectedUntil, boot, before);
      var a := Reach(start, before);
      match ops[|ops| - 1]
      case OpAllocate => AllocateRefines(a);
      case OpFree(frame) => FreeRefines(a, frame);
    }
  }

  /** In every run: allocation never returns a protected frame or one that is in use. */
  lemma RunAllocatesFresh(protectedUntil: nat, boot: seq<BootRegion>, ops: seq<Op>)
    requires BootOk(boot) && FrameAligned(protectedUntil)
    ensures var a := Reach(Boot(protectedUntil, boot), ops);
            match AllocateFrame(a).1
            case None => InUse(a) == Elements(AllFrames(a.regions))
            case Some(f) => f !in SetReach(Boot(protectedUntil, boot), ops) && protectedUntil <= f && FrameAligned(f)
  {
    RunRefines(protectedUntil, boot, ops);
    AllocateRefines(Reach(Boot(protectedUntil, boot), ops));
  }

  /** Runs from any sound state keep the regions, and one run after another is a run. */
  lemma {:induction false} RegionsStay(a: Allocator, ops: seq<Op>)
    requires Inv(a)
    ensures var b := Reach(a, ops); Inv(b) && b.regions == a.regions && b.protectedUntil == a.protectedUntil
  {
    if ops != [] {
      var b := Reach(a, ops[..|ops| - 1]);
      RegionsStay(a, ops[..|ops| - 1]);
      match ops[|ops| - 1]
      case OpAllocate => AllocateRefines(b);
      case OpFree(f) => FreeRefines(b, f);
    }
  }

  lemma {:induction false} ReachJoins(a: Allocator, first: seq<Op>, second: seq<Op>)
    ensures Reach(a, first + second) == Reach(Reach(a, first), second)
  {
    if second == [] {
      assert first + second == first;
    } else {
      var (n, all) := (|second| - 1, first + second);
      assert all[..|all| - 1] == first + second[..n];
      ReachJoins(a, first, second[..n]);
    }
  }
}
