/** Which memory becomes allocatable at boot, said of the boot memory map alone. */
module PhysmemBoot {
  import opened Common
  import opened PhysmemModel
  import opened PhysmemLaws
  import opened PhysmemRuns

  /** The page frame at `f` lies wholly in the available region `b`. */
  predicate Whole(b: BootRegion, f: nat)
  {
    b.available && f % 4096 == 0 && b.base <= f && f + 4096 <= b.base + b.length && f + 4096 <= 0xffff_ffff_ffff_ffff
  }

  /** Some region of the list holds the frame, and the frame is not protected. */
  ghost predicate Covered(boot: seq<BootRegion>, p: nat, f: nat) { p <= f && exists k :: 0 <= k < |boot| && Whole(boot[k], f) }

  /** The region holds a whole frame above the protected memory. */
  ghost predicate Usable(b: BootRegion, p: nat) { exists f: nat :: Whole(b, f) && p <= f }

  /** The first 16 usable regions, in the order of the memory map. */
  ghost function Kept(boot: seq<BootRegion>, p: nat): (r: seq<BootRegion>)
    ensures |r| <= 16
  {
    if boot == [] then []
    else
      var (before, b) := (Kept(boot[..|boot| - 1], p), boot[|boot| - 1]);
      if Usable(b, p) && |before| < 16 then before + [b] else before
  }

  /** Whole frames from `p` on. */
  function FramesFrom(b: BootRegion, p: nat): nat
  {
    var (top, bottom) := (SaturatingAdd(b.base, b.length) / 4096, Max((b.base + 4095) / 4096, (p + 4095) / 4096));
    if b.available && bottom < top then top - bottom else 0
  }

  function TotalFrames(boot: seq<BootRegion>, p: nat): nat
  {
    if boot == [] then 0 else TotalFrames(boot[..|boot| - 1], p) + FramesFrom(boot[|boot| - 1], p)
  }

  // ---- one region

  function RegionFor(b: BootRegion, p: nat): Region { Region(Max(AlignUp(b.base), p), AlignDown(SaturatingAdd(b.base, b.length))) }

  predicate Fit(b: BootRegion, p: nat)
  {
    b.available && b.length >= FRAME && AlignUp(b.base) < AlignDown(SaturatingAdd(b.base, b.length)) && AlignDown(SaturatingAdd(b.base, b.length)) > p
  }

  lemma AlignedDown(n: nat)
    ensures FrameAligned(AlignDown(n)) && AlignDown(n) <= n < AlignDown(n) + 4096 && AlignDown(n) == n / 4096 * 4096
  {
  }

  lemma AlignedBelow(f: nat, n: nat)
    requires FrameAligned(f)
    ensures f <= n <==> f <= AlignDown(n)
  {
    AlignedDown(n);
  }

  lemma AlignedAbove(f: nat, base: nat)
    requires FrameAligned(f) && base <= U64_MAX && f + 4096 <= U64_MAX
    ensures base <= f <==> AlignUp(base) <= f
    ensures base <= U64_MAX - 4095 ==> AlignUp(base) == (base + 4095) / 4096 * 4096
  {
    AlignedDown(base + 4095);
    AlignedDown(U64_MAX);
  }

  lemma FrameIn(b: BootRegion, p: nat, f: nat)
    requires b.base <= U64_MAX && b.length <= U64_MAX && FrameAligned(p) && Fit(b, p) && FrameAligned(f)
    ensures RegionFor(b, p).start <= f < RegionFor(b, p).end <==> Whole(b, f) && p <= f
  {
    var end := SaturatingAdd(b.base, b.length);
    AlignedDown(end);
    AlignedBelow(f + 4096, end);
    assert f < AlignDown(end) <==> f + 4096 <= AlignDown(end);
    if f + 4096 <= U64_MAX { AlignedAbove(f, b.base); }
  }

  lemma FitIsUsable(b: BootRegion, p: nat)
    requires b.base <= U64_MAX && b.length <= U64_MAX && FrameAligned(p)
    ensures Fit(b, p) <==> Usable(b, p)
    ensures Fit(b, p) ==> RegionOk(RegionFor(b, p), p)
  {
    var end := SaturatingAdd(b.base, b.length);
    AlignedDown(end);
    if Fit(b, p) {
      var r := RegionFor(b, p);
      AlignedDown(SaturatingAdd(b.base, 4095));
      FrameIn(b, p, r.start);
      assert Whole(b, r.start) && p <= r.start;
    }
    if Usable(b, p) {
      var f: nat :| Whole(b, f) && p <= f;
      AlignedAbove(f, b.base);
      AlignedBelow(f + 4096, end);
    }
  }

  lemma FitCount(b: BootRegion, p: nat)
    requires b.base <= U64_MAX && b.length <= U64_MAX && FrameAligned(p)
    ensures FramesFrom(b, p) == if Fit(b, p) then (RegionFor(b, p).end - RegionFor(b, p).start) / FRAME else 0
  {
    var end := SaturatingAdd(b.base, b.length);
    AlignedDown(end);
    FitIsUsable(b, p);
    if b.base <= U64_MAX - 4095 {
      AlignedDown(b.base + 4095);
      Counted((b.base + 4095) / 4096, p / 4096, end / 4096, p);
    } else {
      AlignedDown(U64_MAX);
    }
  }

  lemma Counted(low: nat, q: nat, top: nat, p: nat)
    requires p == q * 4096
    ensures Max(low * 4096, p) == Max(low, q) * 4096 && (p + 4095) / 4096 == q
    ensures Max(low, q) < top ==> (top * 4096 - Max(low * 4096, p)) / 4096 == top - Max(low, q)
  {
  }

  // ---- the whole map

  ghost predicate Sixty4(boot: seq<BootRegion>) { forall i :: 0 <= i < |boot| ==> boot[i].base <= U64_MAX && boot[i].length <= U64_MAX }

  ghost predicate Matches(a: Allocator, boot: seq<BootRegion>, p: nat)
  {
    && a.protectedUntil == p && |a.regions| == |Kept(boot, p)|
    && (forall k :: 0 <= k < |a.regions| ==> Fit(Kept(boot, p)[k], p) && a.regions[k] == RegionFor(Kept(boot, p)[k], p))
    && a.totalUsable == TotalFrames(boot, 0) && a.allocatable == TotalFrames(Kept(boot, p), p)
    && a.skipped + a.allocatable == a.totalUsable
  }

  lemma AddMatches(a: Allocator, boot: seq<BootRegion>, b: BootRegion, p: nat)
    requires Matches(a, boot, p) && b.base <= U64_MAX && b.length <= U64_MAX && FrameAligned(p)
    ensures Matches(AddRegion(a, b), boot + [b], p)
  {
    var all := boot + [b];
    assert all[..|all| - 1] == boot && all[|all| - 1] == b;
    FitIsUsable(b, p);
    FitCount(b, p);
    FitCount(b, 0);
    var (kept, more) := (Kept(boot, p), Kept(boot, p) + [b]);
    assert more[..|more| - 1] == kept && more[|more| - 1] == b;
    AddShape(a, b, p);
  }

  lemma AddShape(a: Allocator, b: BootRegion, p: nat)
    requires a.protectedUntil == p && b.base <= U64_MAX && b.length <= U64_MAX && FrameAligned(p) && a.skipped + a.allocatable == a.totalUsable
    ensures var a' := AddRegion(a, b);
            && a'.protectedUntil == p && a'.totalUsable == a.totalUsable + FramesFrom(b, 0)
            && a'.regions == (if Fit(b, p) && |a.regions| < 16 then a.regions + [RegionFor(b, p)] else a.regions)
            && a'.allocatable == a.allocatable + (if Fit(b, p) && |a.regions| < 16 then FramesFrom(b, p) else 0)
            && a'.skipped + a'.allocatable == a'.totalUsable
  {
    FitCount(b, p);
    FitCount(b, 0);
    AlignedDown(SaturatingAdd(b.base, b.length));
    AlignedDown(SaturatingAdd(b.base, 4095));
    if Fit(b, p) { FrameCounts(AlignUp(b.base), RegionFor(b, p).start, RegionFor(b, p).end); }
  }

  lemma {:induction false} AddAllMatches(p: nat, boot: seq<BootRegion>)
    requires Sixty4(boot) && FrameAligned(p)
    ensures Matches(AddRegions(Allocator([], 0, 0, [], p, 0, 0, 0, 0), boot), boot, p)
  {
    if boot != [] {
      var before := boot[..|boot| - 1];
      AddAllMatches(p, before);
      assert before + [boot[|boot| - 1]] == boot;
      AddMatches(AddRegions(Allocator([], 0, 0, [], p, 0, 0, 0, 0), before), before, boot[|boot| - 1], p);
    }
  }

  /**
   A frame can be handed out exactly if it lies wholly in one of the first 16 available regions that
   reach above the protected memory, and above that itself. The counters are what the map says:
   all whole frames, those that can be handed out, and the difference.
   */
  lemma BootExact(p: nat, boot: seq<BootRegion>)
    requires Sixty4(boot) && FrameAligned(p)
    ensures forall f: nat :: f in AllFrames(Boot(p, boot).regions) <==> Covered(Kept(boot, p), p, f)
    ensures Boot(p, boot).totalUsable == TotalFrames(boot, 0) && Boot(p, boot).allocatable == TotalFrames(Kept(boot, p), p)
    ensures Boot(p, boot).skipped == TotalFrames(boot, 0) - TotalFrames(Kept(boot, p), p)
  {
    AddAllMatches(p, boot);
    KeptSixty4(boot, p);
    var regions := Boot(p, boot).regions;
    forall f: nat ensures f in AllFrames(regions) <==> Covered(Kept(boot, p), p, f) { MatchedIn(regions, Kept(boot, p), p, f); }
  }

  lemma {:induction false} MatchedIn(regions: seq<Region>, kept: seq<BootRegion>, p: nat, f: nat)
    requires |regions| == |kept| && Sixty4(kept) && FrameAligned(p)
    requires forall k :: 0 <= k < |regions| ==> Fit(kept[k], p) && regions[k] == RegionFor(kept[k], p)
    ensures f in AllFrames(regions) <==> Covered(kept, p, f)
  {
    forall k | 0 <= k < |regions| ensures RegionOk(regions[k], p) { FitIsUsable(kept[k], p); }
    AllFramesIn(regions, p, f);
    if FrameAligned(f) {
      forall k | 0 <= k < |kept| ensures regions[k].start <= f < regions[k].end <==> Whole(kept[k], f) && p <= f { FrameIn(kept[k], p, f); }
    }
  }

  lemma {:induction false} KeptSixty4(boot: seq<BootRegion>, p: nat)
    requires Sixty4(boot)
    ensures Sixty4(Kept(boot, p))
    ensures forall k :: 0 <= k < |Kept(boot, p)| ==> Kept(boot, p)[k] in boot
  {
    if boot != [] { KeptSixty4(boot[..|boot| - 1], p); }
  }

  /** With at most 16 usable regions nothing is left out: the frames are exactly the whole ones above the protected memory. */
  lemma BootComplete(p: nat, boot: seq<BootRegion>)
    requires Sixty4(boot) && FrameAligned(p) && |UsableAt(boot, p)| <= 16
    ensures forall f: nat :: f in AllFrames(Boot(p, boot).regions) <==> Covered(boot, p, f)
  {
    BootExact(p, boot);
    KeptSixty4(boot, p);
    KeptAll(boot, p);
    forall f: nat ensures Covered(boot, p, f) <==> Covered(Kept(boot, p), p, f) {
      if Covered(boot, p, f) {
        var i :| 0 <= i < |boot| && Whole(boot[i], f);
        assert Usable(boot[i], p);
        var k :| 0 <= k < |Kept(boot, p)| && Kept(boot, p)[k] == boot[i];
      }
    }
  }

  ghost function UsableAt(boot: seq<BootRegion>, p: nat): set<int> { set i | 0 <= i < |boot| && Usable(boot[i], p) }

  lemma {:induction false} KeptAll(boot: seq<BootRegion>, p: nat)
    requires |UsableAt(boot, p)| <= 16
    ensures |Kept(boot, p)| == |UsableAt(boot, p)|
    ensures forall i :: 0 <= i < |boot| && Usable(boot[i], p) ==> boot[i] in Kept(boot, p)
  {
    if boot != [] {
      var (before, n) := (boot[..|boot| - 1], |boot| - 1);
      assert forall i :: 0 <= i < n ==> before[i] == boot[i];
      assert UsableAt(boot, p) == UsableAt(before, p) + (if Usable(boot[n], p) then {n} else {});
      KeptAll(before, p);
    }
  }
}
