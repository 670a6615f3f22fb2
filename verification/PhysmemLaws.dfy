/** The allocator refines a set of frames: nothing is handed out twice, nothing is lost. */
module PhysmemLaws {
  import opened Common
  import opened PhysmemModel

  // ---- the invariant

  ghost predicate RegionOk(r: Region, protectedUntil: nat)
  {
    r.start < r.end <= U64_MAX && FrameAligned(r.start) && FrameAligned(r.end) && protectedUntil <= r.start
  }

  ghost predicate RegionsOk(regions: seq<Region>, protectedUntil: nat)
  {
    && (forall i :: 0 <= i < |regions| ==> RegionOk(regions[i], protectedUntil))
    && (forall i, j :: 0 <= i < j < |regions| ==> regions[i].end <= regions[j].start || regions[j].end <= regions[i].start)
  }

  ghost predicate CursorOk(a: Allocator)
  {
    && a.current <= |a.regions|
    && (a.current < |a.regions| ==> a.regions[a.current].start <= a.next <= a.regions[a.current].end && FrameAligned(a.next))
  }

  ghost predicate Distinct(s: seq<nat>) { forall i, j :: 0 <= i < j < |s| ==> s[i] != s[j] }

  ghost predicate RecycledOk(a: Allocator)
  {
    && |a.recycled| <= MAX_RECYCLED && Distinct(a.recycled)
    && (forall k :: 0 <= k < |a.recycled| ==> a.recycled[k] in Issued(a))
  }

  ghost predicate CountsOk(a: Allocator)
  {
    && a.used + |a.recycled| == |Issued(a)|
    && a.allocatable == |AllFrames(a.regions)|
    && a.allocatable + a.skipped == a.totalUsable
  }

  ghost predicate Inv(a: Allocator)
  {
    RegionsOk(a.regions, a.protectedUntil) && CursorOk(a) && RecycledOk(a) && CountsOk(a)
  }

  // ---- frames of regions

  lemma {:induction false} AllFramesAppend(x: seq<Region>, y: seq<Region>)
    ensures AllFrames(x + y) == AllFrames(x) + AllFrames(y)
  {
    if x == [] {
      assert x + y == y;
    } else {
      assert (x + y)[0] == x[0] && (x + y)[1..] == x[1..] + y;
      AllFramesAppend(x[1..], y);
    }
  }

  /** A frame belongs to the list exactly when it is an aligned address in one of the regions. */
  lemma {:induction false} AllFramesIn(regions: seq<Region>, protectedUntil: nat, f: nat)
    requires forall i :: 0 <= i < |regions| ==> RegionOk(regions[i], protectedUntil)
    ensures f in AllFrames(regions) <==>
              FrameAligned(f) && exists i :: 0 <= i < |regions| && regions[i].start <= f < regions[i].end
  {
    if regions != [] {
      AllFramesIn(regions[1..], protectedUntil, f);
      FramesOfIn(regions[0], f);
      forall i | 1 <= i < |regions| ensures regions[i] == regions[1..][i - 1] {}
    }
  }

  lemma FramesOfIn(r: Region, f: nat)
    requires r.start <= r.end && FrameAligned(r.start) && FrameAligned(r.end)
    ensures f in FramesOf(r) <==> FrameAligned(f) && r.start <= f < r.end
  {
    if FrameAligned(f) && r.start <= f < r.end {
      var k := (f - r.start) / FRAME;
      assert f == r.start + FRAME * k && k < (r.end - r.start) / FRAME;
      assert FramesOf(r)[k] == f;
    }
    if f in FramesOf(r) {
      var k :| 0 <= k < |FramesOf(r)| && FramesOf(r)[k] == f;
      Multiple(r.start, k);
    }
  }

  lemma Multiple(start: nat, k: nat)
    requires FrameAligned(start)
    ensures FrameAligned(start + FRAME * k)
  {
  }

  lemma {:induction false} AllFramesDistinct(regions: seq<Region>, protectedUntil: nat)
    requires RegionsOk(regions, protectedUntil)
    ensures Distinct(AllFrames(regions))
  {
    if regions != [] {
      var rest := regions[1..];
      assert forall i :: 0 <= i < |rest| ==> rest[i] == regions[i + 1];
      AllFramesDistinct(rest, protectedUntil);
      forall f | f in FramesOf(regions[0]) ensures f !in AllFrames(rest) {
        FramesOfIn(regions[0], f);
        AllFramesIn(rest, protectedUntil, f);
      }
      JoinDistinct(FramesOf(regions[0]), AllFrames(rest));
    }
  }

  lemma JoinDistinct(s: seq<nat>, t: seq<nat>)
    requires Distinct(s) && Distinct(t) && forall f :: f in s ==> f !in t
    ensures Distinct(s + t)
  {
    var st := s + t;
    forall i, j | 0 <= i < j < |st| ensures st[i] != st[j] {
      if i < |s| && j >= |s| { assert st[i] in s && st[j] in t; }
    }
  }

  lemma SplitRegion(r: Region, m: nat)
    requires r.start <= m <= r.end && FrameAligned(r.start) && FrameAligned(m) && FrameAligned(r.end)
    ensures FramesOf(r) == FramesOf(Region(r.start, m)) + FramesOf(Region(m, r.end))
  {
    assert (r.end - r.start) / FRAME == (m - r.start) / FRAME + (r.end - m) / FRAME;
    assert m == r.start + FRAME * ((m - r.start) / FRAME);
  }

  /** Handed-out frames followed by new ones are all the frames, in order. */
  lemma IssuedThenFresh(a: Allocator)
    requires RegionsOk(a.regions, a.protectedUntil) && CursorOk(a)
    ensures AllFrames(a.regions) == Issued(a) + Fresh(a)
    ensures Distinct(AllFrames(a.regions))
  {
    AllFramesDistinct(a.regions, a.protectedUntil);
    if a.current < |a.regions| {
      var (before, r, after) := (a.regions[..a.current], a.regions[a.current], a.regions[a.current + 1..]);
      assert a.regions == before + ([r] + after);
      AllFramesAppend(before, [r] + after);
      FirstRegion(r, after);
      SplitRegion(r, a.next);
      FourParts(AllFrames(before), FramesOf(Region(r.start, a.next)), FramesOf(Region(a.next, r.end)), AllFrames(after));
    }
  }

  lemma FirstRegion(r: Region, after: seq<Region>)
    ensures AllFrames([r] + after) == FramesOf(r) + AllFrames(after)
  {
    assert ([r] + after)[1..] == after;
  }

  lemma FourParts(w: seq<nat>, x: seq<nat>, y: seq<nat>, z: seq<nat>)
    ensures w + ((x + y) + z) == (w + x) + (y + z)
  {
  }

  // ---- allocation

  /** The first new frame, if any, moved to the end of the issued ones. */
  ghost predicate Moved(a: Allocator, a': Allocator, r: Option<nat>)
  {
    && CursorOk(a') && a'.recycled == a.recycled && a'.regions == a.regions && a'.protectedUntil == a.protectedUntil
    && a'.allocatable == a.allocatable && a'.skipped == a.skipped && a'.totalUsable == a.totalUsable
    && (if Fresh(a) == [] then r == None && Issued(a') == Issued(a) && Fresh(a') == [] && a'.used == a.used
        else && r == Some(Fresh(a)[0]) && Issued(a') == Issued(a) + [Fresh(a)[0]] && Fresh(a') == Fresh(a)[1..]
             && a'.used == a.used + 1)
  }

  lemma {:induction false} TakeFreshOk(a: Allocator)
    requires RegionsOk(a.regions, a.protectedUntil) && CursorOk(a)
    ensures Moved(a, TakeFresh(a).0, TakeFresh(a).1)
    decreases |a.regions| - a.current
  {
    if a.current < |a.regions| {
      var r := a.regions[a.current];
      assert RegionOk(r, a.protectedUntil);
      if a.next < r.end {
        BumpOk(a);
        var b := a.(next := a.next + FRAME);
        SameCursor(b, b.(used := a.used + 1));
      } else {
        NextRegionOk(a);
        TakeFreshOk(NextRegion(a));
        assert TakeFresh(a) == TakeFresh(NextRegion(a));
      }
    }
  }

  function NextRegion(a: Allocator): Allocator
  {
    a.(current := a.current + 1, next := if a.current + 1 < |a.regions| then a.regions[a.current + 1].start else a.next)
  }

  lemma NextRegionOk(a: Allocator)
    requires RegionsOk(a.regions, a.protectedUntil) && CursorOk(a) && a.current < |a.regions| && a.next == a.regions[a.current].end
    ensures CursorOk(NextRegion(a)) && Issued(NextRegion(a)) == Issued(a) && Fresh(NextRegion(a)) == Fresh(a)
  {
    var (b, c) := (NextRegion(a), a.current);
    assert FramesOf(Region(a.next, a.regions[c].end)) == [];
    assert a.regions[..c + 1] == a.regions[..c] + [a.regions[c]];
    AllFramesAppend(a.regions[..c], [a.regions[c]]);
    if c + 1 < |a.regions| {
      assert RegionOk(a.regions[c + 1], a.protectedUntil);
      assert a.regions[c + 1..][1..] == a.regions[c + 2..];
      assert FramesOf(Region(a.regions[c + 1].start, a.regions[c + 1].start)) == [];
    } else {
      assert a.regions[..c + 1] == a.regions && a.regions[c + 1..] == [];
    }
  }

  lemma BumpOk(a: Allocator)
    requires RegionsOk(a.regions, a.protectedUntil) && CursorOk(a) && a.current < |a.regions| && a.next < a.regions[a.current].end
    ensures SaturatingAdd(a.next, FRAME) == a.next + FRAME <= a.regions[a.current].end && FrameAligned(a.next + FRAME)
    ensures var b := a.(next := a.next + FRAME);
            && Fresh(a) != [] && Fresh(a)[0] == a.next && Fresh(b) == Fresh(a)[1..] && Issued(b) == Issued(a) + [a.next]
  {
    var r := a.regions[a.current];
    assert RegionOk(r, a.protectedUntil);
    NextFrame(a.next, r.end);
    BumpFrames(r, a.next);
    var b := a.(next := a.next + FRAME);
    var (ahead, later) := (FramesOf(Region(a.next + FRAME, r.end)), AllFrames(a.regions[a.current + 1..]));
    var (earlier, behind) := (AllFrames(a.regions[..a.current]), FramesOf(Region(r.start, a.next)));
    assert Fresh(a) == ([a.next] + ahead) + later && Fresh(b) == ahead + later;
    assert Issued(a) == earlier + behind && Issued(b) == earlier + (behind + [a.next]);
    Passed(a.next, ahead, later, earlier, behind);
  }

  lemma NextFrame(m: nat, end: nat)
    requires FrameAligned(m) && FrameAligned(end) && m < end
    ensures m + FRAME <= end && FrameAligned(m + FRAME)
  {
  }

  lemma Passed(f: nat, ahead: seq<nat>, later: seq<nat>, earlier: seq<nat>, behind: seq<nat>)
    ensures (([f] + ahead) + later)[0] == f && (([f] + ahead) + later)[1..] == ahead + later
    ensures earlier + (behind + [f]) == (earlier + behind) + [f]
  {
    assert ([f] + ahead) + later == [f] + (ahead + later);
  }

  lemma BumpFrames(r: Region, m: nat)
    requires r.start <= m && m + FRAME <= r.end && FrameAligned(r.start) && FrameAligned(m) && FrameAligned(r.end)
    ensures FramesOf(Region(m, r.end)) == [m] + FramesOf(Region(m + FRAME, r.end))
    ensures FramesOf(Region(r.start, m + FRAME)) == FramesOf(Region(r.start, m)) + [m]
  {
    SplitRegion(Region(m, r.end), m + FRAME);
    SplitRegion(Region(r.start, m + FRAME), m);
    assert FramesOf(Region(m, m + FRAME)) == [m];
  }

  // ---- the set of frames in use

  lemma {:induction false} DistinctSize(s: seq<nat>)
    requires Distinct(s)
    ensures |Elements(s)| == |s|
  {
    if s != [] {
      DistinctSize(s[1..]);
      assert Elements(s) == {s[0]} + Elements(s[1..]);
    }
  }

  lemma IssuedDistinct(a: Allocator)
    requires RegionsOk(a.regions, a.protectedUntil) && CursorOk(a)
    ensures Distinct(Issued(a)) && Distinct(Fresh(a)) && forall f :: f in Issued(a) ==> f !in Fresh(a)
  {
    IssuedThenFresh(a);
    var all := Issued(a) + Fresh(a);
    assert forall k :: 0 <= k < |Issued(a)| ==> all[k] == Issued(a)[k];
    assert forall k :: 0 <= k < |Fresh(a)| ==> all[|Issued(a)| + k] == Fresh(a)[k];
  }

  lemma FrameOk(a: Allocator, f: nat)
    requires RegionsOk(a.regions, a.protectedUntil) && f in AllFrames(a.regions)
    ensures FrameAligned(f) && a.protectedUntil <= f
  {
    AllFramesIn(a.regions, a.protectedUntil, f);
    var i :| 0 <= i < |a.regions| && a.regions[i].start <= f < a.regions[i].end;
    assert RegionOk(a.regions[i], a.protectedUntil);
  }

  /** Issued and new frames depend on the bump pointer alone. */
  lemma SameCursor(a: Allocator, b: Allocator)
    requires b.regions == a.regions && b.current == a.current && b.next == a.next
    ensures Issued(b) == Issued(a) && Fresh(b) == Fresh(a)
  {
  }

  /** The effect of an allocation on the frames in use and on the pool. */
  ghost predicate Allocated(a: Allocator, a': Allocator, r: Option<nat>)
  {
    match r
    case Some(f) =>
      && f !in InUse(a) && f in AllFrames(a.regions) && FrameAligned(f) && a.protectedUntil <= f
      && InUse(a') == InUse(a) + {f} && Pool(a) == [f] + Pool(a')
    case None => Pool(a) == [] && Pool(a') == [] && InUse(a') == InUse(a) == Elements(AllFrames(a.regions))
  }

  /**
   Allocation hands out the head of the pool: an aligned, unprotected frame that is not in use. It
   fails only when every frame is in use.
   */
  lemma AllocateRefines(a: Allocator)
    requires Inv(a)
    ensures var (a', r) := AllocateFrame(a);
            Inv(a') && a'.protectedUntil == a.protectedUntil && a'.regions == a.regions && Allocated(a, a', r)
  {
    if a.recycled != [] { PopRecycled(a); } else { FreshTaken(a); }
  }

  lemma FreshTaken(a: Allocator)
    requires Inv(a) && a.recycled == []
    ensures var (a', r) := TakeFresh(a);
            Inv(a') && a'.protectedUntil == a.protectedUntil && a'.regions == a.regions && Allocated(a, a', r)
  {
    TakeFreshOk(a);
    FreshMoved(a, TakeFresh(a).0, TakeFresh(a).1);
  }

  lemma NothingRecycled(a: Allocator)
    requires a.recycled == []
    ensures Pool(a) == Fresh(a) && InUse(a) == Elements(Issued(a))
  {
    assert Reversed(a.recycled) == [] && Elements(a.recycled) == {};
  }

  lemma FreshMoved(a: Allocator, a': Allocator, r: Option<nat>)
    requires Inv(a) && a.recycled == [] && Moved(a, a', r)
    ensures Inv(a') && Allocated(a, a', r)
  {
    NothingRecycled(a);
    NothingRecycled(a');
    IssuedThenFresh(a);
    if Fresh(a) != [] {
      HeadOk(a);
      ElementsSnoc(Issued(a), Fresh(a)[0]);
      assert Fresh(a) == [Fresh(a)[0]] + Fresh(a)[1..];
    }
  }

  lemma HeadOk(a: Allocator)
    requires RegionsOk(a.regions, a.protectedUntil) && CursorOk(a) && Fresh(a) != []
    ensures var f := Fresh(a)[0];
            f !in Issued(a) && f in AllFrames(a.regions) && FrameAligned(f) && a.protectedUntil <= f
  {
    var f := Fresh(a)[0];
    IssuedThenFresh(a);
    IssuedDistinct(a);
    assert f in Issued(a) + Fresh(a);
    FrameOk(a, f);
  }

  lemma ElementsSnoc(s: seq<nat>, f: nat)
    ensures Elements(s + [f]) == Elements(s) + {f}
  {
  }

  lemma PopSets(issued: seq<nat>, recycled: seq<nat>, rest: seq<nat>, f: nat)
    requires recycled == rest + [f] && Distinct(recycled) && forall k :: 0 <= k < |recycled| ==> recycled[k] in issued
    ensures Distinct(rest) && (forall k :: 0 <= k < |rest| ==> rest[k] in issued) && f in issued && f !in rest
    ensures Elements(issued) - Elements(rest) == Elements(issued) - Elements(recycled) + {f}
    ensures Reversed(recycled) == [f] + Reversed(rest)
  {
    assert recycled[|rest|] == f;
    assert forall k :: 0 <= k < |rest| ==> rest[k] == recycled[k];
    assert Elements(recycled) == Elements(rest) + {f};
  }

  lemma PopRecycled(a: Allocator)
    requires Inv(a) && a.recycled != []
    ensures var (a', r) := AllocateFrame(a);
            Inv(a') && a'.protectedUntil == a.protectedUntil && a'.regions == a.regions && Allocated(a, a', r)
  {
    var a' := AllocateFrame(a).0;
    var (rest, f) := (a.recycled[..|a.recycled| - 1], a.recycled[|a.recycled| - 1]);
    SameCursor(a, a');
    PopSets(Issued(a), a.recycled, rest, f);
    IssuedThenFresh(a);
    assert f in Issued(a) + Fresh(a);
    FrameOk(a, f);
    assert Pool(a) == [f] + Pool(a');
  }

  // ---- freeing

  ghost predicate HandedOut(a: Allocator, f: nat, j: int)
    requires 0 <= j < |a.regions|
  {
    a.regions[j].start <= f < a.regions[j].end && (j < a.current || (j == a.current && f < a.next))
  }

  lemma {:induction false} IssuedFromIff(a: Allocator, f: nat, i: nat)
    requires RegionsOk(a.regions, a.protectedUntil)
    ensures IssuedFrom(a, f, i) <==> exists j :: i <= j < |a.regions| && HandedOut(a, f, j)
    decreases |a.regions| - i
  {
    if i < |a.regions| {
      IssuedFromIff(a, f, i + 1);
      if a.regions[i].start <= f < a.regions[i].end {
        assert IssuedFrom(a, f, i) <==> HandedOut(a, f, i);
        assert forall j :: i < j < |a.regions| ==> !HandedOut(a, f, j);
      }
    }
  }

  /** The kernel's test for "was handed out" is membership in the issued frames. */
  lemma IssuedIff(a: Allocator, f: nat)
    requires RegionsOk(a.regions, a.protectedUntil) && CursorOk(a)
    ensures FrameAligned(f) && IssuedFrom(a, f, 0) <==> f in Issued(a)
  {
    IssuedFromIff(a, f, 0);
    var n := if a.current < |a.regions| then a.current else |a.regions|;
    assert a.current >= |a.regions| ==> a.regions[..n] == a.regions;
    AllFramesIn(a.regions[..n], a.protectedUntil, f);
    if a.current < |a.regions| { FramesOfIn(Region(a.regions[a.current].start, a.next), f); }
    forall j | 0 <= j < |a.regions| && HandedOut(a, f, j) && FrameAligned(f) ensures f in Issued(a) {
      if j < n { assert a.regions[..n][j] == a.regions[j]; }
    }
    if f in Issued(a) {
      if f in AllFrames(a.regions[..n]) {
        var j :| 0 <= j < n && a.regions[..n][j].start <= f < a.regions[..n][j].end;
        assert HandedOut(a, f, j);
      } else {
        assert HandedOut(a, f, a.current);
      }
    }
  }

  /** Freeing succeeds exactly on a frame in use while the recycle stack has room. */
  lemma FreeRefines(a: Allocator, f: nat)
    requires Inv(a)
    ensures var (a', ok) := FreeFrame(a, f);
            && Inv(a') && a'.protectedUntil == a.protectedUntil && a'.regions == a.regions
            && (ok <==> f in InUse(a) && |a.recycled| < MAX_RECYCLED)
            && (if ok then InUse(a') == InUse(a) - {f} && Pool(a') == [f] + Pool(a) && |a'.recycled| == |a.recycled| + 1 else a' == a)
  {
    IssuedIff(a, f);
    IssuedThenFresh(a);
    if f in Issued(a) {
      assert f in Issued(a) + Fresh(a);
      FrameOk(a, f);
      if |a.recycled| < MAX_RECYCLED && f !in a.recycled { PushRecycled(a, f); }
    }
  }

  lemma PushSets(issued: seq<nat>, recycled: seq<nat>, f: nat)
    requires Distinct(issued) && Distinct(recycled) && (forall k :: 0 <= k < |recycled| ==> recycled[k] in issued)
    requires f in issued && f !in recycled
    ensures Distinct(recycled + [f]) && |recycled| < |issued|
    ensures Elements(issued) - Elements(recycled + [f]) == Elements(issued) - Elements(recycled) - {f}
    ensures Reversed(recycled + [f]) == [f] + Reversed(recycled)
  {
    DistinctSize(recycled);
    DistinctSize(issued);
    SubsetSize(Elements(recycled) + {f}, Elements(issued));
    assert Elements(recycled + [f]) == Elements(recycled) + {f};
  }

  lemma PushRecycled(a: Allocator, f: nat)
    requires Inv(a) && f in Issued(a) && |a.recycled| < MAX_RECYCLED && f !in a.recycled
    ensures a.used > 0
    ensures var a' := a.(recycled := a.recycled + [f], used := a.used - 1);
            Inv(a') && InUse(a') == InUse(a) - {f} && Pool(a') == [f] + Pool(a)
  {
    IssuedDistinct(a);
    PushSets(Issued(a), a.recycled, f);
    var a' := a.(recycled := a.recycled + [f], used := a.used - 1);
    SameCursor(a, a');
    assert Pool(a') == [f] + Pool(a);
  }

  lemma ReversedIn(s: seq<nat>)
    ensures forall f :: f in Reversed(s) <==> f in s
  {
    forall f | f in s ensures f in Reversed(s) {
      var k :| 0 <= k < |s| && s[k] == f;
      assert Reversed(s)[|s| - 1 - k] == f;
    }
  }

  lemma SetsConserve(issued: seq<nat>, recycled: seq<nat>, rest: seq<nat>)
    requires Distinct(issued) && Distinct(recycled) && (forall k :: 0 <= k < |recycled| ==> recycled[k] in issued)
    requires forall f :: f in issued ==> f !in rest
    ensures var used := Elements(issued) - Elements(recycled);
            && |used| + |recycled| == |issued|
            && used !! Elements(Reversed(recycled) + rest)
            && used + Elements(Reversed(recycled) + rest) == Elements(issued + rest)
  {
    DistinctSize(issued);
    DistinctSize(recycled);
    ReversedIn(recycled);
    assert Elements(recycled) <= Elements(issued);
    assert forall f :: f in Reversed(recycled) + rest <==> f in recycled || f in rest;
    assert forall f :: f in issued + rest <==> f in issued || f in rest;
  }

  /** Conservation: every allocatable frame is in use, recycled or never handed out; the rest was skipped. */
  lemma Conservation(a: Allocator)
    requires Inv(a)
    ensures a.used == |InUse(a)|
    ensures |InUse(a)| + |a.recycled| + |Fresh(a)| == a.allocatable
    ensures a.allocatable + a.skipped == a.totalUsable
    ensures InUse(a) !! Elements(Pool(a)) && InUse(a) + Elements(Pool(a)) == Elements(AllFrames(a.regions))
  {
    IssuedThenFresh(a);
    IssuedDistinct(a);
    SetsConserve(Issued(a), a.recycled, Fresh(a));
  }

  /** The frames still to be handed out are distinct, aligned, unprotected and not in use. */
  lemma PoolSound(a: Allocator)
    requires Inv(a)
    ensures Distinct(Pool(a))
    ensures forall k :: 0 <= k < |Pool(a)| ==>
              FrameAligned(Pool(a)[k]) && a.protectedUntil <= Pool(a)[k] && Pool(a)[k] !in InUse(a)
  {
    IssuedThenFresh(a);
    IssuedDistinct(a);
    ReversedIn(a.recycled);
    Conservation(a);
    forall f | f in Reversed(a.recycled) ensures f !in Fresh(a) {
      var k :| 0 <= k < |a.recycled| && a.recycled[k] == f;
      assert a.recycled[k] in Issued(a);
    }
    JoinDistinct(Reversed(a.recycled), Fresh(a));
    forall k | 0 <= k < |Pool(a)|
      ensures FrameAligned(Pool(a)[k]) && a.protectedUntil <= Pool(a)[k] && Pool(a)[k] !in InUse(a)
    {
      assert Pool(a)[k] in Elements(Pool(a));
      FrameOk(a, Pool(a)[k]);
    }
  }

  // ---- undoing allocations

  /** `n` frames taken since some earlier moment can all be given back. */
  predicate CanUndo(a: Allocator, n: nat) { |a.recycled| + n <= MAX_RECYCLED }

  /** Allocation drains the recycle stack first, so up to 128 allocations can always be undone. */
  lemma AllocateKeepsUndo(a: Allocator, n: nat)
    requires Inv(a) && CanUndo(a, n) && n < MAX_RECYCLED
    ensures CanUndo(AllocateFrame(a).0, if AllocateFrame(a).1.Some? then n + 1 else n)
  {
    if a.recycled == [] { TakeFreshOk(a); }
  }
}
