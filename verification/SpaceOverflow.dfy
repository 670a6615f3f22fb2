/**
 The recycle stack can overflow: destroying two full address spaces in a row leaves frames in use for
 good. The kernel notices (the report is incomplete), but nothing can return the frames.
 */
module SpaceOverflow {
  import opened Common
  import opened PagingModel
  import opened PagingTree
  import opened PagingLaws
  import opened SpaceModel
  import opened SpaceFrames
  import opened SpaceLaws
  import opened SpaceMap
  import opened SpaceUser
  import opened SpaceLife
  import opened SpaceSystem
  import LM = LoaderModel
  import LP = LoaderPages
  import LB = LoaderBuild
  import E = ElfModel
  import PB = PagingBoot
  import F = PhysmemModel
  import FL = PhysmemLaws
  import FR = PhysmemRuns

  // ---- a full space

  /** The first 65 pages of the user area, all within the same 2 MiB. */
  function FirstPages(): (r: seq<LM.Request>)
    ensures |r| == MAX_PAGES && forall k :: 0 <= k < |r| ==> r[k] == LM.Request(USER_BASE + PAGE * k, true, false)
  {
    seq(MAX_PAGES, k requires 0 <= k < MAX_PAGES => LM.Request(USER_BASE + PAGE * k, true, false))
  }

  const FULL_COST: nat := 69

  lemma FirstPagesOk()
    ensures LP.RequestsOk(FirstPages()) && LP.Regions(FirstPages()) == {0} && LP.Cost(FirstPages(), {}) == MAX_PAGES + 1
  {
    var r := FirstPages();
    forall k | 0 <= k < |r| ensures LP.RequestOk(r[k]) && Index(r[k].virt, 2) == 0 { PageNumber(k); }
    assert 0 in LP.Regions(r) by { assert Index(r[0].virt, 2) == 0; }
    assert LP.Regions(r) - {} == {0};
  }

  lemma PageNumber(k: nat)
    requires k < MAX_PAGES
    ensures var va := USER_BASE + PAGE * k; Aligned(va) && InUser(va) && va != E.STACK_GUARD && Index(va, 2) == 0
  {
    var va := USER_BASE + PAGE * k;
    assert va / HUGE_PAGE == 512;
  }

  /** Creates a space and maps the first 65 pages. */
  function FullSpace(w: World, boot: nat): (World, Space, bool) { Filled(Create(w, boot)) }

  function Filled(created: (World, Result<Space, SpaceError>)): (World, Space, bool)
  {
    if created.1.Err? then (created.0, NO_SPACE, false)
    else
      var (w2, s, failed) := LM.MapAll(created.0, created.1.value, FirstPages());
      (w2, s, failed.None?)
  }

  ghost predicate Full(w: World, w2: World, s: Space, bt: Tree, tree: Tree)
  {
    && SpaceInv(w2, s, tree) && |s.tables| + |s.pages| == FULL_COST && LB.Footprint(w, w2)
    && Elements(Own(s)) <= Elements(F.Pool(w.frames)) && tree.Values <= bt.Values + Elements(Own(s))
    && F.InUse(w.frames) <= F.InUse(w2.frames) && w2.frames.protectedUntil == w.frames.protectedUntil
    && FULL_COST <= |F.Pool(w.frames)| && F.Pool(w2.frames) == F.Pool(w.frames)[FULL_COST..] && s.root in F.Pool(w.frames)
  }

  /** Sixty-nine reachable frames are enough for a full space: four tables and 65 pages. */
  lemma FullSpaceOk(w: World, boot: nat, bt: Tree) returns (tree: Tree)
    requires Creatable(w, boot, bt) && Supplies(F.Pool(w.frames), FULL_COST)
    ensures var (w2, s, ok) := FullSpace(w, boot); ok && Full(w, w2, s, bt, tree)
  {
    var founded := CreateOk(w, boot, bt);
    LP.SuppliesSplit(F.Pool(w.frames), 3, MAX_PAGES + 1);
    LB.CreatedFounded(w, Create(w, boot).0, boot, bt, founded, Create(w, boot).1.value);
    tree := FilledOk(w, Create(w, boot).0, bt, founded, Create(w, boot).1.value);
    FilledShape(Create(w, boot));
  }

  lemma FilledShape(created: (World, Result<Space, SpaceError>))
    requires created.1.Ok?
    ensures var (w2, s, failed) := LM.MapAll(created.0, created.1.value, FirstPages()); Filled(created) == (w2, s, failed.None?)
  {
  }

  lemma FilledOk(w: World, w1: World, bt: Tree, founded: Tree, s: Space) returns (tree: Tree)
    requires LB.Founded(w, w1, s, bt, founded) && s.root in F.Pool(w.frames) && Supplies(F.Pool(w1.frames), MAX_PAGES + 1)
    ensures var (w2, s2, failed) := LM.MapAll(w1, s, FirstPages()); failed.None? && Full(w, w2, s2, bt, tree)
  {
    FirstPagesOk();
    LB.AllUnmapped(w1, s, FirstPages());
    tree := LP.MapAllOk(w1, s, founded, FirstPages());
    var (w2, s2, failed) := LM.MapAll(w1, s, FirstPages());
    MappedFull(w, w1, bt, founded, s, w2, s2, tree);
  }

  lemma MappedFull(w: World, w1: World, bt: Tree, founded: Tree, s: Space, w2: World, s2: Space, tree: Tree)
    requires LB.Founded(w, w1, s, bt, founded) && s.root in F.Pool(w.frames)
    requires LP.AllMapped(w1, s, founded, FirstPages(), w2, s2, tree, None)
    ensures Full(w, w2, s2, bt, tree)
  {
    FirstPagesOk();
    LB.MappedFootprint(w, w1, s, w2, s2);
    LP.SliceTwice(F.Pool(w.frames), 3, MAX_PAGES + 1);
    assert UserTables(tree) == {0};
  }

  // ---- two of them

  /** A full space joins the system. */
  lemma AddFull(y: System, boot: nat, bt: Tree, trees: seq<Tree>) returns (tree: Tree)
    requires SystemOk(y, boot, bt, trees) && Supplies(F.Pool(y.world.frames), FULL_COST)
    ensures var (w2, s, ok) := FullSpace(y.world, boot);
            ok && SystemOk(System(w2, y.spaces + [s]), boot, bt, trees + [tree]) && Full(y.world, w2, s, bt, tree) && s.root != boot
  {
    tree := FullSpaceOk(y.world, boot, bt);
    var (w2, s, ok) := FullSpace(y.world, boot);
    FullConfined(y.world, w2, s, bt, tree);
    FullJoins(y, boot, bt, trees, w2, s, tree);
    FreshKernel(y.world, boot, bt);
    assert boot in bt.Values by { assert bt[[]] == boot; }
    assert s.root in Elements(F.Pool(y.world.frames));
  }

  lemma FullConfined(w: World, w2: World, s: Space, bt: Tree, tree: Tree)
    requires Full(w, w2, s, bt, tree)
    ensures Confined(w, w2, {})
  {
    assert {} + Elements(F.Pool(w.frames)) == Elements(F.Pool(w.frames));
  }

  lemma FullJoins(y: System, boot: nat, bt: Tree, trees: seq<Tree>, w2: World, s: Space, tree: Tree)
    requires SystemOk(y, boot, bt, trees) && Full(y.world, w2, s, bt, tree) && Confined(y.world, w2, {})
    ensures SystemOk(System(w2, y.spaces + [s]), boot, bt, trees + [tree])
  {
    BystandersOk(y, boot, bt, trees, OpCreate, w2);
    JoinedHold(HousedIn(w2, bt), y, trees, OpCreate, s, tree);
    NewHoused(y.world, w2, boot, bt, s, tree);
    forall j: nat | j < |y.spaces| ensures Elements(Own(s)) !! Elements(Own(y.spaces[j])) { FreshApart(y, boot, bt, trees, j); }
    JoinApart(y.spaces, s);
  }

  /** Destroying two spaces with more than 128 frames between them: the second one cannot be returned completely. */
  lemma TwoDestroyed(w: World, boot: nat, bt: Tree, x: Space, xt: Tree, z: Space, zt: Tree)
    requires Creatable(w, boot, bt) && Housed(w, bt, x, xt) && Housed(w, bt, z, zt) && Elements(Own(x)) !! Elements(Own(z))
    requires x.root != boot && z.root != boot && |x.tables| + |x.pages| + |z.tables| + |z.pages| > F.MAX_RECYCLED
    ensures var (w1, _, first) := Destroy(w, x, boot);
            var (w2, _, second) := Destroy(w1, z, boot);
            && first.Ok? && second.Ok? && !(first.value.complete && second.value.complete)
            && |w2.frames.recycled| == F.MAX_RECYCLED
  {
    DestroyExact(w, x, xt, boot);
    var (w1, x1, first) := Destroy(w, x, boot);
    DestroyConfined(w, x, w1, x1, first);
    BystanderOk(w, w1, boot, bt, z, zt, Elements(Own(x)));
    DestroyExact(w1, z, zt, boot);
    var (w2, z2, second) := Destroy(w1, z, boot);
    Overflowing(w, x, w1, x1, first, z, w2, z2, second);
  }

  lemma Overflowing(
    w: World, x: Space, w1: World, x1: Space, first: Result<Report, SpaceError>, z: Space, w2: World, z2: Space, second: Result<Report, SpaceError>)
    requires FL.Inv(w.frames) && DestroyEffect(w, x, w1, x1, first) && DestroyEffect(w1, z, w2, z2, second)
    requires |x.tables| + |x.pages| + |z.tables| + |z.pages| > F.MAX_RECYCLED
    ensures !(first.value.complete && second.value.complete) && |w2.frames.recycled| == F.MAX_RECYCLED
  {
    assert |Returned(x)| == |x.pages| + |x.tables| && |Returned(z)| == |z.pages| + |z.tables|;
  }

  /** Wherever 138 reachable frames are free, two full spaces can be created and destroyed, and frames are lost. */
  lemma FullSpacesOverflow(w: World, boot: nat, bt: Tree)
    requires Creatable(w, boot, bt) && Supplies(F.Pool(w.frames), 2 * FULL_COST)
    ensures var (w1, x, made) := FullSpace(w, boot);
            var (w2, z, again) := FullSpace(w1, boot);
            var (w3, _, first) := Destroy(w2, x, boot);
            var (w4, _, second) := Destroy(w3, z, boot);
            made && again && first.Ok? && second.Ok? && !(first.value.complete && second.value.complete)
  {
    var y := System(w, []);
    LP.SuppliesSplit(F.Pool(w.frames), FULL_COST, FULL_COST);
    var xt := AddFull(y, boot, bt, []);
    var (w1, x, made) := FullSpace(w, boot);
    assert y.spaces + [x] == [x] && [] + [xt] == [xt];
    var zt := AddFull(System(w1, [x]), boot, bt, [xt]);
    var (w2, z, again) := FullSpace(w1, boot);
    BothHoused(w2, boot, bt, x, xt, z, zt);
    TwoDestroyed(w2, boot, bt, x, xt, z, zt);
  }

  lemma BothHoused(w: World, boot: nat, bt: Tree, x: Space, xt: Tree, z: Space, zt: Tree)
    requires SystemOk(System(w, [x] + [z]), boot, bt, [xt] + [zt])
    ensures Housed(w, bt, x, xt) && Housed(w, bt, z, zt) && Elements(Own(x)) !! Elements(Own(z))
  {
    var (spaces, trees) := ([x] + [z], [xt] + [zt]);
    OneHoused(w, bt, spaces, trees, 0, x, xt);
    OneHoused(w, bt, spaces, trees, 1, z, zt);
    assert ApartAt(spaces, 0, 1);
  }

  lemma OneHoused(w: World, bt: Tree, spaces: seq<Space>, trees: seq<Tree>, i: nat, s: Space, tree: Tree)
    requires HoldsForAll(HousedIn(w, bt), spaces, trees) && i < |spaces| && spaces[i] == s && trees[i] == tree
    ensures Housed(w, bt, s, tree)
  {
    assert HoldsAt(HousedIn(w, bt), spaces, trees, i);
  }

  // ---- and there is such a machine

  const REGION := F.BootRegion(0x20_0000, 0x10_0000, true)

  /** A machine with one megabyte above the kernel. */
  function SmallMachine(): World { World(BootMemory(0x1000, 0x2000, 0x3000), map[], F.Boot(0x20_0000, [REGION])) }

  lemma SmallMachinePool()
    ensures FR.BootOk([REGION]) && Supplies(F.Pool(F.Boot(0x20_0000, [REGION])), 2 * FULL_COST)
  {
    var a0 := F.Allocator([], 0, 0, [], 0x20_0000, 0, 0, 0, 0);
    assert [REGION][..0] == [];
    assert F.AddRegions(a0, [REGION]) == F.AddRegion(a0, REGION);
    var a := F.Boot(0x20_0000, [REGION]);
    assert a.regions == [F.Region(0x20_0000, 0x30_0000)] && a.current == 0 && a.next == 0x20_0000 && a.recycled == [];
    var frames := F.FramesOf(F.Region(0x20_0000, 0x30_0000));
    assert a.regions[1..] == [];
    assert F.Fresh(a) == frames + [];
    FL.NothingRecycled(a);
    assert |frames| == 256;
  }

  lemma SmallMachineOk()
    ensures Creatable(SmallMachine(), 0x1000, PB.BootTree(0x1000, 0x2000, 0x3000))
    ensures Supplies(F.Pool(SmallMachine().frames), 2 * FULL_COST)
  {
    SmallMachinePool();
    FR.BootInv(0x20_0000, [REGION]);
    FR.AddRegionsOk(0x20_0000, [REGION]);
    var a := F.Boot(0x20_0000, [REGION]);
    FL.PoolSound(a);
    PB.BootOk(0x1000, 0x2000, 0x3000, F.Pool(a));
  }

  /** On a machine with one megabyte of free memory the kernel runs into it right after boot. */
  lemma OverflowHappens()
    ensures var w := SmallMachine();
            var (w1, x, made) := FullSpace(w, 0x1000);
            var (w2, z, again) := FullSpace(w1, 0x1000);
            var (w3, _, first) := Destroy(w2, x, 0x1000);
            var (w4, _, second) := Destroy(w3, z, 0x1000);
            made && again && first.Ok? && second.Ok? && !(first.value.complete && second.value.complete)
  {
    SmallMachineOk();
    FullSpacesOverflow(SmallMachine(), 0x1000, PB.BootTree(0x1000, 0x2000, 0x3000));
  }
}
