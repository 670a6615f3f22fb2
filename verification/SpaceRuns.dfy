/**
 Every run of the kernel's mapper and of all address spaces together, from the boot tables on. The
 kernel translates as a flat map does, and every space follows it.
 */
module SpaceRuns {
  import opened Common
  import opened PagingModel
  import opened PagingTree
  import opened PagingLaws
  import opened PagingRefine
  import opened PagingRuns
  import opened PagingEdits
  import opened SpaceModel
  import opened SpaceTree
  import opened SpaceLaws
  import opened SpaceMap
  import SpaceUser
  import opened SpaceLife
  import opened SpaceMirror
  import opened SpaceKernel
  import SS = SpaceSystem
  import LM = LoaderModel
  import LP = LoaderPages
  import LB = LoaderBuild
  import E = ElfModel
  import EL = ElfLaws
  import PB = PagingBoot
  import PS = PagingSupply
  import PM = PagingMisuse
  import F = PhysmemModel
  import FL = PhysmemLaws
  import FR = PhysmemRuns

  // ---- steps

  /** `Calls`: a call of the mapper, and how it leaves the frame allocator. */
  datatype Op = OnSpaces(op: SS.Op) | Calls(call: PB.Op, frames: F.Allocator)

  function AsSpaces(k: Machine): SS.System { SS.System(k.world, k.spaces) }

  function Changed(k: Machine, y: SS.System): Machine { Machine(y.world, k.mapper, y.spaces) }

  ghost predicate Permitted(k: Machine, op: Op)
  {
    match op
    case OnSpaces(o) => SS.Permitted(AsSpaces(k), o)
    case Calls(call, frames) => !call.OpOthers? && Supplied(k.world.frames, frames, PB.Call(View(k), call).0.pool)
  }

  ghost function Step(k: Machine, op: Op): Machine
    requires Permitted(k, op)
  {
    match op
    case OnSpaces(o) => Changed(k, SS.Step(AsSpaces(k), k.mapper.root, o))
    case Calls(call, frames) => Called(k, call, frames)
  }

  /** The kernel's flat map moves with the calls of the mapper alone. */
  function FlatStep(k: Machine, flat: PB.Flat, op: Op): PB.Flat
  {
    match op
    case OnSpaces(_) => flat
    case Calls(call, _) => PB.FlatStep(flat, call, PB.Call(View(k), call).1)
  }

  // ---- operations on spaces

  lemma Parts(k: Machine, bt: Tree, trees: seq<Tree>)
    requires MachineOk(k, bt, trees)
    ensures KernelPart(k, bt) && SS.SystemOk(AsSpaces(k), k.mapper.root, bt, trees)
    ensures AllMirrorsAt(k.world.mem, k.mapper.root, bt, trees)
  {
    AsSystem(k, bt, trees);
    forall i: nat | i < |trees| ensures MirrorsAt(k.world.mem, k.mapper.root, bt, trees, i) {
      assert SS.HoldsAt(MirroredIn(k.world, k.mapper.root, bt), k.spaces, trees, i);
    }
  }

  lemma Whole(k: Machine, bt: Tree, trees: seq<Tree>)
    requires KernelPart(k, bt) && SS.SystemOk(AsSpaces(k), k.mapper.root, bt, trees)
    requires AllMirrorsAt(k.world.mem, k.mapper.root, bt, trees)
    ensures MachineOk(k, bt, trees)
  {
    forall i: nat | i < |k.spaces| ensures SS.HoldsAt(MirroredIn(k.world, k.mapper.root, bt), k.spaces, trees, i) {
      assert SS.HoldsAt(SS.HousedIn(k.world, bt), k.spaces, trees, i);
      assert MirrorsAt(k.world.mem, k.mapper.root, bt, trees, i);
    }
  }

  lemma OpenUntouched(y: SS.System, boot: nat, bt: Tree, trees: seq<Tree>, op: SS.Op, y': SS.System)
    requires SS.SystemOk(y, boot, bt, trees) && SS.Permitted(y, op) && SS.Confined(y.world, y'.world, SS.Touched(y, op))
    requires KernelOpen(y.world.mem, boot, bt)
    ensures KernelOpen(y'.world.mem, boot, bt)
  {
    SS.TouchedApart(y, boot, bt, trees, op);
    SS.UntouchedFrames(y.world, y'.world, boot, bt, {}, SS.Touched(y, op));
    assert bt[[]] == boot && boot in bt.Values;
    assert SameFrame(y.world, y'.world, boot);
  }

  lemma KernelUntouched(k: Machine, bt: Tree, flat: PB.Flat, op: SS.Op, y': SS.System)
    requires KernelPart(k, bt) && PB.Agrees(View(k), flat) && Creatable(y'.world, k.mapper.root, bt) && KernelOpen(y'.world.mem, k.mapper.root, bt)
    requires PB.Permitted(PB.Kernel(View(k), bt.Values), PB.OpOthers(F.Pool(y'.world.frames), y'.world.mem))
    ensures KernelPart(Changed(k, y'), bt) && PB.Agrees(View(Changed(k, y')), flat)
  {
    PB.OthersStepOk(View(k), bt, flat, F.Pool(y'.world.frames), y'.world.mem);
    assert View(Changed(k, y')) == View(k).(pool := F.Pool(y'.world.frames), mem := y'.world.mem);
  }

  /** Whatever is done to spaces, the kernel keeps its tables and translations, and all spaces follow it as before. */
  lemma SpaceStep(k: Machine, bt: Tree, trees: seq<Tree>, flat: PB.Flat, op: SS.Op) returns (trees': seq<Tree>)
    requires MachineOk(k, bt, trees) && PB.Agrees(View(k), flat) && SS.Permitted(AsSpaces(k), op)
    ensures var k' := Changed(k, SS.Step(AsSpaces(k), k.mapper.root, op)); MachineOk(k', bt, trees') && PB.Agrees(View(k'), flat)
  {
    var boot := k.mapper.root;
    Parts(k, bt, trees);
    trees' := SS.StepIsolates(AsSpaces(k), boot, bt, trees, op);
    StepMirrors(AsSpaces(k), boot, bt, trees, op, trees');
    SS.SpacesPermitted(PB.Kernel(View(k), bt.Values), AsSpaces(k), bt, trees, op);
    var y' := SS.Step(AsSpaces(k), boot, op);
    OpenUntouched(AsSpaces(k), boot, bt, trees, op, y');
    KernelUntouched(k, bt, flat, op, y');
    Whole(Changed(k, y'), bt, trees');
  }

  // ---- calls of the mapper

  lemma CallAgrees(k: Machine, bt: Tree, flat: PB.Flat, call: PB.Op, frames: F.Allocator)
    requires KernelPart(k, bt) && PB.Agrees(View(k), flat) && !call.OpOthers? && F.Pool(frames) == PB.Call(View(k), call).0.pool
    ensures PB.Agrees(View(Called(k, call, frames)), PB.FlatStep(flat, call, PB.Call(View(k), call).1))
  {
    var bt' := PB.CallOk(View(k), bt, flat, call);
    ViewCalled(k, call, frames);
  }

  lemma StepFollows(k: Machine, bt: Tree, trees: seq<Tree>, flat: PB.Flat, op: Op) returns (bt': Tree, trees': seq<Tree>)
    requires MachineOk(k, bt, trees) && PB.Agrees(View(k), flat) && Permitted(k, op)
    ensures MachineOk(Step(k, op), bt', trees') && PB.Agrees(View(Step(k, op)), FlatStep(k, flat, op))
  {
    match op
    case OnSpaces(o) =>
      bt' := bt;
      trees' := SpaceStep(k, bt, trees, flat, o);
    case Calls(call, frames) =>
      bt' := CallStep(k, bt, trees, call, frames);
      trees' := AllFollowed(bt', trees);
      CallAgrees(k, bt, flat, call, frames);
  }

  // ---- runs

  function MachineOf(m: Mapper, bytes: map<nat, seq<Byte>>, frames: F.Allocator): Machine { Machine(World(m.mem, bytes, frames), m, []) }

  function BootMachine(protectedUntil: nat, regions: seq<F.BootRegion>, p4: nat, p3: nat, p2: nat, bytes: map<nat, seq<Byte>>): Machine
  {
    var frames := F.Boot(protectedUntil, regions);
    MachineOf(BootMapper(p4, p3, p2, F.Pool(frames)), bytes, frames)
  }

  ghost predicate BootFits(protectedUntil: nat, regions: seq<F.BootRegion>, p4: nat, p3: nat, p2: nat)
  {
    && FR.BootOk(regions) && F.FrameAligned(protectedUntil)
    && p4 != p3 && p3 != p2 && p4 != p2 && p4 < protectedUntil && p3 < protectedUntil && p2 < protectedUntil
    && p4 < IDENTITY_BYTES && p3 < IDENTITY_BYTES && p2 < IDENTITY_BYTES
  }

  lemma BootFollows(protectedUntil: nat, regions: seq<F.BootRegion>, p4: nat, p3: nat, p2: nat, bytes: map<nat, seq<Byte>>)
    requires BootFits(protectedUntil, regions, p4, p3, p2)
    ensures var k := BootMachine(protectedUntil, regions, p4, p3, p2, bytes);
            MachineOk(k, PB.BootTree(p4, p3, p2), []) && PB.Agrees(View(k), map[])
  {
    var frames := F.Boot(protectedUntil, regions);
    PS.BootSupplies(protectedUntil, regions, p4, p3, p2);
    FR.BootInv(protectedUntil, regions);
    FR.AddRegionsOk(protectedUntil, regions);
    PB.BootInv(p4, p3, p2, F.Pool(frames));
    PB.BootAgrees(p4, p3, p2, F.Pool(frames));
    BootShape(p4, p3, p2, F.Pool(frames));
    NoSpaces(BootMapper(p4, p3, p2, F.Pool(frames)), bytes, frames, PB.BootTree(p4, p3, p2));
  }

  lemma BootShape(p4: nat, p3: nat, p2: nat, pool: seq<nat>)
    ensures BootMapper(p4, p3, p2, pool).pool == pool
    ensures [0] in PB.BootTree(p4, p3, p2) && [KERNEL_INDEX] !in PB.BootTree(p4, p3, p2)
  {
  }

  lemma NoSpaces(m: Mapper, bytes: map<nat, seq<Byte>>, frames: F.Allocator, bt: Tree)
    requires Inv(m, bt) && FL.Inv(frames) && frames.protectedUntil > 0 && [0] in bt && [KERNEL_INDEX] !in bt && m.pool == F.Pool(frames)
    ensures MachineOk(MachineOf(m, bytes, frames), bt, []) && View(MachineOf(m, bytes, frames)) == m
  {
  }

  /** The machine after `ops`; None if one of them was not permitted. */
  ghost function Reach(k: Machine, ops: seq<Op>): Option<Machine>
  {
    if ops == [] then Some(k)
    else
      match Reach(k, ops[..|ops| - 1])
      case None => None
      case Some(z) => if Permitted(z, ops[|ops| - 1]) then Some(Step(z, ops[|ops| - 1])) else None
  }

  ghost function FlatReach(k: Machine, ops: seq<Op>): PB.Flat
  {
    if ops == [] then map[]
    else
      match Reach(k, ops[..|ops| - 1])
      case None => map[]
      case Some(z) => FlatStep(z, FlatReach(k, ops[..|ops| - 1]), ops[|ops| - 1])
  }

  /** In every reachable state the kernel translates as its flat map does and every space mirrors the kernel's tables of now. */
  lemma {:induction false} RunFollows(k: Machine, bt0: Tree, ops: seq<Op>) returns (bt: Tree, trees: seq<Tree>)
    requires MachineOk(k, bt0, []) && PB.Agrees(View(k), map[]) && Reach(k, ops).Some?
    ensures MachineOk(Reach(k, ops).value, bt, trees) && PB.Agrees(View(Reach(k, ops).value), FlatReach(k, ops))
  {
    if ops == [] {
      bt, trees := bt0, [];
    } else {
      var before := ops[..|ops| - 1];
      bt, trees := RunFollows(k, bt0, before);
      bt, trees := StepFollows(Reach(k, before).value, bt, trees, FlatReach(k, before), ops[|ops| - 1]);
    }
  }

  // ---- what a space translates

  /** The entry above the shared tables, in the root and low table of `va`, is there. */
  predicate EntryAbove(mem: Memory, root: nat, low: nat, va: nat)
  {
    if Index(va, 0) != 0 then EntryAt(mem, root, Index(va, 0)).present else EntryAt(mem, low, Index(va, 1)).present
  }

  predicate Linked(mem: Memory, s: Space, va: nat) { |s.tables| >= 2 && EntryAbove(mem, s.tables[0], s.tables[1], va) }

  predicate KernelLinked(mem: Memory, boot: nat, va: nat) { EntryAbove(mem, boot, EntryAt(mem, boot, 0).addr, va) }

  lemma TopPaths(va: nat)
    requires Canonical(va) && !UserGigabyte(va)
    ensures Shared(Path(va)) && |Path(va)| == 4
    ensures Top(Path(va)) == if Index(va, 0) != 0 then Child([], Index(va, 0)) else Child([0], Index(va, 1))
    ensures Index(va, 0) < TABLE_ENTRIES && Index(va, 1) < TABLE_ENTRIES
  {
    GigabytePath(va);
    var q := Path(va);
    assert q[..1] == Child([], q[0]) && q[..2] == Child([q[0]], q[1]);
  }

  lemma TopIsEntry(mem: Memory, root: nat, tree: Tree, va: nat)
    requires TreeOk(mem, root, tree) && [0] in tree && Canonical(va) && !UserGigabyte(va)
    ensures Top(Path(va)) in tree <==> EntryAbove(mem, root, tree[[0]], va)
  {
    TopPaths(va);
    assert EntryOk(mem, tree, [], Index(va, 0)) && EntryOk(mem, tree, [0], Index(va, 1));
  }

  /** The leaf of the listed page that holds `va`. */
  ghost function PageAt(pages: seq<MappedPage>, va: nat): Option<Leaf>
  {
    if Listed(pages, PageOf(va)) then
      var k :| 0 <= k < |pages| && PageOf(pages[k].virt) == PageOf(va);
      Some(PageLeafOf(pages[k]))
    else None
  }

  lemma PageWalk(mem: Memory, s: Space, tree: Tree, va: nat)
    requires TreeOk(mem, s.root, tree) && PagesOk(mem, s, tree) && Canonical(va) && UserGigabyte(va)
    ensures LeafAt(mem, tree, Path(va)) == PageAt(s.pages, va)
  {
    GigabytePath(va);
    if Listed(s.pages, PageOf(va)) {
      var k :| 0 <= k < |s.pages| && PageOf(s.pages[k].virt) == PageOf(va) && PageAt(s.pages, va) == Some(PageLeafOf(s.pages[k]));
      UserIndices(s.pages[k].virt);
      PathIsPage(va, s.pages[k].virt);
    }
  }

  /** Inside the user gigabyte the listed pages; outside what the kernel translates, if the entry above is there. */
  lemma SpaceSees(w: World, boot: nat, bt: Tree, s: Space, tree: Tree, va: nat)
    requires Mirrored(w, boot, bt, s, tree) && TreeOk(w.mem, boot, bt) && Canonical(va)
    ensures SpaceWalk(w.mem, s, va)
         == if UserGigabyte(va) then PageAt(s.pages, va) else if Linked(w.mem, s, va) then Walk(w.mem, boot, Path(va)) else None
  {
    WalkRoot(w.mem, s.root, tree, va);
    if UserGigabyte(va) {
      PageWalk(w.mem, s, tree, va);
    } else {
      WalkRoot(w.mem, boot, bt, va);
      GigabytePath(va);
      MirrorLeaf(w.mem, boot, bt, s.root, tree, Path(va));
      TopIsEntry(w.mem, s.root, tree, va);
    }
  }

  /** The reference for one space: its page list, and the kernel's flat map. */
  ghost function SpaceAt(flat: PB.Flat, s: Space, linked: bool, va: nat): Option<Leaf>
  {
    if UserGigabyte(va) then PageAt(s.pages, va) else if linked then PB.FlatAt(flat, va) else None
  }

  ghost predicate SpaceAgrees(w: World, s: Space, flat: PB.Flat)
  {
    forall va :: Canonical(va) ==> SpaceWalk(w.mem, s, va) == SpaceAt(flat, s, Linked(w.mem, s, va), va)
  }

  lemma MirroredAgrees(k: Machine, bt: Tree, flat: PB.Flat, s: Space, tree: Tree)
    requires KernelPart(k, bt) && PB.Agrees(View(k), flat) && Mirrored(k.world, k.mapper.root, bt, s, tree)
    ensures SpaceAgrees(k.world, s, flat)
  {
    forall va | Canonical(va) ensures SpaceWalk(k.world.mem, s, va) == SpaceAt(flat, s, Linked(k.world.mem, s, va), va) {
      SpaceSees(k.world, k.mapper.root, bt, s, tree, va);
      assert WalkAt(View(k), va) == PB.FlatAt(flat, va);
    }
  }

  /**
   From boot on, in every reachable state: the kernel translates as the flat map of its own calls, and
   every space translates its listed pages and, wherever its own entry above is there, the flat map too.
   */
  lemma RunTranslates(protectedUntil: nat, regions: seq<F.BootRegion>, p4: nat, p3: nat, p2: nat, bytes: map<nat, seq<Byte>>, ops: seq<Op>)
    requires BootFits(protectedUntil, regions, p4, p3, p2)
    requires Reach(BootMachine(protectedUntil, regions, p4, p3, p2, bytes), ops).Some?
    ensures var start := BootMachine(protectedUntil, regions, p4, p3, p2, bytes);
            var (k, flat) := (Reach(start, ops).value, FlatReach(start, ops));
            PB.Agrees(View(k), flat) && forall i: nat :: i < |k.spaces| ==> SpaceAgrees(k.world, k.spaces[i], flat)
  {
    var start := BootMachine(protectedUntil, regions, p4, p3, p2, bytes);
    BootFollows(protectedUntil, regions, p4, p3, p2, bytes);
    var bt, trees := RunFollows(start, PB.BootTree(p4, p3, p2), ops);
    var (k, flat) := (Reach(start, ops).value, FlatReach(start, ops));
    forall i: nat | i < |k.spaces| ensures SpaceAgrees(k.world, k.spaces[i], flat) {
      assert SS.HoldsAt(MirroredIn(k.world, k.mapper.root, bt), k.spaces, trees, i);
      MirroredAgrees(k, bt, flat, k.spaces[i], trees[i]);
    }
  }

  // ---- which entries above are there

  /** A call of the mapper never writes a root or low table of a space. */
  lemma OwnStays(k: Machine, bt: Tree, k': Machine, bt': Tree, path: seq<nat>, flags: Flags, s: Space, tree: Tree)
    requires KernelPart(k, bt) && KernelAfter(k, bt, k', bt') && Mirrored(k.world, k.mapper.root, bt, s, tree)
    requires || (k'.world.mem == k.world.mem && bt' == bt)
             || (KernelWay(path, flags) && Edited(k.world.mem, bt, k'.world.mem, bt', path, flags))
    ensures forall va :: Linked(k'.world.mem, s, va) == Linked(k.world.mem, s, va)
  {
    CallMoved(k, bt, k', bt', path, flags, s, tree);
    MovedLinks(k.world.mem, k.mapper.root, bt, k'.world.mem, bt', s, tree);
  }

  lemma MovedLinks(mem: Memory, boot: nat, bt: Tree, mem': Memory, bt': Tree, s: Space, tree: Tree)
    requires SpineTables(s, tree) && KernelMoved(mem, boot, bt, mem', bt', tree)
    ensures forall va :: Linked(mem', s, va) == Linked(mem, s, va)
  {
    OwnEntriesSame(mem, mem', tree);
  }

  lemma CallLinks(k: Machine, bt: Tree, trees: seq<Tree>, call: PB.Op, frames: F.Allocator, i: nat)
    requires MachineOk(k, bt, trees) && Permitted(k, Calls(call, frames)) && i < |k.spaces|
    ensures forall va :: Linked(Called(k, call, frames).world.mem, k.spaces[i], va) == Linked(k.world.mem, k.spaces[i], va)
  {
    var bt', flags := CallKernel(k, bt, call, frames);
    assert SS.HoldsAt(MirroredIn(k.world, k.mapper.root, bt), k.spaces, trees, i);
    OwnStays(k, bt, Called(k, call, frames), bt', Path(call.virt), flags, k.spaces[i], trees[i]);
  }

  /** A new space has the entries above that the kernel has when it is created. */
  lemma CreateLinks(w: World, boot: nat, bt: Tree)
    requires Creatable(w, boot, bt) && Create(w, boot).1.Ok?
    ensures forall va :: Canonical(va) && !UserGigabyte(va) ==>
              (Linked(Create(w, boot).0.mem, Create(w, boot).1.value, va) <==> KernelLinked(w.mem, boot, va))
  {
    var tree := CreateOk(w, boot, bt);
    var (w', s) := (Create(w, boot).0, Create(w, boot).1.value);
    CreateShares(w, boot, bt, tree);
    forall va | Canonical(va) && !UserGigabyte(va) ensures Linked(w'.mem, s, va) <==> KernelLinked(w.mem, boot, va) {
      TopIsEntry(w'.mem, s.root, tree, va);
      TopIsEntry(w.mem, boot, bt, va);
      TopPaths(va);
      TopTop(Path(va));
      LowTable(w.mem, boot, bt);
    }
  }

  lemma CreateShares(w: World, boot: nat, bt: Tree, tree: Tree)
    requires Creatable(w, boot, bt) && Create(w, boot).1.Ok? && TreeOk(Create(w, boot).0.mem, Create(w, boot).1.value.root, tree)
    ensures forall p :: Shared(p) ==> (p in tree <==> p in bt)
  {
    AddThreeOk(w);
    CompletedShares(w, AddThree(w), boot, bt, tree);
  }

  lemma CompletedShares(w: World, taken: (World, Space, Option<SpaceError>), boot: nat, bt: Tree, tree: Tree)
    requires Creatable(w, boot, bt) && SpaceLife.Cleared(w, taken.0, taken.1.tables) && Completed(taken, boot).1.Ok?
    requires taken.2.None? ==> |taken.1.tables| == 3
    requires TreeOk(Completed(taken, boot).0.mem, Completed(taken, boot).1.value.root, tree)
    ensures forall p :: Shared(p) ==> (p in tree <==> p in bt)
  {
    var (w1, got) := (taken.0, taken.1.tables);
    CreatedSetup(w, w1, boot, bt, got);
    FilledTree(w1.mem, boot, bt, got[0], got[1], got[2]);
    TreeUnique(FillTables(w1.mem, boot, got[0], got[1], got[2]), got[0], TreeOf(bt, got[0], got[1], got[2]), tree);
    forall p | Shared(p) ensures p in tree <==> p in bt { SharedIn(bt, got[0], got[1], got[2], p); }
  }

  /** Mapping in a space leaves its root and low table alone. */
  lemma KeptLinks(w: World, s: Space, tree: Tree, w': World, s': Space)
    requires TreeOk(w.mem, s.root, tree) && SpineTables(s, tree) && Kept(w, s, w', s')
    ensures forall va :: Linked(w'.mem, s', va) == Linked(w.mem, s, va)
  {
    assert s.tables[0] in w.mem && s.tables[1] in w.mem;
    SameLinks(w.mem, s, w'.mem, s');
  }

  lemma SameLinks(mem: Memory, s: Space, mem': Memory, s': Space)
    requires 2 <= |s.tables| && 2 <= |s'.tables| && s'.tables[0] == s.tables[0] && s'.tables[1] == s.tables[1]
    requires forall f :: f == s.tables[0] || f == s.tables[1] ==> f in mem && f in mem' && mem'[f] == mem[f]
    ensures forall va :: Linked(mem', s', va) == Linked(mem, s, va)
  {
    forall f, i: nat | f == s.tables[0] || f == s.tables[1] ensures EntryAt(mem', f, i) == EntryAt(mem, f, i) {}
  }

  /** So does loading a program into it: a built space has the entries above that the kernel had. */
  lemma BuildLinks(w: World, boot: nat, bt: Tree, activeRoot: nat, image: seq<Byte>)
    requires Creatable(w, boot, bt) && LM.Build(w, boot, activeRoot, image).1.Ok?
    ensures forall va :: Canonical(va) && !UserGigabyte(va) ==>
              (Linked(LM.Build(w, boot, activeRoot, image).0.mem, LM.Build(w, boot, activeRoot, image).1.value.space, va)
               <==> KernelLinked(w.mem, boot, va))
  {
    LM.PlansInside(image);
    EL.ValidateSound(image);
    var plan := E.Validate(image).value;
    var founded := CreateOk(w, boot, bt);
    var created := Create(w, boot);
    BuildShape(w, boot, activeRoot, image, plan);
    LB.CreatedFounded(w, created.0, boot, bt, founded, created.1.value);
    CreateLinks(w, boot, bt);
    PopulateLinks(w, created.0, created.1.value, bt, founded, activeRoot, image, plan);
  }

  lemma PopulateLinks(w: World, w1: World, s: Space, bt: Tree, founded: Tree, activeRoot: nat, image: seq<Byte>, plan: E.Plan)
    requires LB.Founded(w, w1, s, bt, founded)
    requires EL.PlanOk(plan, |image|) && LM.FileInside(plan.segments, image) && LM.Populate(w1, s, activeRoot, image, plan).1.Ok?
    ensures forall va :: Linked(LM.Populate(w1, s, activeRoot, image, plan).0.mem, LM.Populate(w1, s, activeRoot, image, plan).1.value.space, va)
                      == Linked(w1.mem, s, va)
  {
    LP.AllRequestsOk(plan, |image|);
    LB.AllUnmapped(w1, s, LP.AllRequests(plan));
    var tree2 := LP.MapAllOk(w1, s, founded, LP.AllRequests(plan));
    var (w2, s2, failed) := LM.MapAll(w1, s, LP.AllRequests(plan));
    PopulateShape(w1, s, activeRoot, image, plan);
    LB.FurnishedOk(w1, s, w2, s2, tree2, activeRoot, image, plan);
    KeptLinks(w1, s, founded, w2, s2);
  }

  lemma BystanderLinks(y: SS.System, boot: nat, bt: Tree, trees: seq<Tree>, op: SS.Op, w': World, j: nat)
    requires SS.SystemOk(y, boot, bt, trees) && SS.Permitted(y, op) && SS.Confined(y.world, w', SS.Touched(y, op)) && SS.Bystander(y, op, j)
    ensures forall va :: Linked(w'.mem, y.spaces[j], va) == Linked(y.world.mem, y.spaces[j], va)
  {
    var (s, t) := (y.spaces[j], trees[j]);
    SS.TouchedApart(y, boot, bt, trees, op);
    assert SS.HoldsAt(SS.HousedIn(y.world, bt), y.spaces, trees, j);
    SS.UntouchedFrames(y.world, w', boot, bt, Elements(Own(s)), SS.Touched(y, op));
    OwnTables(y.world.mem, s, t, []);
    OwnTables(y.world.mem, s, t, [0]);
    assert SameFrame(y.world, w', s.tables[0]) && SameFrame(y.world, w', s.tables[1]);
    SameLinks(y.world.mem, s, w'.mem, s);
  }

  lemma MapLinks(y: SS.System, boot: nat, bt: Tree, trees: seq<Tree>, op: SS.Op, y': SS.System)
    requires SS.SystemOk(y, boot, bt, trees) && op.OpMap? && op.i < |y.spaces| && |y'.spaces| == |y.spaces|
    requires var mapped := MapUser(y.world, y.spaces[op.i], op.virt, op.writable, op.executable);
             y'.world == mapped.0 && y'.spaces[op.i] == mapped.1
    ensures forall va :: Linked(y'.world.mem, y'.spaces[op.i], va) == Linked(y.world.mem, y.spaces[op.i], va)
  {
    assert SS.HoldsAt(SS.HousedIn(y.world, bt), y.spaces, trees, op.i);
    var tree' := SpaceUser.MapUserOk(y.world, y.spaces[op.i], trees[op.i], op.virt, op.writable, op.executable);
    KeptLinks(y.world, y.spaces[op.i], trees[op.i], y'.world, y'.spaces[op.i]);
  }

  /** No operation on spaces changes which entries above a space has that is still there. */
  lemma StepLinks(y: SS.System, boot: nat, bt: Tree, trees: seq<Tree>, op: SS.Op, j: nat)
    requires SS.SystemOk(y, boot, bt, trees) && SS.Permitted(y, op) && j < |y.spaces| && !(op.OpDestroy? && op.i == j)
    ensures var y' := SS.Step(y, boot, op);
            var i := SS.After(y, op, y', j);
            i < |y'.spaces| && forall va :: Linked(y'.world.mem, y'.spaces[i], va) == Linked(y.world.mem, y.spaces[j], va)
  {
    var trees' := SS.StepIsolates(y, boot, bt, trees, op);
    if SS.Bystander(y, op, j) {
      assert SS.SameAt(y, op, SS.Step(y, boot, op), j);
      BystanderLinks(y, boot, bt, trees, op, SS.Step(y, boot, op).world, j);
    } else if op.OpMap? {
      MapShape(y, boot, op);
      MapLinks(y, boot, bt, trees, op, SS.Step(y, boot, op));
    } else {
      OtherShape(y, boot, op);
    }
  }

  // ---- a kernel mapping that comes too late for a space

  lemma ReachNext(k: Machine, ops: seq<Op>, op: Op)
    requires Reach(k, ops).Some? && Permitted(Reach(k, ops).value, op)
    ensures Reach(k, ops + [op]) == Some(Step(Reach(k, ops).value, op))
  {
    assert (ops + [op])[..|ops|] == ops;
  }

  lemma CreateSupply(w: World, boot: nat, bt: Tree, n: nat)
    requires Creatable(w, boot, bt) && Supplies(F.Pool(w.frames), n + 3)
    ensures Create(w, boot).1.Ok? && Supplies(F.Pool(Create(w, boot).0.frames), n)
  {
    var tree := CreateOk(w, boot, bt);
    LaterSupply(F.Pool(w.frames), F.Pool(Create(w, boot).0.frames), n);
  }

  lemma LaterSupply(pool: seq<nat>, pool': seq<nat>, n: nat)
    requires Supplies(pool, n + 3) && pool' == pool[3..]
    ensures Supplies(pool', n)
  {
  }

  lemma StepCreates(k: Machine, w': World, s: Space)
    requires Create(k.world, k.mapper.root) == (w', Ok(s))
    ensures Permitted(k, OnSpaces(SS.OpCreate)) && Step(k, OnSpaces(SS.OpCreate)) == Machine(w', k.mapper, k.spaces + [s])
  {
  }

  /** A page below a missing root entry can be mapped if three tables can be had. */
  lemma LateCall(m: Mapper, bt: Tree, virt: nat, phys: nat)
    requires Inv(m, bt) && [KERNEL_INDEX] !in bt && Acceptable(virt, phys, KERNEL_FLAGS) && Supplies(m.pool, 3)
    ensures PB.Call(m, PB.OpMap(virt, phys)).1 == Some(phys)
    ensures WalkAt(PB.Call(m, PB.OpMap(virt, phys)).0, virt) == Some(LeafOf(phys, KERNEL_FLAGS))
  {
    ManagedWay(virt);
    PM.BootMissing(m, bt, virt);
    NoneBelow(m.mem, m.root, bt, virt);
    LateMap(m, bt, virt, phys);
    PB.CallIsMap(m, PB.OpMap(virt, phys));
  }

  lemma LateMap(m: Mapper, bt: Tree, virt: nat, phys: nat)
    requires Inv(m, bt) && Acceptable(virt, phys, KERNEL_FLAGS) && WalkAt(m, virt).None? && Supplies(m.pool, TablesMissing(m.mem, m.root, Path(virt)))
    ensures MapPage(m, virt, phys, KERNEL_FLAGS, KernelPage).1.Ok?
    ensures WalkAt(MapPage(m, virt, phys, KERNEL_FLAGS, KernelPage).0, virt) == Some(LeafOf(phys, KERNEL_FLAGS))
  {
    MappableCanonical(virt, KERNEL_FLAGS);
    var bt', n := MapPageRefines(m, bt, virt, phys, KERNEL_FLAGS, KernelPage);
  }

  lemma NoneBelow(mem: Memory, root: nat, bt: Tree, virt: nat)
    requires TreeOk(mem, root, bt) && [KERNEL_INDEX] !in bt && Index(virt, 0) == KERNEL_INDEX
    ensures Walk(mem, root, Path(virt)).None?
  {
    WalkRoot(mem, root, bt, virt);
    var q := Path(virt);
    assert q[..2][..1] == [KERNEL_INDEX] && q[..3][..2] == q[..2];
  }

  lemma UnlinkedAtBoot(mem: Memory, boot: nat, bt: Tree, virt: nat)
    requires TreeOk(mem, boot, bt) && [0] in bt && [KERNEL_INDEX] !in bt && InManaged(virt)
    ensures Canonical(virt) && !UserGigabyte(virt) && !KernelLinked(mem, boot, virt)
  {
    ManagedWay(virt);
    assert Child([], KERNEL_INDEX) == [KERNEL_INDEX];
    assert EntryOk(mem, bt, [], KERNEL_INDEX);
  }

  /** The space exists, has no entry above the page, and three more tables can be had. */
  ghost predicate Early(k: Machine, bt: Tree, trees: seq<Tree>, virt: nat)
  {
    && MachineOk(k, bt, trees) && PB.Agrees(View(k), map[]) && [KERNEL_INDEX] !in bt && |k.spaces| == 1
    && !Linked(k.world.mem, k.spaces[0], virt) && Supplies(F.Pool(k.world.frames), 3)
  }

  lemma EarlySpace(k: Machine, bt: Tree, virt: nat) returns (k1: Machine, trees: seq<Tree>)
    requires MachineOk(k, bt, []) && PB.Agrees(View(k), map[]) && [KERNEL_INDEX] !in bt && Supplies(F.Pool(k.world.frames), 6) && InManaged(virt)
    ensures Reach(k, [OnSpaces(SS.OpCreate)]) == Some(k1) && Early(k1, bt, trees, virt)
  {
    var op := OnSpaces(SS.OpCreate);
    var boot := k.mapper.root;
    CreateSupply(k.world, boot, bt, 3);
    var (w', s) := (Create(k.world, boot).0, Create(k.world, boot).1.value);
    StepCreates(k, w', s);
    k1 := Step(k, op);
    ReachNext(k, [], op);
    assert [] + [op] == [op];
    trees := SpaceStep(k, bt, [], map[], SS.OpCreate);
    CreateLinks(k.world, boot, bt);
    UnlinkedAtBoot(k.world.mem, boot, bt, virt);
  }

  lemma LateFrom(k: Machine, bt: Tree, virt: nat, phys: nat) returns (ops: seq<Op>)
    requires MachineOk(k, bt, []) && PB.Agrees(View(k), map[]) && [KERNEL_INDEX] !in bt && Supplies(F.Pool(k.world.frames), 6)
    requires Acceptable(virt, phys, KERNEL_FLAGS)
    ensures Reach(k, ops).Some?
    ensures var z := Reach(k, ops).value;
            |z.spaces| == 1 && WalkAt(View(z), virt) == Some(LeafOf(phys, KERNEL_FLAGS)) && SpaceWalk(z.world.mem, z.spaces[0], virt) == None
  {
    var k1, trees := EarlySpace(k, bt, virt);
    var call := PB.OpMap(virt, phys);
    var draws := CallSupplied(View(k1), bt, call, k1.world.frames);
    var op := Calls(call, FR.Reach(k1.world.frames, draws));
    ReachNext(k, [OnSpaces(SS.OpCreate)], op);
    ops := [OnSpaces(SS.OpCreate)] + [op];
    LateUnseen(k1, bt, trees, virt, phys, op.frames);
  }

  /**
   A space has the entries above that the kernel had when it was created: after boot, create a space
   and then map the first kernel page. The kernel translates the page and the space does not.
   */
  lemma MappedTooLate(
    protectedUntil: nat, regions: seq<F.BootRegion>, p4: nat, p3: nat, p2: nat, bytes: map<nat, seq<Byte>>, virt: nat, phys: nat)
    returns (ops: seq<Op>)
    requires BootFits(protectedUntil, regions, p4, p3, p2) && Supplies(F.Pool(F.Boot(protectedUntil, regions)), 6)
    requires Acceptable(virt, phys, KERNEL_FLAGS)
    ensures Reach(BootMachine(protectedUntil, regions, p4, p3, p2, bytes), ops).Some?
    ensures var z := Reach(BootMachine(protectedUntil, regions, p4, p3, p2, bytes), ops).value;
            |z.spaces| == 1 && WalkAt(View(z), virt) == Some(LeafOf(phys, KERNEL_FLAGS)) && SpaceWalk(z.world.mem, z.spaces[0], virt) == None
  {
    BootFollows(protectedUntil, regions, p4, p3, p2, bytes);
    BootShape(p4, p3, p2, F.Pool(F.Boot(protectedUntil, regions)));
    ops := LateFrom(BootMachine(protectedUntil, regions, p4, p3, p2, bytes), PB.BootTree(p4, p3, p2), virt, phys);
  }

  lemma LateUnseen(k: Machine, bt: Tree, trees: seq<Tree>, virt: nat, phys: nat, frames: F.Allocator)
    requires Early(k, bt, trees, virt) && Acceptable(virt, phys, KERNEL_FLAGS) && Permitted(k, Calls(PB.OpMap(virt, phys), frames))
    ensures var z := Called(k, PB.OpMap(virt, phys), frames);
            |z.spaces| == 1 && WalkAt(View(z), virt) == Some(LeafOf(phys, KERNEL_FLAGS)) && SpaceWalk(z.world.mem, z.spaces[0], virt) == None
  {
    var call := PB.OpMap(virt, phys);
    LateCall(View(k), bt, virt, phys);
    CallLinks(k, bt, trees, call, frames, 0);
    var bt' := CallStep(k, bt, trees, call, frames);
    ViewCalled(k, call, frames);
    UnlinkedWalk(Called(k, call, frames), bt', AllFollowed(bt', trees), 0, virt);
  }

  lemma UnlinkedWalk(k: Machine, bt: Tree, trees: seq<Tree>, i: nat, va: nat)
    requires MachineOk(k, bt, trees) && i < |k.spaces| && InManaged(va) && !Linked(k.world.mem, k.spaces[i], va)
    ensures SpaceWalk(k.world.mem, k.spaces[i], va) == None
  {
    assert SS.HoldsAt(MirroredIn(k.world, k.mapper.root, bt), k.spaces, trees, i);
    SpaceSees(k.world, k.mapper.root, bt, k.spaces[i], trees[i], va);
  }
}
