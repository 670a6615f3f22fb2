/**
 Address spaces and the kernel's mapper together: calls of the mapper between operations on spaces are
 followed into every space that shares the tables they change.
 */
module SpaceKernel {
  import opened Common
  import opened PagingModel
  import opened PagingTree
  import opened PagingLaws
  import opened PagingRefine
  import opened PagingRuns
  import opened PagingEdits
  import opened SpaceModel
  import opened SpaceTree
  import opened SpaceLaws
  import opened SpaceMap
  import opened SpaceUser
  import opened SpaceLife
  import opened SpaceMirror
  import SS = SpaceSystem
  import LM = LoaderModel
  import LP = LoaderPages
  import LB = LoaderBuild
  import E = ElfModel
  import EL = ElfLaws
  import PB = PagingBoot
  import PS = PagingSupply
  import F = PhysmemModel
  import FL = PhysmemLaws
  import FR = PhysmemRuns

  /** Root entry of the kernel's managed range. */
  const KERNEL_INDEX: nat := 256

  datatype Machine = Machine(world: World, mapper: Mapper, spaces: seq<Space>)

  /** The mapper works on the memory and the frames all clients share. */
  function View(k: Machine): Mapper { k.mapper.(mem := k.world.mem, pool := F.Pool(k.world.frames)) }

  ghost predicate Mirrored(w: World, boot: nat, bt: Tree, s: Space, tree: Tree) { SS.Housed(w, bt, s, tree) && Mirrors(w.mem, boot, bt, tree) }

  ghost function MirroredIn(w: World, boot: nat, bt: Tree): (Space, Tree) -> bool { (s: Space, tree: Tree) => Mirrored(w, boot, bt, s, tree) }

  /** The kernel's entry for its managed range is writable, as all its mappings there are. */
  ghost predicate KernelOpen(mem: Memory, boot: nat, bt: Tree) { [KERNEL_INDEX] in bt ==> EntryAt(mem, boot, KERNEL_INDEX).writable }

  ghost predicate MachineOk(k: Machine, bt: Tree, trees: seq<Tree>)
  {
    && Inv(View(k), bt) && Creatable(k.world, k.mapper.root, bt) && KernelOpen(k.world.mem, k.mapper.root, bt)
    && SS.HoldsForAll(MirroredIn(k.world, k.mapper.root, bt), k.spaces, trees) && SS.Apart(k.spaces)
  }

  // ---- one call of the mapper, seen from one space

  /** Where a call of the mapper may write: in the managed range as the kernel does, or in the user area. */
  ghost predicate KernelWay(path: seq<nat>, flags: Flags)
  {
    |path| == 4 && ((path[0] == KERNEL_INDEX && flags.writable && !flags.user) || (path[0] == 0 && path[1] == USER_P3_INDEX))
  }

  /** Entries of the kernel's root and low table that lead to a space's tops stay as they are. */
  lemma TopEntriesSame(mem: Memory, boot: nat, bt: Tree, mem': Memory, bt': Tree, path: seq<nat>, flags: Flags, tree: Tree)
    requires TreeOk(mem, boot, bt) && Edited(mem, bt, mem', bt', path, flags) && KernelWay(path, flags) && KernelOpen(mem, boot, bt)
    requires SharesTables(bt, tree) && [0] in bt
    ensures forall i: nat :: i != 0 && [i] in tree ==> EntryAt(mem', boot, i) == EntryAt(mem, boot, i)
    ensures forall j: nat :: j != USER_P3_INDEX && [0, j] in tree ==> EntryAt(mem', bt[[0]], j) == EntryAt(mem, bt[[0]], j)
  {
    forall i: nat | i != 0 && [i] in tree ensures EntryAt(mem', boot, i) == EntryAt(mem, boot, i) {
      assert Shared([i]) && [i] in bt && Child([], i) == [i];
      RootEntrySame(mem, boot, bt, mem', bt', path, flags, i);
    }
    forall j: nat | j != USER_P3_INDEX && [0, j] in tree ensures EntryAt(mem', bt[[0]], j) == EntryAt(mem, bt[[0]], j) {
      assert !OnWay(path, [0], j) by { assert |path| == 4 && path[..1] == [path[0]]; }
    }
  }

  lemma RootEntrySame(mem: Memory, boot: nat, bt: Tree, mem': Memory, bt': Tree, path: seq<nat>, flags: Flags, i: nat)
    requires TreeOk(mem, boot, bt) && Edited(mem, bt, mem', bt', path, flags) && KernelWay(path, flags) && KernelOpen(mem, boot, bt)
    requires i != 0 && [i] in bt
    ensures EntryAt(mem', boot, i) == EntryAt(mem, boot, i)
  {
    assert bt[[]] == boot && Child([], i) == [i] && path[..0] == [];
    if OnWay(path, [], i) {
      assert i == KERNEL_INDEX;
      assert Widen(EntryAt(mem, boot, i), flags) == EntryAt(mem, boot, i);
    }
  }

  /** The space's own tables are its own frames. */
  lemma OwnTables(mem: Memory, s: Space, tree: Tree, p: seq<nat>)
    requires TreeOk(mem, s.root, tree) && SpineTables(s, tree) && p in tree && !Shared(p)
    ensures tree[p] in Elements(Own(s)) && tree[p] in mem
  {
    OwnPaths(p);
    var j :| 0 <= j < |s.tables| && s.tables[j] == tree[p];
    assert Own(s)[j] == tree[p];
  }

  lemma OwnPaths(p: seq<nat>)
    requires |p| <= 3 && !Shared(p)
    ensures p == [] || p == [0] || p == USER_PATH || (|p| == 3 && p == Child(USER_PATH, p[2]))
  {
  }

  lemma CallMovesKernel(mem: Memory, boot: nat, bt: Tree, mem': Memory, bt': Tree, path: seq<nat>, flags: Flags, s: Space, tree: Tree)
    requires TreeOk(mem, boot, bt) && TreeOk(mem', boot, bt') && Edited(mem, bt, mem', bt', path, flags) && KernelWay(path, flags)
    requires KernelOpen(mem, boot, bt) && TreeOk(mem, s.root, tree) && SpineTables(s, tree) && Mirrors(mem, boot, bt, tree)
    requires Elements(Own(s)) !! bt'.Values
    ensures KernelMoved(mem, boot, bt, mem', bt', tree)
  {
    forall p | p in tree && !Shared(p) ensures tree[p] in mem && tree[p] in mem' && mem'[tree[p]] == mem[tree[p]] && tree[p] !in bt'.Values {
      OwnTables(mem, s, tree, p);
    }
    TopEntriesSame(mem, boot, bt, mem', bt', path, flags, tree);
    OwnEntriesSame(mem, mem', tree);
  }

  lemma OwnEntriesSame(mem: Memory, mem': Memory, tree: Tree)
    requires [] in tree && [0] in tree
    requires forall p :: p in tree && !Shared(p) ==> tree[p] in mem && tree[p] in mem' && mem'[tree[p]] == mem[tree[p]]
    ensures forall i: nat :: EntryAt(mem', tree[[]], i) == EntryAt(mem, tree[[]], i) && EntryAt(mem', tree[[0]], i) == EntryAt(mem, tree[[0]], i)
  {
    assert !Shared([]) && !Shared([0]);
  }

  /** Whether or not the call wrote anything. */
  lemma StillKernel(mem: Memory, boot: nat, bt: Tree, s: Space, tree: Tree)
    requires TreeOk(mem, boot, bt) && TreeOk(mem, s.root, tree) && SpineTables(s, tree) && Mirrors(mem, boot, bt, tree) && Elements(Own(s)) !! bt.Values
    ensures KernelMoved(mem, boot, bt, mem, bt, tree)
  {
    forall p | p in tree && !Shared(p) ensures tree[p] in mem && tree[p] !in bt.Values { OwnTables(mem, s, tree, p); }
  }

  // ---- the space after the call

  lemma FollowedUser(bt': Tree, tree: Tree)
    ensures forall k: nat :: Child(USER_PATH, k) in Followed(bt', tree) <==> Child(USER_PATH, k) in tree
    ensures forall k: nat :: Child(USER_PATH, k) in tree ==> Followed(bt', tree)[Child(USER_PATH, k)] == tree[Child(USER_PATH, k)]
    ensures forall p :: p == [] || p == [0] || p == USER_PATH ==>
              (p in Followed(bt', tree) <==> p in tree) && (p in tree ==> Followed(bt', tree)[p] == tree[p])
  {
    forall k: nat
      ensures Child(USER_PATH, k) in Followed(bt', tree) <==> Child(USER_PATH, k) in tree
      ensures Child(USER_PATH, k) in tree ==> Followed(bt', tree)[Child(USER_PATH, k)] == tree[Child(USER_PATH, k)]
    {
      UserChild(k);
      FollowedAt(bt', tree, Child(USER_PATH, k));
    }
    FollowedAt(bt', tree, []);
    FollowedAt(bt', tree, [0]);
    FollowedAt(bt', tree, USER_PATH);
  }

  lemma UserChild(k: nat)
    ensures !Shared(Child(USER_PATH, k)) && !Shared(USER_PATH)
  {
    assert Child(USER_PATH, k)[0] == 0 && Child(USER_PATH, k)[1] == USER_P3_INDEX;
  }

  lemma FollowedOpen(mem: Memory, mem': Memory, tree: Tree, t: Tree)
    requires SpineOpen(mem, tree) && [] in t && [0] in t && USER_PATH in t
    requires t[[]] == tree[[]] && t[[0]] == tree[[0]] && t[USER_PATH] == tree[USER_PATH]
    requires forall k: nat :: Child(USER_PATH, k) in t <==> Child(USER_PATH, k) in tree
    requires forall p, i: nat :: p in tree && !Shared(p) ==> EntryAt(mem', tree[p], i) == EntryAt(mem, tree[p], i)
    ensures SpineOpen(mem', t)
  {
    UserChild(0);
    assert !Shared([]) && !Shared([0]);
  }

  lemma FollowedSpine(mem: Memory, boot: nat, bt: Tree, mem': Memory, bt': Tree, s: Space, tree: Tree)
    requires TreeOk(mem, s.root, tree) && Spine(mem, s, tree) && KernelMoved(mem, boot, bt, mem', bt', tree)
    ensures Spine(mem', s, Followed(bt', tree))
  {
    var t := Followed(bt', tree);
    FollowedUser(bt', tree);
    forall p, i: nat | p in tree && !Shared(p) ensures EntryAt(mem', tree[p], i) == EntryAt(mem, tree[p], i) {}
    FollowedOpen(mem, mem', tree, t);
    assert UserTables(t) == UserTables(tree);
  }

  lemma FollowedPages(mem: Memory, boot: nat, bt: Tree, mem': Memory, bt': Tree, s: Space, tree: Tree)
    requires PagesOk(mem, s, tree) && KernelMoved(mem, boot, bt, mem', bt', tree)
    ensures PagesOk(mem', s, Followed(bt', tree))
  {
    var t := Followed(bt', tree);
    forall k | 0 <= k < |s.pages| ensures LeafAt(mem', t, Path(s.pages[k].virt)) == Some(PageLeafOf(s.pages[k])) {
      UserIndices(s.pages[k].virt);
      FollowedUserLeaf(mem, boot, bt, mem', bt', tree, Path(s.pages[k].virt));
    }
    forall va | Canonical(va) && UserPath(Path(va)) && LeafAt(mem', t, Path(va)).Some? ensures Listed(s.pages, PageOf(va)) {
      FollowedUserLeaf(mem, boot, bt, mem', bt', tree, Path(va));
    }
  }

  lemma FollowedValues(bt: Tree, bt': Tree, s: Space, tree: Tree)
    requires tree.Values <= bt.Values + Elements(Own(s)) && bt.Values <= bt'.Values
    ensures Followed(bt', tree).Values <= bt'.Values + Elements(Own(s))
  {
    var t := Followed(bt', tree);
    forall v | v in t.Values ensures v in bt'.Values || v in Elements(Own(s)) {
      var p :| p in t && t[p] == v;
      FollowedAt(bt', tree, p);
      assert if Shared(p) then bt'[p] in bt'.Values else tree[p] in tree.Values;
    }
  }

  lemma FollowedOwned(w: World, w': World, bt': Tree, s: Space, tree: Tree)
    requires Owned(w, s, tree) && Elements(Own(s)) !! bt'.Values && Elements(Own(s)) <= F.InUse(w'.frames)
    ensures Owned(w', s, Followed(bt', tree))
  {
    var t := Followed(bt', tree);
    forall k | 0 <= k < |s.pages| ensures s.pages[k].frame !in t.Values {
      assert Own(s)[|s.tables| + k] == s.pages[k].frame;
      assert s.pages[k].frame in Elements(Own(s));
      forall p | p in t ensures t[p] != s.pages[k].frame {
        FollowedAt(bt', tree, p);
        assert if Shared(p) then bt'[p] in bt'.Values else tree[p] in tree.Values;
      }
    }
  }

  /** A space whose kernel part moved is still sound, with the tree that follows. */
  lemma FollowHoused(w: World, w': World, boot: nat, bt: Tree, bt': Tree, s: Space, tree: Tree)
    requires Mirrored(w, boot, bt, s, tree) && TreeOk(w.mem, boot, bt) && KernelMoved(w.mem, boot, bt, w'.mem, bt', tree)
    requires Creatable(w', boot, bt') && bt.Values <= bt'.Values && Elements(Own(s)) !! bt'.Values && Elements(Own(s)) <= F.InUse(w'.frames)
    ensures Mirrored(w', boot, bt', s, Followed(bt', tree))
  {
    var t := Followed(bt', tree);
    FollowOk(w.mem, boot, bt, w'.mem, bt', s.root, tree);
    FollowedMirrors(w.mem, boot, bt, w'.mem, bt', tree);
    FollowedSpine(w.mem, boot, bt, w'.mem, bt', s, tree);
    FollowedPages(w.mem, boot, bt, w'.mem, bt', s, tree);
    FollowedValues(bt, bt', s, tree);
    FollowedOwned(w, w', bt', s, tree);
    SS.OthersPool(w', boot, bt', s, t);
    AssembleSpace(w', s, t);
  }

  // ---- calls of the mapper

  const KERNEL_FLAGS := Flags(true, false, false)

  lemma ManagedWay(virt: nat)
    ensures InManaged(virt) ==> Index(virt, 0) == KERNEL_INDEX
    ensures InUser(virt) ==> Index(virt, 0) == 0 && Index(virt, 1) == USER_P3_INDEX
  {
    if InManaged(virt) { assert virt / Span(0) % TABLE_ENTRIES == KERNEL_INDEX; }
    if InUser(virt) { UserIndices(virt); }
  }

  lemma MappableWay(virt: nat, flags: Flags)
    requires Mappable(virt, flags) && (!flags.user ==> flags.writable)
    ensures KernelWay(Path(virt), flags)
  {
    ManagedWay(virt);
  }

  lemma FlagsKind(op: PB.Op)
    ensures !PB.FlagsOf(op).user ==> PB.FlagsOf(op).writable
  {
  }

  /** A call writes nothing, or writes on a way the kernel's mappings take. */
  lemma CallEdits(m: Mapper, bt: Tree, op: PB.Op, bt': Tree) returns (flags: Flags)
    requires Inv(m, bt) && !op.OpOthers? && TreeOk(PB.Call(m, op).0.mem, m.root, bt')
    ensures var mem' := PB.Call(m, op).0.mem;
            mem' == m.mem || (KernelWay(Path(op.virt), flags) && Edited(m.mem, bt, mem', bt', Path(op.virt), flags))
  {
    flags := PB.FlagsOf(op);
    FlagsKind(op);
    if op.OpMap? || op.OpMapUser? {
      PB.CallIsMap(m, op);
      if Acceptable(op.virt, op.phys, flags) {
        MappableWay(op.virt, flags);
        MapEdits(m, bt, op.virt, op.phys, flags, PB.OwnerOf(op), bt');
      }
    } else if op.OpUnmap? {
      flags := KERNEL_FLAGS;
      UnmapCall(m, bt, op.virt, bt');
    } else {
      PB.CallIsNew(m, op);
      if Mappable(op.virt, flags) {
        MappableWay(op.virt, flags);
        NewPageEdits(m, bt, op.virt, flags, PB.OwnerOf(op), bt');
      }
    }
  }

  lemma UnmapCall(m: Mapper, bt: Tree, virt: nat, bt': Tree)
    requires Inv(m, bt) && TreeOk(UnmapPage(m, virt).0.mem, m.root, bt')
    ensures var mem' := UnmapPage(m, virt).0.mem;
            mem' == m.mem || (KernelWay(Path(virt), KERNEL_FLAGS) && Edited(m.mem, bt, mem', bt', Path(virt), KERNEL_FLAGS))
  {
    UnmapPageRefines(m, bt, virt);
    if UnmapPage(m, virt).1.Ok? {
      ManagedWay(virt);
      UnmapEdits(m, bt, virt, KERNEL_FLAGS);
      TreeUnique(UnmapPage(m, virt).0.mem, m.root, bt, bt');
    }
  }

  lemma OpenStays(mem: Memory, boot: nat, bt: Tree, mem': Memory, bt': Tree, path: seq<nat>, flags: Flags)
    requires TreeOk(mem, boot, bt) && TreeOk(mem', boot, bt') && Edited(mem, bt, mem', bt', path, flags) && KernelWay(path, flags)
    requires KernelOpen(mem, boot, bt)
    ensures KernelOpen(mem', boot, bt')
  {
    if [KERNEL_INDEX] in bt' {
      assert Child([], KERNEL_INDEX) == [KERNEL_INDEX] && bt'[[]] == boot;
      if [KERNEL_INDEX] in bt {
        RootEntrySame(mem, boot, bt, mem', bt', path, flags, KERNEL_INDEX);
      } else {
        assert [KERNEL_INDEX] == path[..1] && path[..1][0] == path[0];
        assert Grants(EntryAt(mem', bt'[[]], KERNEL_INDEX), flags);
      }
    }
  }

  /** How the allocator stands after a call: the same regions, and the pool the call left. */
  ghost predicate Supplied(frames: F.Allocator, frames': F.Allocator, pool': seq<nat>)
  {
    FL.Inv(frames') && frames'.protectedUntil == frames.protectedUntil && frames'.regions == frames.regions && F.Pool(frames') == pool'
  }

  /** Exactly the frames that left the pool are in use now. */
  lemma SuppliedUse(frames: F.Allocator, frames': F.Allocator, pool': seq<nat>)
    requires FL.Inv(frames) && Supplied(frames, frames', pool') && Elements(pool') <= Elements(F.Pool(frames))
    ensures F.InUse(frames') == F.InUse(frames) + (Elements(F.Pool(frames)) - Elements(pool'))
  {
    FL.Conservation(frames);
    FL.Conservation(frames');
    SplitSets(F.InUse(frames), Elements(F.Pool(frames)), F.InUse(frames'), Elements(pool'));
  }

  lemma SplitSets(used: set<nat>, free: set<nat>, used': set<nat>, free': set<nat>)
    requires used !! free && used' !! free' && used + free == used' + free' && free' <= free
    ensures used' == used + (free - free')
  {
    forall f ensures f in used' <==> f in used + (free - free') { assert f in used + free <==> f in used' + free'; }
  }

  /** There is such an allocator: the call draws its frames by allocations, and gives back one at most. */
  lemma CallSupplied(m: Mapper, bt: Tree, call: PB.Op, frames: F.Allocator) returns (draws: seq<FR.Op>)
    requires Inv(m, bt) && !call.OpOthers? && FL.Inv(frames) && F.Pool(frames) == m.pool
    ensures Supplied(frames, FR.Reach(frames, draws), PB.Call(m, call).0.pool)
  {
    draws := PS.CallDraws(m, bt, call, frames);
    FR.RegionsStay(frames, draws);
  }

  /** A call puts no frame into the pool that was not there. */
  lemma PoolShrinks(m: Mapper, bt: Tree, call: PB.Op)
    requires Inv(m, bt) && !call.OpOthers?
    ensures Elements(PB.Call(m, call).0.pool) <= Elements(m.pool)
  {
    if call.OpMap? || call.OpMapUser? {
      PB.CallIsMap(m, call);
      var bt', k := MapKeepsInv(m, bt, call.virt, call.phys, PB.FlagsOf(call), PB.OwnerOf(call));
    } else if call.OpUnmap? {
      UnmapPageRefines(m, bt, call.virt);
    } else {
      PB.CallIsNew(m, call);
      var k := PS.NewPagePool(m, bt, call.virt, PB.FlagsOf(call), PB.OwnerOf(call));
    }
  }

  function Called(k: Machine, call: PB.Op, frames: F.Allocator): Machine
  {
    var m' := PB.Call(View(k), call).0;
    Machine(World(m'.mem, k.world.bytes, frames), m', k.spaces)
  }

  /** The kernel after a call. */
  ghost predicate KernelAfter(k: Machine, bt: Tree, k': Machine, bt': Tree)
  {
    && Inv(View(k'), bt') && Creatable(k'.world, k.mapper.root, bt') && KernelOpen(k'.world.mem, k.mapper.root, bt')
    && k'.mapper.root == k.mapper.root && k'.spaces == k.spaces && bt.Values <= bt'.Values
    && bt'.Values <= bt.Values + Elements(F.Pool(k.world.frames)) && F.InUse(k.world.frames) <= F.InUse(k'.world.frames)
  }

  ghost predicate KernelPart(k: Machine, bt: Tree)
  {
    Inv(View(k), bt) && Creatable(k.world, k.mapper.root, bt) && KernelOpen(k.world.mem, k.mapper.root, bt)
  }

  lemma CallKernel(k: Machine, bt: Tree, call: PB.Op, frames: F.Allocator) returns (bt': Tree, flags: Flags)
    requires KernelPart(k, bt) && !call.OpOthers? && Supplied(k.world.frames, frames, PB.Call(View(k), call).0.pool)
    ensures KernelAfter(k, bt, Called(k, call, frames), bt')
    ensures var mem' := Called(k, call, frames).world.mem;
            || (mem' == k.world.mem && bt' == bt)
            || (KernelWay(Path(call.virt), flags) && Edited(k.world.mem, bt, mem', bt', Path(call.virt), flags))
  {
    var m := View(k);
    bt' := PB.CallTree(m, bt, call);
    flags := CallEdits(m, bt, call, bt');
    var m' := PB.Call(m, call).0;
    if m'.mem == m.mem {
      TreeUnique(m.mem, m.root, bt, bt');
    } else {
      OpenStays(m.mem, m.root, bt, m'.mem, bt', Path(call.virt), flags);
    }
    LowStays(k, bt, m', bt', call, flags);
    ViewCalled(k, call, frames);
    PoolShrinks(m, bt, call);
    SuppliedUse(k.world.frames, frames, m'.pool);
  }

  lemma ViewCalled(k: Machine, call: PB.Op, frames: F.Allocator)
    requires F.Pool(frames) == PB.Call(View(k), call).0.pool
    ensures View(Called(k, call, frames)) == PB.Call(View(k), call).0
  {
  }

  lemma LowStays(k: Machine, bt: Tree, m': Mapper, bt': Tree, call: PB.Op, flags: Flags)
    requires [0] in bt && !call.OpOthers? && (bt' == bt || Edited(k.world.mem, bt, m'.mem, bt', Path(call.virt), flags))
    ensures [0] in bt' && bt.Values <= bt'.Values
  {
    forall v | v in bt.Values ensures v in bt'.Values { var p :| p in bt && bt[p] == v; assert p in bt' && bt'[p] == v; }
  }

  // ---- all spaces follow a call

  lemma CallMoved(k: Machine, bt: Tree, k': Machine, bt': Tree, path: seq<nat>, flags: Flags, s: Space, tree: Tree)
    requires KernelPart(k, bt) && KernelAfter(k, bt, k', bt') && Mirrored(k.world, k.mapper.root, bt, s, tree)
    requires || (k'.world.mem == k.world.mem && bt' == bt)
             || (KernelWay(path, flags) && Edited(k.world.mem, bt, k'.world.mem, bt', path, flags))
    ensures KernelMoved(k.world.mem, k.mapper.root, bt, k'.world.mem, bt', tree) && Elements(Own(s)) !! bt'.Values
  {
    var boot := k.mapper.root;
    SS.PoolApart(k.world.frames);
    assert Elements(Own(s)) !! bt'.Values;
    if k'.world.mem == k.world.mem && bt' == bt {
      StillKernel(k.world.mem, boot, bt, s, tree);
    } else {
      CallMovesKernel(k.world.mem, boot, bt, k'.world.mem, bt', path, flags, s, tree);
    }
  }

  lemma CallSpace(k: Machine, bt: Tree, k': Machine, bt': Tree, path: seq<nat>, flags: Flags, s: Space, tree: Tree)
    requires KernelPart(k, bt) && KernelAfter(k, bt, k', bt') && Mirrored(k.world, k.mapper.root, bt, s, tree)
    requires || (k'.world.mem == k.world.mem && bt' == bt)
             || (KernelWay(path, flags) && Edited(k.world.mem, bt, k'.world.mem, bt', path, flags))
    ensures Mirrored(k'.world, k.mapper.root, bt', s, Followed(bt', tree))
  {
    CallMoved(k, bt, k', bt', path, flags, s, tree);
    FollowHoused(k.world, k'.world, k.mapper.root, bt, bt', s, tree);
  }

  ghost function AllFollowed(bt': Tree, trees: seq<Tree>): (r: seq<Tree>)
    ensures |r| == |trees| && forall i :: 0 <= i < |r| ==> r[i] == Followed(bt', trees[i])
  {
    seq(|trees|, i requires 0 <= i < |trees| => Followed(bt', trees[i]))
  }

  lemma CallSpaceAt(k: Machine, bt: Tree, trees: seq<Tree>, k': Machine, bt': Tree, path: seq<nat>, flags: Flags, i: nat)
    requires KernelPart(k, bt) && KernelAfter(k, bt, k', bt') && SS.HoldsAt(MirroredIn(k.world, k.mapper.root, bt), k.spaces, trees, i)
    requires || (k'.world.mem == k.world.mem && bt' == bt)
             || (KernelWay(path, flags) && Edited(k.world.mem, bt, k'.world.mem, bt', path, flags))
    ensures SS.HoldsAt(MirroredIn(k'.world, k.mapper.root, bt'), k.spaces, AllFollowed(bt', trees), i)
  {
    CallSpace(k, bt, k', bt', path, flags, k.spaces[i], trees[i]);
  }

  lemma CallStep(k: Machine, bt: Tree, trees: seq<Tree>, call: PB.Op, frames: F.Allocator) returns (bt': Tree)
    requires MachineOk(k, bt, trees) && !call.OpOthers? && Supplied(k.world.frames, frames, PB.Call(View(k), call).0.pool)
    ensures MachineOk(Called(k, call, frames), bt', AllFollowed(bt', trees))
  {
    var flags;
    bt', flags := CallKernel(k, bt, call, frames);
    var k' := Called(k, call, frames);
    forall i: nat | i < |k.spaces| ensures SS.HoldsAt(MirroredIn(k'.world, k.mapper.root, bt'), k.spaces, AllFollowed(bt', trees), i) {
      assert SS.HoldsAt(MirroredIn(k.world, k.mapper.root, bt), k.spaces, trees, i);
      CallSpaceAt(k, bt, trees, k', bt', Path(call.virt), flags, i);
    }
  }

  // ---- operations on spaces keep the mirrors

  /** Only the four tables above the tops matter. */
  lemma MirrorStays(mem: Memory, mem': Memory, boot: nat, bt: Tree, tree: Tree)
    requires Mirrors(mem, boot, bt, tree)
    requires forall f :: f == boot || f == bt[[0]] || f == tree[[]] || f == tree[[0]] ==> f in mem && f in mem' && mem'[f] == mem[f]
    ensures Mirrors(mem', boot, bt, tree)
  {
    forall f, i: nat | f == boot || f == bt[[0]] || f == tree[[]] || f == tree[[0]] ensures EntryAt(mem', f, i) == EntryAt(mem, f, i) {}
  }

  lemma MapMirrors(w: World, boot: nat, bt: Tree, s: Space, tree: Tree, w': World, s': Space, tree': Tree)
    requires Mirrored(w, boot, bt, s, tree) && TreeOk(w.mem, boot, bt) && Kept(w, s, w', s') && Grew(tree, tree', s')
    requires forall f :: f in bt.Values ==> SameFrame(w, w', f)
    ensures Mirrors(w'.mem, boot, bt, tree')
  {
    assert !UserTable([]) && !UserTable([0]);
    SharesGrown(bt, tree, tree', s');
    assert bt[[]] in bt.Values && bt[[0]] in bt.Values;
    assert tree[[]] in w.mem && tree[[0]] in w.mem;
    MirrorStays(w.mem, w'.mem, boot, bt, tree);
    TopsGrown(tree, tree', s');
  }

  lemma SharesGrown(bt: Tree, tree: Tree, tree': Tree, s': Space)
    requires SharesTables(bt, tree) && Grew(tree, tree', s')
    ensures SharesTables(bt, tree')
  {
    forall p | Shared(p) ensures (p in tree' <==> p in bt && Top(p) in tree') && (p in tree' ==> tree'[p] == bt[p]) {
      TopTop(p);
      assert !UserTable(p) && !UserTable(Top(p));
    }
  }

  lemma TopsGrown(tree: Tree, tree': Tree, s': Space)
    requires Grew(tree, tree', s')
    ensures forall i: nat :: [i] in tree' <==> [i] in tree
    ensures forall j: nat :: [0, j] in tree' <==> [0, j] in tree
  {
    forall i: nat ensures [i] in tree' <==> [i] in tree { assert !UserTable([i]); }
    forall j: nat ensures [0, j] in tree' <==> [0, j] in tree { assert !UserTable([0, j]); }
  }

  lemma TopInside(mem: Memory, boot: nat, bt: Tree, p: seq<nat>)
    requires TreeOk(mem, boot, bt) && Shared(p) && p in bt
    ensures Top(p) in bt
  {
    if |p| == 3 {
      assert p[..2] in bt && p[..2][..1] == p[..1];
    }
    assert |p| >= 2 ==> p[..2] in bt || |p| == 2;
    assert |p| == 2 ==> p[..2] == p && p[..1] in bt;
    assert |p| == 1 ==> p[..1] == p;
  }

  /** A new space mirrors the kernel. */
  lemma FilledMirrors(mem: Memory, boot: nat, bt: Tree, root: nat, low: nat, user: nat)
    requires Setup(mem, boot, bt, root, low, user)
    ensures Mirrors(FillTables(mem, boot, root, low, user), boot, bt, TreeOf(bt, root, low, user))
  {
    var (mem', t) := (FillTables(mem, boot, root, low, user), TreeOf(bt, root, low, user));
    FilledShares(mem, boot, bt, root, low, user);
    forall i: nat | i != 0 && [i] in t ensures EntryAt(mem', root, i) == EntryAt(mem', boot, i) {
      assert Child([], i) == [i];
      FilledTop(mem, boot, bt, root, low, user, [], i);
    }
    forall j: nat | j != USER_P3_INDEX && [0, j] in t ensures EntryAt(mem', low, j) == EntryAt(mem', bt[[0]], j) {
      assert Child([0], j) == [0, j];
      FilledTop(mem, boot, bt, root, low, user, [0], j);
    }
  }

  lemma FilledShares(mem: Memory, boot: nat, bt: Tree, root: nat, low: nat, user: nat)
    requires Setup(mem, boot, bt, root, low, user)
    ensures var t := TreeOf(bt, root, low, user);
            SharesTables(bt, t) && [] in t && [0] in t && t[[]] == root && t[[0]] == low
  {
    var t := TreeOf(bt, root, low, user);
    forall p | Shared(p) ensures (p in t <==> p in bt) && (p in t ==> t[p] == bt[p]) { SharedIn(bt, root, low, user, p); }
    forall p | Shared(p) ensures p in t <==> p in bt && Top(p) in t {
      TopTop(p);
      if p in bt { TopInside(mem, boot, bt, p); }
    }
  }

  lemma SharedIn(bt: Tree, root: nat, low: nat, user: nat, p: seq<nat>)
    requires Shared(p)
    ensures var t := TreeOf(bt, root, low, user); (p in t <==> p in bt) && (p in t ==> t[p] == bt[p])
  {
    assert p != [0, USER_P3_INDEX];
  }

  lemma FilledTop(mem: Memory, boot: nat, bt: Tree, root: nat, low: nat, user: nat, p: seq<nat>, i: nat)
    requires Setup(mem, boot, bt, root, low, user) && Child(p, i) in TreeOf(bt, root, low, user)
    requires (p == [] && i != 0) || (p == [0] && i != USER_P3_INDEX)
    ensures var mem' := FillTables(mem, boot, root, low, user);
            EntryAt(mem', if p == [] then root else low, i) == EntryAt(mem', if p == [] then boot else bt[[0]], i)
  {
    var (mem', t) := (FillTables(mem, boot, root, low, user), TreeOf(bt, root, low, user));
    FilledPaths(bt, root, low, user, p, i);
    assert bt[[]] in bt.Values && bt[[0]] in bt.Values;
    ChildParts(p, i);
    assert Child(p, i) in bt;
    FilledEntries(mem, boot, bt, root, low, user, p, i);
    assert EntryAt(mem', bt[[0]], i) == EntryAt(mem, bt[[0]], i) && EntryAt(mem', boot, i) == EntryAt(mem, boot, i);
  }

  lemma CreateMirrors(w: World, boot: nat, bt: Tree, tree: Tree)
    requires Creatable(w, boot, bt) && Create(w, boot).1.Ok? && TreeOk(Create(w, boot).0.mem, Create(w, boot).1.value.root, tree)
    ensures Mirrors(Create(w, boot).0.mem, boot, bt, tree)
  {
    AddThreeOk(w);
    CompletedMirrors(w, AddThree(w), boot, bt, tree);
  }

  lemma CompletedMirrors(w: World, taken: (World, Space, Option<SpaceError>), boot: nat, bt: Tree, tree: Tree)
    requires Creatable(w, boot, bt) && SpaceLife.Cleared(w, taken.0, taken.1.tables) && Completed(taken, boot).1.Ok?
    requires taken.2.None? ==> |taken.1.tables| == 3
    requires TreeOk(Completed(taken, boot).0.mem, Completed(taken, boot).1.value.root, tree)
    ensures Mirrors(Completed(taken, boot).0.mem, boot, bt, tree)
  {
    var (w1, got) := (taken.0, taken.1.tables);
    CreatedSetup(w, w1, boot, bt, got);
    FilledTree(w1.mem, boot, bt, got[0], got[1], got[2]);
    FilledMirrors(w1.mem, boot, bt, got[0], got[1], got[2]);
    TreeUnique(FillTables(w1.mem, boot, got[0], got[1], got[2]), got[0], TreeOf(bt, got[0], got[1], got[2]), tree);
  }

  // ---- a built space mirrors the kernel

  lemma BuildMirrors(w: World, boot: nat, bt: Tree, activeRoot: nat, image: seq<Byte>, tree: Tree)
    requires Creatable(w, boot, bt) && LM.Build(w, boot, activeRoot, image).1.Ok?
    requires TreeOk(LM.Build(w, boot, activeRoot, image).0.mem, LM.Build(w, boot, activeRoot, image).1.value.space.root, tree)
    ensures Mirrors(LM.Build(w, boot, activeRoot, image).0.mem, boot, bt, tree)
  {
    LM.PlansInside(image);
    EL.ValidateSound(image);
    var plan := E.Validate(image).value;
    var founded := CreateOk(w, boot, bt);
    var created := Create(w, boot);
    BuildShape(w, boot, activeRoot, image, plan);
    LB.CreatedFounded(w, created.0, boot, bt, founded, created.1.value);
    CreateMirrors(w, boot, bt, founded);
    PopulateMirrors(w, created.0, created.1.value, boot, bt, founded, activeRoot, image, plan, tree);
  }

  lemma BuildShape(w: World, boot: nat, activeRoot: nat, image: seq<Byte>, plan: E.Plan)
    requires E.Validate(image) == Ok(plan) && LM.FileInside(plan.segments, image) && LM.Build(w, boot, activeRoot, image).1.Ok?
    ensures Create(w, boot).1.Ok?
    ensures LM.Build(w, boot, activeRoot, image) == LM.Populate(Create(w, boot).0, Create(w, boot).1.value, activeRoot, image, plan)
  {
  }

  lemma PopulateMirrors(
    w: World, w1: World, s: Space, boot: nat, bt: Tree, founded: Tree, activeRoot: nat, image: seq<Byte>, plan: E.Plan, tree: Tree)
    requires Creatable(w, boot, bt) && LB.Founded(w, w1, s, bt, founded) && Mirrors(w1.mem, boot, bt, founded)
    requires EL.PlanOk(plan, |image|) && LM.FileInside(plan.segments, image) && LM.Populate(w1, s, activeRoot, image, plan).1.Ok?
    requires TreeOk(LM.Populate(w1, s, activeRoot, image, plan).0.mem, LM.Populate(w1, s, activeRoot, image, plan).1.value.space.root, tree)
    ensures Mirrors(LM.Populate(w1, s, activeRoot, image, plan).0.mem, boot, bt, tree)
  {
    LP.AllRequestsOk(plan, |image|);
    LB.AllUnmapped(w1, s, LP.AllRequests(plan));
    var tree2 := LP.MapAllOk(w1, s, founded, LP.AllRequests(plan));
    var (w2, s2, failed) := LM.MapAll(w1, s, LP.AllRequests(plan));
    PopulateShape(w1, s, activeRoot, image, plan);
    MappedMirrors(w, w1, s, boot, bt, founded, w2, s2, tree2);
    LB.FurnishedOk(w1, s, w2, s2, tree2, activeRoot, image, plan);
    TreeUnique(w2.mem, s2.root, tree2, tree);
  }

  lemma PopulateShape(w1: World, s: Space, activeRoot: nat, image: seq<Byte>, plan: E.Plan)
    requires LM.FileInside(plan.segments, image) && LM.Populate(w1, s, activeRoot, image, plan).1.Ok?
    ensures var (w2, s2, failed) := LM.MapAll(w1, s, LP.AllRequests(plan));
            failed.None? && LM.Populate(w1, s, activeRoot, image, plan) == LM.Furnish(w2, s2, activeRoot, image, plan)
  {
  }

  lemma MappedMirrors(w: World, w1: World, s: Space, boot: nat, bt: Tree, founded: Tree, w2: World, s2: Space, tree2: Tree)
    requires Creatable(w, boot, bt) && LB.Founded(w, w1, s, bt, founded) && Mirrors(w1.mem, boot, bt, founded)
    requires Kept(w1, s, w2, s2) && Grew(founded, tree2, s2)
    ensures Mirrors(w2.mem, boot, bt, tree2)
  {
    SS.FreshKernel(w, boot, bt);
    LB.MappedFootprint(w, w1, s, w2, s2);
    LB.KeptWrote(w1, s, w2, s2);
    LB.BuildKernel(w, w1, boot, bt);
    forall f | f in bt.Values ensures SameFrame(w1, w2, f) { assert f !in Elements(Own(s2)); }
    assert SS.Housed(w1, bt, s, founded);
    MapMirrors(w1, boot, bt, s, founded, w2, s2, tree2);
  }

  // ---- one operation on spaces, seen from every space

  lemma AsSystem(k: Machine, bt: Tree, trees: seq<Tree>)
    requires MachineOk(k, bt, trees)
    ensures SS.SystemOk(SS.System(k.world, k.spaces), k.mapper.root, bt, trees)
  {
    forall i: nat | i < |k.spaces| ensures SS.HoldsAt(SS.HousedIn(k.world, bt), k.spaces, trees, i) {
      assert SS.HoldsAt(MirroredIn(k.world, k.mapper.root, bt), k.spaces, trees, i);
    }
  }

  ghost predicate MirrorsAt(mem: Memory, boot: nat, bt: Tree, trees: seq<Tree>, i: nat) { i < |trees| && Mirrors(mem, boot, bt, trees[i]) }

  /** The same space in the same memory has the same tree. */
  lemma SameTree(w: World, bt: Tree, spaces: seq<Space>, trees: seq<Tree>, i: nat, spaces': seq<Space>, trees': seq<Tree>, j: nat)
    requires SS.HoldsAt(SS.HousedIn(w, bt), spaces, trees, i) && SS.HoldsAt(SS.HousedIn(w, bt), spaces', trees', j) && spaces[i] == spaces'[j]
    ensures trees[i] == trees'[j]
  {
    TreeUnique(w.mem, spaces[i].root, trees[i], trees'[j]);
  }

  lemma BystanderMirrors(y: SS.System, boot: nat, bt: Tree, trees: seq<Tree>, op: SS.Op, y': SS.System, trees': seq<Tree>, j: nat)
    requires SS.SystemOk(y, boot, bt, trees) && SS.Permitted(y, op) && SS.Isolated(y, boot, bt, op, y', trees')
    requires SS.Bystander(y, op, j) && MirrorsAt(y.world.mem, boot, bt, trees, j)
    ensures MirrorsAt(y'.world.mem, boot, bt, trees', SS.After(y, op, y', j))
  {
    var i := SS.After(y, op, y', j);
    assert SS.SameAt(y, op, y', j);
    SS.OneUnmoved(y, boot, bt, trees, op, y'.world, j);
    assert SS.HoldsAt(SS.HousedIn(y'.world, bt), y'.spaces, trees', i);
    SameTree(y'.world, bt, y'.spaces, trees', i, y.spaces, trees, j);
    BystanderTops(y, boot, bt, trees, op, y', j);
  }

  lemma BystanderTops(y: SS.System, boot: nat, bt: Tree, trees: seq<Tree>, op: SS.Op, y': SS.System, j: nat)
    requires SS.SystemOk(y, boot, bt, trees) && SS.Permitted(y, op) && SS.Confined(y.world, y'.world, SS.Touched(y, op))
    requires SS.Bystander(y, op, j) && MirrorsAt(y.world.mem, boot, bt, trees, j)
    ensures MirrorsAt(y'.world.mem, boot, bt, trees, j)
  {
    var (s, t) := (y.spaces[j], trees[j]);
    SS.TouchedApart(y, boot, bt, trees, op);
    assert SS.HoldsAt(SS.HousedIn(y.world, bt), y.spaces, trees, j);
    SS.UntouchedFrames(y.world, y'.world, boot, bt, Elements(Own(s)), SS.Touched(y, op));
    OwnTables(y.world.mem, s, t, []);
    OwnTables(y.world.mem, s, t, [0]);
    assert bt[[]] in bt.Values && bt[[0]] in bt.Values;
    forall f | f == boot || f == bt[[0]] || f == t[[]] || f == t[[0]]
      ensures f in y.world.mem && f in y'.world.mem && y'.world.mem[f] == y.world.mem[f]
    {
      assert SameFrame(y.world, y'.world, f);
    }
    MirrorStays(y.world.mem, y'.world.mem, boot, bt, t);
  }

  /** When no table is written every space keeps its tree. */
  lemma UnwrittenMirrors(y: SS.System, boot: nat, bt: Tree, trees: seq<Tree>, y': SS.System, trees': seq<Tree>, i: nat)
    requires SS.SystemOk(y, boot, bt, trees) && SS.SystemOk(y', boot, bt, trees') && y'.world.mem == y.world.mem && y'.spaces == y.spaces
    requires i < |y.spaces| && MirrorsAt(y.world.mem, boot, bt, trees, i)
    ensures MirrorsAt(y'.world.mem, boot, bt, trees', i)
  {
    assert SS.HoldsAt(SS.HousedIn(y.world, bt), y.spaces, trees, i);
    assert SS.HoldsAt(SS.HousedIn(y'.world, bt), y'.spaces, trees', i);
    TreeUnique(y.world.mem, y.spaces[i].root, trees[i], trees'[i]);
  }

  lemma TargetMirrors(
    w: World, boot: nat, bt: Tree, s: Space, tree: Tree, w': World, s': Space, tree': Tree, spaces: seq<Space>, trees': seq<Tree>, i: nat)
    requires Creatable(w, boot, bt) && Mirrored(w, boot, bt, s, tree) && Kept(w, s, w', s') && Grew(tree, tree', s') && SpaceInv(w', s', tree')
    requires SS.HoldsAt(SS.HousedIn(w', bt), spaces, trees', i) && spaces[i] == s'
    ensures MirrorsAt(w'.mem, boot, bt, trees', i)
  {
    SS.MapConfined(w, s, w', s', tree');
    SS.UntouchedFrames(w, w', boot, bt, {}, Elements(Own(s)));
    MapMirrors(w, boot, bt, s, tree, w', s', tree');
    TreeUnique(w'.mem, s'.root, tree', trees'[i]);
  }

  lemma MapStepMirrors(y: SS.System, boot: nat, bt: Tree, trees: seq<Tree>, op: SS.Op, y': SS.System, trees': seq<Tree>)
    requires SS.SystemOk(y, boot, bt, trees) && op.OpMap? && op.i < |y.spaces| && MirrorsAt(y.world.mem, boot, bt, trees, op.i)
    requires var mapped := MapUser(y.world, y.spaces[op.i], op.virt, op.writable, op.executable);
             y'.world == mapped.0 && |y'.spaces| > op.i && y'.spaces[op.i] == mapped.1
    requires SS.HoldsAt(SS.HousedIn(y'.world, bt), y'.spaces, trees', op.i)
    ensures MirrorsAt(y'.world.mem, boot, bt, trees', op.i)
  {
    var s := y.spaces[op.i];
    assert SS.HoldsAt(SS.HousedIn(y.world, bt), y.spaces, trees, op.i);
    var tree' := MapUserOk(y.world, s, trees[op.i], op.virt, op.writable, op.executable);
    TargetMirrors(y.world, boot, bt, s, trees[op.i], y'.world, y'.spaces[op.i], tree', y'.spaces, trees', op.i);
  }

  lemma MadeMirrors(w: World, boot: nat, bt: Tree, w': World, spaces: seq<Space>, trees': seq<Tree>, i: nat)
    requires Creatable(w, boot, bt) && SS.HoldsAt(SS.HousedIn(w', bt), spaces, trees', i)
    requires Create(w, boot) == (w', Ok(spaces[i]))
    ensures MirrorsAt(w'.mem, boot, bt, trees', i)
  {
    CreateMirrors(w, boot, bt, trees'[i]);
  }

  lemma BuiltMirrors(
    w: World, boot: nat, bt: Tree, activeRoot: nat, image: seq<Byte>, w': World, spaces: seq<Space>, trees': seq<Tree>, i: nat)
    requires Creatable(w, boot, bt) && SS.HoldsAt(SS.HousedIn(w', bt), spaces, trees', i)
    requires LM.Build(w, boot, activeRoot, image).0 == w' && LM.Build(w, boot, activeRoot, image).1.Ok?
    requires LM.Build(w, boot, activeRoot, image).1.value.space == spaces[i]
    ensures MirrorsAt(w'.mem, boot, bt, trees', i)
  {
    BuildMirrors(w, boot, bt, activeRoot, image, trees'[i]);
  }

  // ---- the shape of a step, one operation at a time

  lemma CreateShape(y: SS.System, boot: nat, op: SS.Op)
    requires op.OpCreate?
    ensures var y' := SS.Step(y, boot, op);
            && |y.spaces| <= |y'.spaces| <= |y.spaces| + 1 && y'.spaces[..|y.spaces|] == y.spaces
            && (|y'.spaces| > |y.spaces| ==> Create(y.world, boot) == (y'.world, Ok(y'.spaces[|y.spaces|])))
  {
  }

  lemma BuildStepShape(y: SS.System, boot: nat, op: SS.Op)
    requires op.OpBuild? && SS.Permitted(y, op)
    ensures var (y', r) := (SS.Step(y, boot, op), LM.Build(y.world, boot, op.activeRoot, op.image));
            && |y.spaces| <= |y'.spaces| <= |y.spaces| + 1 && y'.spaces[..|y.spaces|] == y.spaces
            && (|y'.spaces| > |y.spaces| ==> r.0 == y'.world && r.1.Ok? && r.1.value.space == y'.spaces[|y.spaces|])
  {
  }

  lemma MapShape(y: SS.System, boot: nat, op: SS.Op)
    requires op.OpMap? && SS.Permitted(y, op)
    ensures var (y', mapped) := (SS.Step(y, boot, op), MapUser(y.world, y.spaces[op.i], op.virt, op.writable, op.executable));
            y'.world == mapped.0 && |y'.spaces| == |y.spaces| && y'.spaces[op.i] == mapped.1
  {
  }

  lemma OtherShape(y: SS.System, boot: nat, op: SS.Op)
    requires (op.OpStore? || op.OpDestroy?) && SS.Permitted(y, op)
    ensures var y' := SS.Step(y, boot, op);
            || (y'.world.mem == y.world.mem && y'.spaces == y.spaces)
            || (op.OpDestroy? && |y'.spaces| == |y.spaces| - 1)
  {
  }

  ghost predicate AllMirrorsAt(mem: Memory, boot: nat, bt: Tree, trees: seq<Tree>) { forall i: nat :: i < |trees| ==> MirrorsAt(mem, boot, bt, trees, i) }

  /** Every bystander still mirrors the kernel. */
  ghost predicate OthersMirror(y: SS.System, boot: nat, bt: Tree, op: SS.Op, y': SS.System, trees': seq<Tree>)
  {
    |trees'| == |y'.spaces| && forall j: nat :: SS.Bystander(y, op, j) ==> MirrorsAt(y'.world.mem, boot, bt, trees', SS.After(y, op, y', j))
  }

  lemma BystandersMirror(y: SS.System, boot: nat, bt: Tree, trees: seq<Tree>, op: SS.Op, y': SS.System, trees': seq<Tree>)
    requires SS.SystemOk(y, boot, bt, trees) && SS.Permitted(y, op) && SS.Isolated(y, boot, bt, op, y', trees') && AllMirrorsAt(y.world.mem, boot, bt, trees)
    ensures OthersMirror(y, boot, bt, op, y', trees')
  {
    forall j: nat | SS.Bystander(y, op, j) ensures MirrorsAt(y'.world.mem, boot, bt, trees', SS.After(y, op, y', j)) {
      assert MirrorsAt(y.world.mem, boot, bt, trees, j);
      BystanderMirrors(y, boot, bt, trees, op, y', trees', j);
    }
  }

  lemma JoinMirrors(y: SS.System, boot: nat, bt: Tree, op: SS.Op, y': SS.System, trees': seq<Tree>)
    requires OthersMirror(y, boot, bt, op, y', trees') && (op.OpCreate? || op.OpBuild?) && |y'.spaces| <= |y.spaces| + 1
    requires |y'.spaces| > |y.spaces| ==> MirrorsAt(y'.world.mem, boot, bt, trees', |y.spaces|)
    ensures AllMirrorsAt(y'.world.mem, boot, bt, trees')
  {
    forall i: nat | i < |trees'| ensures MirrorsAt(y'.world.mem, boot, bt, trees', i) {
      if i < |y.spaces| { assert SS.Bystander(y, op, i) && SS.After(y, op, y', i) == i; }
    }
  }

  lemma ChangeMirrors(y: SS.System, boot: nat, bt: Tree, op: SS.Op, y': SS.System, trees': seq<Tree>)
    requires OthersMirror(y, boot, bt, op, y', trees') && op.OpMap? && |y'.spaces| == |y.spaces| && MirrorsAt(y'.world.mem, boot, bt, trees', op.i)
    ensures AllMirrorsAt(y'.world.mem, boot, bt, trees')
  {
    forall i: nat | i < |trees'| ensures MirrorsAt(y'.world.mem, boot, bt, trees', i) {
      if i != op.i { assert SS.Bystander(y, op, i) && SS.After(y, op, y', i) == i; }
    }
  }

  lemma RemoveMirrors(y: SS.System, boot: nat, bt: Tree, op: SS.Op, y': SS.System, trees': seq<Tree>)
    requires OthersMirror(y, boot, bt, op, y', trees') && op.OpDestroy? && |y'.spaces| == |y.spaces| - 1
    ensures AllMirrorsAt(y'.world.mem, boot, bt, trees')
  {
    forall i: nat | i < |trees'| ensures MirrorsAt(y'.world.mem, boot, bt, trees', i) {
      var j := SS.Before(op.i, i);
      assert SS.Bystander(y, op, j) && SS.After(y, op, y', j) == i;
    }
  }

  lemma StillMirrors(y: SS.System, boot: nat, bt: Tree, trees: seq<Tree>, y': SS.System, trees': seq<Tree>)
    requires SS.SystemOk(y, boot, bt, trees) && SS.SystemOk(y', boot, bt, trees') && y'.world.mem == y.world.mem && y'.spaces == y.spaces
    requires AllMirrorsAt(y.world.mem, boot, bt, trees)
    ensures AllMirrorsAt(y'.world.mem, boot, bt, trees')
  {
    forall i: nat | i < |trees'| ensures MirrorsAt(y'.world.mem, boot, bt, trees', i) {
      assert MirrorsAt(y.world.mem, boot, bt, trees, i);
      UnwrittenMirrors(y, boot, bt, trees, y', trees', i);
    }
  }

  lemma OtherMirrors(y: SS.System, boot: nat, bt: Tree, trees: seq<Tree>, op: SS.Op, y': SS.System, trees': seq<Tree>)
    requires SS.SystemOk(y, boot, bt, trees) && SS.Permitted(y, op) && SS.Isolated(y, boot, bt, op, y', trees') && AllMirrorsAt(y.world.mem, boot, bt, trees)
    requires || (y'.world.mem == y.world.mem && y'.spaces == y.spaces)
             || (op.OpDestroy? && |y'.spaces| == |y.spaces| - 1)
    ensures AllMirrorsAt(y'.world.mem, boot, bt, trees')
  {
    if y'.world.mem == y.world.mem && y'.spaces == y.spaces {
      StillMirrors(y, boot, bt, trees, y', trees');
    } else {
      BystandersMirror(y, boot, bt, trees, op, y', trees');
      RemoveMirrors(y, boot, bt, op, y', trees');
    }
  }

  /** Every operation on spaces keeps the mirrors of all of them. */
  lemma StepMirrors(y: SS.System, boot: nat, bt: Tree, trees: seq<Tree>, op: SS.Op, trees': seq<Tree>)
    requires SS.SystemOk(y, boot, bt, trees) && SS.Permitted(y, op) && SS.Isolated(y, boot, bt, op, SS.Step(y, boot, op), trees')
    requires AllMirrorsAt(y.world.mem, boot, bt, trees)
    ensures AllMirrorsAt(SS.Step(y, boot, op).world.mem, boot, bt, trees')
  {
    if op.OpCreate? {
      CreateStepMirrors(y, boot, bt, trees, op, trees');
    } else if op.OpBuild? {
      BuildStepMirrors(y, boot, bt, trees, op, trees');
    } else if op.OpMap? {
      MapShape(y, boot, op);
      TargetStep(y, boot, bt, trees, op, SS.Step(y, boot, op), trees');
    } else {
      OtherShape(y, boot, op);
      OtherMirrors(y, boot, bt, trees, op, SS.Step(y, boot, op), trees');
    }
  }

  lemma TargetStep(y: SS.System, boot: nat, bt: Tree, trees: seq<Tree>, op: SS.Op, y': SS.System, trees': seq<Tree>)
    requires SS.SystemOk(y, boot, bt, trees) && SS.Permitted(y, op) && SS.Isolated(y, boot, bt, op, y', trees') && AllMirrorsAt(y.world.mem, boot, bt, trees)
    requires op.OpMap?
    requires var mapped := MapUser(y.world, y.spaces[op.i], op.virt, op.writable, op.executable);
             y'.world == mapped.0 && |y'.spaces| == |y.spaces| && y'.spaces[op.i] == mapped.1
    ensures AllMirrorsAt(y'.world.mem, boot, bt, trees')
  {
    assert MirrorsAt(y.world.mem, boot, bt, trees, op.i);
    assert SS.HoldsAt(SS.HousedIn(y'.world, bt), y'.spaces, trees', op.i);
    MapStepMirrors(y, boot, bt, trees, op, y', trees');
    BystandersMirror(y, boot, bt, trees, op, y', trees');
    ChangeMirrors(y, boot, bt, op, y', trees');
  }

  lemma CreateStepMirrors(y: SS.System, boot: nat, bt: Tree, trees: seq<Tree>, op: SS.Op, trees': seq<Tree>)
    requires SS.SystemOk(y, boot, bt, trees) && SS.Permitted(y, op) && SS.Isolated(y, boot, bt, op, SS.Step(y, boot, op), trees')
    requires AllMirrorsAt(y.world.mem, boot, bt, trees) && op.OpCreate?
    ensures AllMirrorsAt(SS.Step(y, boot, op).world.mem, boot, bt, trees')
  {
    var y' := SS.Step(y, boot, op);
    CreateShape(y, boot, op);
    if |y'.spaces| > |y.spaces| {
      assert SS.HoldsAt(SS.HousedIn(y'.world, bt), y'.spaces, trees', |y.spaces|);
      MadeMirrors(y.world, boot, bt, y'.world, y'.spaces, trees', |y.spaces|);
    }
    BystandersMirror(y, boot, bt, trees, op, y', trees');
    JoinMirrors(y, boot, bt, op, y', trees');
  }

  lemma BuildStepMirrors(y: SS.System, boot: nat, bt: Tree, trees: seq<Tree>, op: SS.Op, trees': seq<Tree>)
    requires SS.SystemOk(y, boot, bt, trees) && SS.Permitted(y, op) && SS.Isolated(y, boot, bt, op, SS.Step(y, boot, op), trees')
    requires AllMirrorsAt(y.world.mem, boot, bt, trees) && op.OpBuild?
    ensures AllMirrorsAt(SS.Step(y, boot, op).world.mem, boot, bt, trees')
  {
    var y' := SS.Step(y, boot, op);
    BuildStepShape(y, boot, op);
    if |y'.spaces| > |y.spaces| {
      assert SS.HoldsAt(SS.HousedIn(y'.world, bt), y'.spaces, trees', |y.spaces|);
      BuiltMirrors(y.world, boot, bt, op.activeRoot, op.image, y'.world, y'.spaces, trees', |y.spaces|);
    }
    BystandersMirror(y, boot, bt, trees, op, y', trees');
    JoinMirrors(y, boot, bt, op, y', trees');
  }
}
