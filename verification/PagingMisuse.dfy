/**
 What other clients of the frame allocator must not do, exactly: free a frame that holds a page
 table of the kernel, or write an entry of one in a way that is not already granted.
 */
module PagingMisuse {
  import opened Common
  import opened PagingModel
  import opened PagingTree
  import opened PagingLaws
  import opened PagingRefine
  import opened PagingRuns
  import opened PagingEdits
  import opened PagingBoot
  import opened PagingSupply
  import F = PhysmemModel
  import FL = PhysmemLaws
  import FR = PhysmemRuns

  // ---- freeing a table

  function AfterFree(k: Kernel, a: F.Allocator, f: nat): Kernel
  {
    k.(mapper := k.mapper.(pool := F.Pool(F.FreeFrame(a, f).0)))
  }

  /**
   Freeing a frame leaves the kernel sound, with whatever tree, exactly if the frame holds no page
   table, is not in use, or finds the recycle stack full.
   */
  lemma FreedOkIff(k: Kernel, tree: Tree, a: F.Allocator, f: nat)
    requires KernelOk(k, tree) && FL.Inv(a) && F.Pool(a) == k.mapper.pool
    ensures (exists t :: KernelOk(AfterFree(k, a, f), t)) <==> f !in k.tables || f !in F.InUse(a) || |a.recycled| >= F.MAX_RECYCLED
  {
    FL.FreeRefines(a, f);
    var (b, k') := (F.FreeFrame(a, f).0, AfterFree(k, a, f));
    if f !in k.tables || f !in F.InUse(a) || |a.recycled| >= F.MAX_RECYCLED {
      FreedSpare(k, tree, a, f);
      SameTables(k.mapper, k'.mapper);
      SameKeeps(k.mapper, k'.mapper);
      assert KernelOk(k', tree);
    } else {
      assert F.Pool(b)[0] == f;
      forall t ensures !KernelOk(k', t) { assert k'.mapper.pool[0] in k'.tables; }
    }
  }

  lemma FreedSpare(k: Kernel, tree: Tree, a: F.Allocator, f: nat)
    requires KernelOk(k, tree) && FL.Inv(a) && F.Pool(a) == k.mapper.pool
    requires f !in k.tables || f !in F.InUse(a) || |a.recycled| >= F.MAX_RECYCLED
    ensures PoolOk(AfterFree(k, a, f).mapper.pool, tree)
  {
    FL.FreeRefines(a, f);
    if F.FreeFrame(a, f).1 { FreedPermitted(k, tree, a, f); }
  }

  // ---- what comes of it

  const KERNEL_FLAGS := Flags(true, false, false)

  /** The entry that leads to the table at `p`. */
  function EntryTo(mem: Memory, tree: Tree, p: seq<nat>): Entry
    requires p != [] && p[..|p| - 1] in tree
  {
    EntryAt(mem, tree[p[..|p| - 1]], p[|p| - 1])
  }

  /** A walk down four entries that withhold nothing the last one grants. */
  lemma WalkFour(mem: Memory, f0: nat, path: seq<nat>, f1: nat, f2: nat, f3: nat)
    requires |path| == 4
    requires var (e0, e1, e2) := (EntryAt(mem, f0, path[0]), EntryAt(mem, f1, path[1]), EntryAt(mem, f2, path[2]));
             && Leads(e0, f1) && Leads(e1, f2) && Leads(e2, f3)
    requires var e3 := EntryAt(mem, f3, path[3]); e3.present && !e3.user
    ensures Walk(mem, f0, path) == Some(PageLeaf(EntryAt(mem, f3, path[3])))
  {
    var leaf := Some(PageLeaf(EntryAt(mem, f3, path[3])));
    assert path[3..] == [path[3]] && path[2..][1..] == path[3..] && path[1..][1..] == path[2..] && path[1..][0] == path[1] && path[2..][0] == path[2];
    WalkLast(mem, f3, path[3..]);
    WalkThrough(mem, f2, path[2..], leaf);
    WalkThrough(mem, f1, path[1..], leaf);
    WalkThrough(mem, f0, path, leaf);
  }

  /** A writable entry that leads to the table in `f`. */
  predicate Leads(e: Entry, f: nat) { e.present && !e.huge && !e.noExecute && e.writable && e.addr == f && f < IDENTITY_BYTES }

  /** Two pages 2 MiB apart, the first with its last-level table, the second without one, in one 1 GiB region. */
  ghost predicate Neighbours(mem: Memory, root: nat, tree: Tree, virt: nat, other: nat)
  {
    && TreeOk(mem, root, tree) && Path(virt)[..3] in tree && Path(virt)[..2] in tree && Path(other)[..3] !in tree
    && Path(virt)[..2] == Path(other)[..2] && Index(virt, 3) == Index(other, 3) && Index(virt, 2) != Index(other, 2)
    && !EntryAt(mem, tree[Path(virt)[..2]], Index(other, 2)).present
    && LeafAt(mem, tree, Path(virt)).Some? && LeafAt(mem, tree, Path(virt)).value.writable
  }

  lemma NeighbourPaths(mem: Memory, root: nat, tree: Tree, virt: nat, other: nat)
    requires Neighbours(mem, root, tree, virt, other)
    ensures Path(virt)[..1] in tree && Path(virt)[..2] in tree && Path(virt)[..0] == []
    ensures Index(virt, 0) == Index(other, 0) && Index(virt, 1) == Index(other, 1) && Path(virt)[..1] == Path(other)[..1]
    ensures Leads(EntryAt(mem, root, Index(virt, 0)), tree[Path(virt)[..1]])
    ensures Leads(EntryAt(mem, tree[Path(virt)[..1]], Index(virt, 1)), tree[Path(virt)[..2]])
    ensures Leads(EntryAt(mem, tree[Path(virt)[..2]], Index(virt, 2)), tree[Path(virt)[..3]])
    ensures !EntryAt(mem, tree[Path(virt)[..2]], Index(other, 2)).huge
    ensures tree[Path(virt)[..3]] != tree[Path(virt)[..2]] && tree[Path(virt)[..3]] != tree[Path(virt)[..1]] && tree[Path(virt)[..3]] != root
    ensures tree[Path(virt)[..2]] != tree[Path(virt)[..1]] && tree[Path(virt)[..2]] != root && tree[Path(virt)[..1]] != root
  {
    var q := Path(virt);
    assert q[..3][..2] == q[..2] && q[..2][..1] == q[..1] && q[..1][..0] == [];
    assert Path(other)[..2][..1] == Path(other)[..1] && q[..2][0] == q[0] && q[..2][1] == q[1];
    forall level | 0 <= level < 3 ensures Leads(EntryAt(mem, tree[q[..level]], q[level]), tree[q[..level + 1]]) {
      WayWritable(mem, root, tree, virt, level);
    }
    assert |q[..1]| == 1 && |q[..2]| == 2 && |q[..3]| == 3;
    assert EntryOk(mem, tree, q[..2], Index(other, 2));
  }

  lemma WayWritable(mem: Memory, root: nat, tree: Tree, virt: nat, level: nat)
    requires TreeOk(mem, root, tree) && level < 3 && Path(virt)[..3] in tree && Path(virt)[..level] in tree && Path(virt)[..level + 1] in tree
    requires LeafAt(mem, tree, Path(virt)).Some? && LeafAt(mem, tree, Path(virt)).value.writable
    ensures Leads(EntryAt(mem, tree[Path(virt)[..level]], Path(virt)[level]), tree[Path(virt)[..level + 1]])
  {
    PathStep(virt, level);
    WalkIsLeafAt(mem, root, tree, virt, level);
    assert EntryOk(mem, tree, Path(virt)[..level], Index(virt, level));
  }

  /** Memory after `other` was mapped with the table of `virt` handed out again. */
  function Reused(mem: Memory, f0: nat, f1: nat, f2: nat, f3: nat, path: seq<nat>, phys: nat): Memory
    requires |path| == 4
  {
    var m1 := SetEntry(mem, f0, path[0], Widen(EntryAt(mem, f0, path[0]), KERNEL_FLAGS));
    var m2 := SetEntry(m1, f1, path[1], Widen(EntryAt(m1, f1, path[1]), KERNEL_FLAGS));
    var m3 := SetEntry(m2[f3 := ZeroTable()], f2, path[2], Entry(f3, true, true, false, false, false));
    SetEntry(m3, f3, path[3], LeafEntry(phys, KERNEL_FLAGS))
  }

  lemma MapReuses(m: Mapper, f1: nat, f2: nat, f3: nat, path: seq<nat>, phys: nat)
    requires |path| == 4 && m.pool != [] && m.pool[0] == f3 && f3 < IDENTITY_BYTES && path[3] < TABLE_ENTRIES
    requires Leads(EntryAt(m.mem, m.root, path[0]), f1) && Leads(EntryAt(m.mem, f1, path[1]), f2) && !EntryAt(m.mem, f2, path[2]).present
    requires !EntryAt(m.mem, f2, path[2]).huge
    requires f3 != f2 && f3 != f1 && f3 != m.root && f2 != f1 && f2 != m.root && f1 != m.root
    ensures var (m', r) := MapFrom(m, m.root, path, phys, KERNEL_FLAGS);
            r.Ok? && m'.root == m.root && m'.mem == Reused(m.mem, m.root, f1, f2, f3, path, phys)
  {
    assert path[3..] == [path[3]] && path[2..][1..] == path[3..] && path[1..][1..] == path[2..] && path[1..][0] == path[1] && path[2..][0] == path[2];
    MapFromStep(m, m.root, path, phys, KERNEL_FLAGS);
    var m1 := EnsureNext(m, m.root, path[0], KERNEL_FLAGS).0;
    assert EntryAt(m1.mem, f1, path[1]) == EntryAt(m.mem, f1, path[1]) && EntryAt(m1.mem, f2, path[2]) == EntryAt(m.mem, f2, path[2]);
    MapFromStep(m1, f1, path[1..], phys, KERNEL_FLAGS);
    var m2 := EnsureNext(m1, f1, path[1], KERNEL_FLAGS).0;
    assert EntryAt(m2.mem, f2, path[2]) == EntryAt(m.mem, f2, path[2]);
    MapFromStep(m2, f2, path[2..], phys, KERNEL_FLAGS);
    var m3 := EnsureNext(m2, f2, path[2], KERNEL_FLAGS).0;
    assert EntryAt(m3.mem, f3, path[3]) == NONE_ENTRY;
    MapFromLast(m3, f3, path[3..], phys);
  }

  lemma MapFromLast(m: Mapper, frame: nat, path: seq<nat>, phys: nat)
    requires |path| == 1 && !EntryAt(m.mem, frame, path[0]).present
    ensures MapFrom(m, frame, path, phys, KERNEL_FLAGS) == (m.(mem := SetEntry(m.mem, frame, path[0], LeafEntry(phys, KERNEL_FLAGS))), Ok(()))
  {
  }

  /** In that memory the walk of the page that was not touched ends at the new page. */
  lemma ReusedWalk(mem: Memory, f0: nat, f1: nat, f2: nat, f3: nat, path: seq<nat>, other: seq<nat>, phys: nat)
    requires |path| == 4 == |other| && path[0] == other[0] && path[1] == other[1] && path[2] != other[2] && path[3] == other[3] < TABLE_ENTRIES
    requires Leads(EntryAt(mem, f0, path[0]), f1) && Leads(EntryAt(mem, f1, path[1]), f2) && Leads(EntryAt(mem, f2, path[2]), f3)
    requires f3 != f2 && f3 != f1 && f3 != f0 && f2 != f1 && f2 != f0 && f1 != f0
    ensures Walk(Reused(mem, f0, f1, f2, f3, other, phys), f0, path) == Some(LeafOf(phys, KERNEL_FLAGS))
  {
    var mem' := Reused(mem, f0, f1, f2, f3, other, phys);
    assert EntryAt(mem', f3, path[3]) == LeafEntry(phys, KERNEL_FLAGS);
    assert EntryAt(mem', f2, path[2]) == EntryAt(mem, f2, path[2]);
    assert EntryAt(mem', f1, path[1]) == Widen(EntryAt(mem, f1, path[1]), KERNEL_FLAGS);
    assert EntryAt(mem', f0, path[0]) == Widen(EntryAt(mem, f0, path[0]), KERNEL_FLAGS);
    WalkFour(mem', f0, path, f1, f2, f3);
  }

  lemma PageReuses(m: Mapper, f1: nat, f2: nat, f3: nat, other: nat, phys: nat)
    requires Acceptable(other, phys, KERNEL_FLAGS) && m.pool != [] && m.pool[0] == f3 && f3 < IDENTITY_BYTES
    requires Leads(EntryAt(m.mem, m.root, Index(other, 0)), f1) && Leads(EntryAt(m.mem, f1, Index(other, 1)), f2)
    requires !EntryAt(m.mem, f2, Index(other, 2)).present && !EntryAt(m.mem, f2, Index(other, 2)).huge
    requires f3 != f2 && f3 != f1 && f3 != m.root && f2 != f1 && f2 != m.root && f1 != m.root
    ensures var (m', r) := MapPage(m, other, phys, KERNEL_FLAGS, KernelPage);
            r.Ok? && m'.root == m.root && m'.mem == Reused(m.mem, m.root, f1, f2, f3, Path(other), phys)
  {
    MapReuses(m, f1, f2, f3, Path(other), phys);
    WithRecordShape(MapFrom(m, m.root, Path(other), phys, KERNEL_FLAGS), other, phys, KERNEL_FLAGS, KernelPage);
  }

  /**
   A freed table is the next frame handed out: mapping the page 2 MiB further redirects a page that
   was not touched to the new frame.
   */
  lemma TableReused(m: Mapper, tree: Tree, virt: nat, other: nat, phys: nat)
    requires Neighbours(m.mem, m.root, tree, virt, other) && m.pool != [] && m.pool[0] == tree[Path(virt)[..3]]
    requires Acceptable(other, phys, KERNEL_FLAGS)
    ensures var (m', r) := MapPage(m, other, phys, KERNEL_FLAGS, KernelPage);
            r.Ok? && WalkAt(m', virt) == Some(LeafOf(phys, KERNEL_FLAGS))
  {
    var q := Path(virt);
    NeighbourPaths(m.mem, m.root, tree, virt, other);
    var (f1, f2, f3) := (tree[q[..1]], tree[q[..2]], tree[q[..3]]);
    PageReuses(m, f1, f2, f3, other, phys);
    ReusedWalk(m.mem, m.root, f1, f2, f3, q, Path(other), phys);
  }

  // ---- from boot

  const FIRST: nat := KERNEL_BASE
  const NEXT: nat := KERNEL_BASE + HUGE_PAGE

  /** Pages of the managed range with the same place in two different 2 MiB regions. */
  ghost predicate Twins(virt: nat, other: nat)
  {
    && Mappable(virt, KERNEL_FLAGS) && Mappable(other, KERNEL_FLAGS) && Aligned(virt) && Aligned(other)
    && Canonical(virt) && Canonical(other) && PageOf(virt) != PageOf(other) && virt >= IDENTITY_BYTES && other >= IDENTITY_BYTES
    && Index(virt, 0) == Index(other, 0) == 256 && Index(virt, 1) == Index(other, 1) && Index(virt, 2) != Index(other, 2)
    && Index(virt, 3) == Index(other, 3)
  }

  lemma FirstAndNext()
    ensures Twins(FIRST, NEXT)
  {
    assert FIRST / Span(0) % TABLE_ENTRIES == 256 && FIRST / Span(1) % TABLE_ENTRIES == 0 && FIRST / Span(2) % TABLE_ENTRIES == 0;
    assert NEXT / Span(0) % TABLE_ENTRIES == 256 && NEXT / Span(1) % TABLE_ENTRIES == 0 && NEXT / Span(2) % TABLE_ENTRIES == 1;
  }

  ghost predicate FirstMapped(p4: nat, p3: nat, p2: nat, pool: seq<nat>, virt: nat, m': Mapper, tree: Tree, k: nat)
  {
    && Inv(m', tree) && m'.root == p4 && k < |pool| && m'.pool == pool[1..][k..]
    && tree.Values == BootTree(p4, p3, p2).Values + Elements(pool[1..][..k]) && TreeEdited(BootTree(p4, p3, p2), tree, Path(virt))
    && Agrees(m', map[PageOf(virt) := LeafOf(pool[0], KERNEL_FLAGS)])
  }

  lemma BootMapped(p4: nat, p3: nat, p2: nat, pool: seq<nat>, virt: nat, other: nat) returns (tree: Tree, k: nat)
    requires BootFrames(p4, p3, p2, pool) && Supplies(pool, 4) && Twins(virt, other)
    ensures var (m', r) := MapNewPage(BootMapper(p4, p3, p2, pool), virt, KERNEL_FLAGS, KernelPage);
            r == Ok(pool[0]) && FirstMapped(p4, p3, p2, pool, virt, m', tree, k)
  {
    var (m, bt) := (BootMapper(p4, p3, p2, pool), BootTree(p4, p3, p2));
    BootInv(p4, p3, p2, pool);
    BootAgrees(p4, p3, p2, pool);
    BootMissing(m, bt, virt);
    tree, k := MapNewKeepsInv(m, bt, virt, KERNEL_FLAGS, KernelPage);
    ChangedAgrees(m, MapNewPage(m, virt, KERNEL_FLAGS, KernelPage).0, map[], virt, Some(LeafOf(pool[0], KERNEL_FLAGS)));
    NewPageEdits(m, bt, virt, KERNEL_FLAGS, KernelPage, tree);
  }

  lemma BootMissing(m: Mapper, bt: Tree, virt: nat)
    requires MapperOk(m, bt) && [256] !in bt && Index(virt, 0) == 256
    ensures TablesMissing(m.mem, m.root, Path(virt)) == 3
  {
    assert Path(virt)[..0] == [] && Path(virt)[0..] == Path(virt) && Path(virt)[..1] == [256];
    MissingIsIn(m.mem, m.root, bt, virt, 0);
  }

  lemma TwinPaths(virt: nat, other: nat)
    requires Twins(virt, other)
    ensures var (q, n) := (Path(virt), Path(other));
            && q[..3][..2] == q[..2] && n[..2] == q[..2] && n[..3] != q[..3] && |n[..3]| == 3 == |q[..3]|
            && n[..3][0] == 256 && q[..3][0] == 256 && n[..3] == Child(q[..2], Index(other, 2))
  {
    var (q, n) := (Path(virt), Path(other));
    assert n[..3][2] == Index(other, 2) && q[..3][2] == Index(virt, 2);
  }

  /** The last-level table of the first page came from the pool, and the other page has none. */
  lemma BootNeighbours(m: Mapper, tree: Tree, bt: Tree, virt: nat, other: nat, leaf: Leaf)
    requires Inv(m, tree) && TreeEdited(bt, tree, Path(virt)) && leaf.writable && !leaf.huge && Twins(virt, other)
    requires forall p :: p in bt ==> |p| <= 2
    requires WalkAt(m, virt) == Some(leaf) && WalkAt(m, other) == None
    ensures Neighbours(m.mem, m.root, tree, virt, other) && tree[Path(virt)[..3]] !in bt.Values
  {
    var (q, n) := (Path(virt), Path(other));
    WalkRoot(m.mem, m.root, tree, virt);
    WalkRoot(m.mem, m.root, tree, other);
    TwinPaths(virt, other);
    assert q[..3] in tree && q[..2] in tree;
    assert n[..3] !in tree;
    assert EntryOk(m.mem, tree, q[..2], Index(other, 2));
    forall p | p in bt ensures bt[p] != tree[q[..3]] { assert tree[p] == bt[p] && p != q[..3]; }
  }

  lemma TableDrawn(start: F.Allocator, pool: seq<nat>, k: nat, f: nat)
    requires FL.Inv(start) && F.Pool(start) == pool && k < |pool| && f in pool[1..][..k]
    ensures var a := FR.Reach(start, Draws(k + 1));
            FL.Inv(a) && F.Pool(a) == pool[1..][k..] && f in F.InUse(a) && |a.recycled| < F.MAX_RECYCLED
  {
    Drawn(start, k + 1);
    PoolParts(pool, k, f);
  }

  lemma PoolParts(pool: seq<nat>, k: nat, f: nat)
    requires k < |pool| && f in pool[1..][..k]
    ensures pool[1..][k..] == pool[k + 1..] && f in pool[..k + 1]
  {
    assert pool[..k + 1] == [pool[0]] + pool[1..][..k];
  }

  lemma FreedThenMapped(m: Mapper, tree: Tree, a: F.Allocator, virt: nat, other: nat, phys: nat)
    requires Neighbours(m.mem, m.root, tree, virt, other) && Twins(virt, other) && Aligned(phys) && phys < IDENTITY_BYTES
    requires FL.Inv(a) && F.Pool(a) == m.pool && tree[Path(virt)[..3]] in F.InUse(a) && |a.recycled| < F.MAX_RECYCLED
    ensures var f := tree[Path(virt)[..3]];
            var (m', r) := Call(m.(pool := F.Pool(F.FreeFrame(a, f).0)), OpMap(other, phys));
            F.FreeFrame(a, f).1 && r == Some(phys) && WalkAt(m', virt) == Some(LeafOf(phys, KERNEL_FLAGS))
  {
    var f := tree[Path(virt)[..3]];
    FL.FreeRefines(a, f);
    var m0 := m.(pool := F.Pool(F.FreeFrame(a, f).0));
    assert m0.pool[0] == f;
    TableReused(m0, tree, virt, other, phys);
    CallIsMap(m0, OpMap(other, phys));
  }

  /** The mapper after its first page. */
  function AfterFirst(p4: nat, p3: nat, p2: nat, pool: seq<nat>, virt: nat): Mapper
  {
    MapNewPage(BootMapper(p4, p3, p2, pool), virt, KERNEL_FLAGS, KernelPage).0
  }

  lemma FirstWalks(p4: nat, p3: nat, p2: nat, pool: seq<nat>, m: Mapper, tree: Tree, k: nat, virt: nat, other: nat)
    requires pool != [] && FirstMapped(p4, p3, p2, pool, virt, m, tree, k) && Twins(virt, other)
    ensures WalkAt(m, virt) == Some(LeafOf(pool[0], KERNEL_FLAGS)) && WalkAt(m, other) == None
    ensures Neighbours(m.mem, m.root, tree, virt, other) && tree[Path(virt)[..3]] in pool[1..][..k] && tree[Path(virt)[..3]] in tree.Values
  {
    FirstAgrees(m, virt, other, LeafOf(pool[0], KERNEL_FLAGS));
    BootShort(p4, p3, p2);
    BootNeighbours(m, tree, BootTree(p4, p3, p2), virt, other, LeafOf(pool[0], KERNEL_FLAGS));
    NewTable(tree, BootTree(p4, p3, p2), Elements(pool[1..][..k]), Path(virt)[..3]);
  }

  lemma BootShort(p4: nat, p3: nat, p2: nat)
    ensures forall p :: p in BootTree(p4, p3, p2) ==> |p| <= 2
  {
  }

  lemma FirstAgrees(m: Mapper, virt: nat, other: nat, leaf: Leaf)
    requires Agrees(m, map[PageOf(virt) := leaf]) && Twins(virt, other)
    ensures WalkAt(m, virt) == Some(leaf) && WalkAt(m, other) == None
  {
    var flat := map[PageOf(virt) := leaf];
    assert WalkAt(m, virt) == FlatAt(flat, virt) && WalkAt(m, other) == FlatAt(flat, other);
  }

  lemma NewTable(tree: Tree, bt: Tree, added: set<nat>, p: seq<nat>)
    requires tree.Values == bt.Values + added && p in tree && tree[p] !in bt.Values
    ensures tree[p] in added && tree[p] in tree.Values
  {
    assert tree[p] in tree.Values;
  }

  lemma LastTableFound(m: Mapper, tree: Tree, virt: nat)
    requires MapperOk(m, tree) && Path(virt)[..3] in tree
    ensures FindTable(m.mem, m.root, Path(virt)) == Ok(tree[Path(virt)[..3]])
  {
    assert Path(virt)[..0] == [] && Path(virt)[0..] == Path(virt);
    FindTableIs(m, tree, virt, 0);
  }

  lemma MisledFrom(start: F.Allocator, p4: nat, p3: nat, p2: nat, virt: nat, other: nat, phys: nat) returns (f: nat, ops: seq<FR.Op>)
    requires FL.Inv(start) && BootFrames(p4, p3, p2, F.Pool(start)) && Supplies(F.Pool(start), 4)
    requires Twins(virt, other) && Aligned(phys) && phys < IDENTITY_BYTES
    ensures var (m, a) := (AfterFirst(p4, p3, p2, F.Pool(start), virt), FR.Reach(start, ops));
            var (m', r) := Call(m.(pool := F.Pool(F.FreeFrame(a, f).0)), OpMap(other, phys));
            && F.Pool(a) == m.pool && FindTable(m.mem, m.root, Path(virt)) == Ok(f) && F.FreeFrame(a, f).1 && r == Some(phys)
            && WalkAt(m, virt) == Some(LeafOf(F.Pool(start)[0], KERNEL_FLAGS)) && WalkAt(m', virt) == Some(LeafOf(phys, KERNEL_FLAGS))
  {
    var tree, k := BootMapped(p4, p3, p2, F.Pool(start), virt, other);
    var m := AfterFirst(p4, p3, p2, F.Pool(start), virt);
    FirstWalks(p4, p3, p2, F.Pool(start), m, tree, k, virt, other);
    f := tree[Path(virt)[..3]];
    LastTableFound(m, tree, virt);
    ops := Draws(k + 1);
    TableDrawn(start, F.Pool(start), k, f);
    FreedThenMapped(m, tree, FR.Reach(start, ops), virt, other, phys);
  }

  /**
   From boot: the kernel maps its first page, the frame of that page's last-level table is freed,
   which the allocator accepts, and the page 2 MiB further is mapped to `phys`. The first page, which
   was not touched, now translates to `phys` as well.
   */
  lemma FreedTableMisleads(protectedUntil: nat, regions: seq<F.BootRegion>, p4: nat, p3: nat, p2: nat, phys: nat)
    returns (f: nat, ops: seq<FR.Op>)
    requires FR.BootOk(regions) && F.FrameAligned(protectedUntil)
    requires p4 != p3 && p3 != p2 && p4 != p2 && p4 < protectedUntil && p3 < protectedUntil && p2 < protectedUntil
    requires p4 < IDENTITY_BYTES && p3 < IDENTITY_BYTES && p2 < IDENTITY_BYTES
    requires Supplies(F.Pool(F.Boot(protectedUntil, regions)), 4) && Aligned(phys) && phys < IDENTITY_BYTES
    ensures var start := F.Boot(protectedUntil, regions);
            var (m, a) := (AfterFirst(p4, p3, p2, F.Pool(start), FIRST), FR.Reach(start, ops));
            var (m', r) := Call(m.(pool := F.Pool(F.FreeFrame(a, f).0)), OpMap(NEXT, phys));
            && F.Pool(a) == m.pool && FindTable(m.mem, m.root, Path(FIRST)) == Ok(f) && F.FreeFrame(a, f).1 && r == Some(phys)
            && WalkAt(m, FIRST) == Some(LeafOf(F.Pool(start)[0], KERNEL_FLAGS)) && WalkAt(m', FIRST) == Some(LeafOf(phys, KERNEL_FLAGS))
  {
    BootSupplies(protectedUntil, regions, p4, p3, p2);
    FR.BootInv(protectedUntil, regions);
    FirstAndNext();
    f, ops := MisledFrom(F.Boot(protectedUntil, regions), p4, p3, p2, FIRST, NEXT, phys);
  }

  // ---- writing a table

  /** The entry still leads to the same table and grants all that the table grants, but no more than the entry above it. */
  ghost predicate LeadsOn(mem: Memory, tree: Tree, p: seq<nat>, i: nat, e: Entry)
    requires p in tree
  {
    && Child(p, i) in tree && e.present && !e.huge && !e.noExecute && e.addr == tree[Child(p, i)] && Fits(mem, tree, p, e)
    && forall j :: 0 <= j < TABLE_ENTRIES ==> Under(EntryAt(mem, tree[Child(p, i)], j), e)
  }

  /** The entry still ends the walk with the same result. */
  ghost predicate EndsAlike(mem: Memory, tree: Tree, p: seq<nat>, i: nat, e: Entry)
    requires p in tree
  {
    var was := EntryAt(mem, tree[p], i);
    Child(p, i) !in tree && (e == was || (|p| == 2 && was.present && e.present && e.huge && HugeLeaf(e) == HugeLeaf(was)))
  }

  ghost predicate Harmless(mem: Memory, tree: Tree, p: seq<nat>, i: nat, e: Entry)
    requires p in tree
  {
    LeadsOn(mem, tree, p, i, e) || EndsAlike(mem, tree, p, i, e)
  }

  /** Writing one entry of a page table keeps the tables where they are and every translation exactly if it is harmless. */
  lemma WrittenOkIff(mem: Memory, root: nat, tree: Tree, p: seq<nat>, i: nat, e: Entry)
    requires TreeOk(mem, root, tree) && p in tree && i < TABLE_ENTRIES
    ensures var mem' := SetEntry(mem, tree[p], i, e);
            TreeOk(mem', root, tree) && SameLeaves(mem, tree, mem', tree) <==> Harmless(mem, tree, p, i, e)
  {
    var mem' := SetEntry(mem, tree[p], i, e);
    if Harmless(mem, tree, p, i, e) { HarmlessKeeps(mem, root, tree, p, i, e); }
    if TreeOk(mem', root, tree) && SameLeaves(mem, tree, mem', tree) { KeptHarmless(mem, root, tree, p, i, e); }
  }

  lemma HarmlessKeeps(mem: Memory, root: nat, tree: Tree, p: seq<nat>, i: nat, e: Entry)
    requires TreeOk(mem, root, tree) && p in tree && i < TABLE_ENTRIES && Harmless(mem, tree, p, i, e)
    ensures var mem' := SetEntry(mem, tree[p], i, e); TreeOk(mem', root, tree) && SameLeaves(mem, tree, mem', tree)
  {
    var mem' := SetEntry(mem, tree[p], i, e);
    assert EntryOk(mem, tree, p, i);
    forall q, j: nat | q in tree && j < TABLE_ENTRIES ensures EntryOk(mem', tree, q, j) && Monotone(mem', tree, q, j) {
      assert EntryOk(mem, tree, q, j);
      ReadBack(mem, tree[p], i, e, tree[q], j);
      HarmlessMonotone(mem, root, tree, p, i, e, q, j);
    }
    forall q | |q| == 4 ensures LeafAt(mem', tree, q) == LeafAt(mem, tree, q) {
      if q[..3] in tree { ReadBack(mem, tree[p], i, e, tree[q[..3]], q[3]); }
      if q[..2] in tree { ReadBack(mem, tree[p], i, e, tree[q[..2]], q[2]); }
    }
  }

  lemma HarmlessMonotone(mem: Memory, root: nat, tree: Tree, p: seq<nat>, i: nat, e: Entry, q: seq<nat>, j: nat)
    requires TreeOk(mem, root, tree) && p in tree && i < TABLE_ENTRIES && Harmless(mem, tree, p, i, e) && q in tree && j < TABLE_ENTRIES
    ensures Monotone(SetEntry(mem, tree[p], i, e), tree, q, j)
  {
    var (mem', c) := (SetEntry(mem, tree[p], i, e), Child(q, j));
    assert Monotone(mem, tree, q, j) && EntryOk(mem, tree, p, i);
    ChildParts(q, j);
    ReadBack(mem, tree[p], i, e, tree[q], j);
    if c in tree {
      forall k | 0 <= k < TABLE_ENTRIES ensures Under(EntryAt(mem', tree[c], k), EntryAt(mem', tree[q], j)) {
        ReadBack(mem, tree[p], i, e, tree[c], k);
      }
    }
  }

  lemma KeptHarmless(mem: Memory, root: nat, tree: Tree, p: seq<nat>, i: nat, e: Entry)
    requires TreeOk(mem, root, tree) && p in tree && i < TABLE_ENTRIES
    requires var mem' := SetEntry(mem, tree[p], i, e); TreeOk(mem', root, tree) && SameLeaves(mem, tree, mem', tree)
    ensures Harmless(mem, tree, p, i, e)
  {
    var mem' := SetEntry(mem, tree[p], i, e);
    ReadBack(mem, tree[p], i, e, tree[p], i);
    assert EntryOk(mem, tree, p, i) && EntryOk(mem', tree, p, i);
    if Child(p, i) in tree {
      StillLeads(mem, root, tree, p, i, e);
    } else {
      StillEnds(mem, root, tree, p, i, e);
    }
  }

  lemma StillLeads(mem: Memory, root: nat, tree: Tree, p: seq<nat>, i: nat, e: Entry)
    requires TreeOk(mem, root, tree) && p in tree && i < TABLE_ENTRIES && Child(p, i) in tree && TreeOk(SetEntry(mem, tree[p], i, e), root, tree)
    ensures LeadsOn(mem, tree, p, i, e)
  {
    var (mem', c) := (SetEntry(mem, tree[p], i, e), Child(p, i));
    ReadBack(mem, tree[p], i, e, tree[p], i);
    ChildParts(p, i);
    assert EntryOk(mem', tree, p, i) && Monotone(mem', tree, p, i);
    forall j | 0 <= j < TABLE_ENTRIES ensures Under(EntryAt(mem, tree[c], j), e) {
      ReadBack(mem, tree[p], i, e, tree[c], j);
      assert Under(EntryAt(mem', tree[c], j), EntryAt(mem', tree[p], i));
    }
    if p != [] {
      var (up, k) := (p[..|p| - 1], p[|p| - 1]);
      assert Child(up, k) == p;
      ReadBack(mem, tree[p], i, e, tree[up], k);
      assert Monotone(mem', tree, up, k);
    }
  }

  lemma StillEnds(mem: Memory, root: nat, tree: Tree, p: seq<nat>, i: nat, e: Entry)
    requires TreeOk(mem, root, tree) && p in tree && i < TABLE_ENTRIES && Child(p, i) !in tree
    requires EntryAt(SetEntry(mem, tree[p], i, e), tree[p], i) == e
    requires var mem' := SetEntry(mem, tree[p], i, e); EntryOk(mem', tree, p, i) && SameLeaves(mem, tree, mem', tree)
    ensures EndsAlike(mem, tree, p, i, e)
  {
    var mem' := SetEntry(mem, tree[p], i, e);
    assert EntryOk(mem, tree, p, i) && |p| <= 3;
    if |p| == 3 {
      var q := Child(p, i);
      assert q[..3] == p && q[3] == i;
      assert LeafAt(mem', tree, q) == LeafAt(mem, tree, q);
    } else if |p| == 2 {
      var q := Child(p, i) + [0];
      assert q[..3] == Child(p, i) && q[..2] == p && q[2] == i;
      assert LeafAt(mem', tree, q) == LeafAt(mem, tree, q);
    }
  }

  /** Not every write to a page table does harm, and not every one is harmless: both happen on the tables of boot. */
  lemma BootWrites(p4: nat, p3: nat, p2: nat, pool: seq<nat>)
    requires BootFrames(p4, p3, p2, pool)
    ensures var (mem, bt) := (BootMemory(p4, p3, p2), BootTree(p4, p3, p2));
            var wide := Entry(p3, true, true, true, false, false);
            && SetEntry(mem, p4, 0, wide) != mem && Harmless(mem, bt, [], 0, wide)
            && !Harmless(mem, bt, [0, 0], 0, NONE_ENTRY)
            && Walk(mem, p4, Path(0)).Some? && Walk(SetEntry(mem, p2, 0, NONE_ENTRY), p4, Path(0)).None?
  {
    var (mem, bt) := (BootMemory(p4, p3, p2), BootTree(p4, p3, p2));
    BootOk(p4, p3, p2, pool);
    var wide := Entry(p3, true, true, true, false, false);
    assert EntryAt(mem, p4, 0) == Entry(p3, true, true, false, false, false) && EntryAt(SetEntry(mem, p4, 0, wide), p4, 0) == wide;
    assert Child([], 0) == [0];
    BootCleared(p4, p3, p2, mem, bt);
  }

  lemma BootCleared(p4: nat, p3: nat, p2: nat, mem: Memory, bt: Tree)
    requires mem == BootMemory(p4, p3, p2) && bt == BootTree(p4, p3, p2) && TreeOk(mem, p4, bt)
    ensures !Harmless(mem, bt, [0, 0], 0, NONE_ENTRY)
    ensures Walk(mem, p4, Path(0)).Some? && Walk(SetEntry(mem, p2, 0, NONE_ENTRY), p4, Path(0)).None?
  {
    assert Path(0)[..2] == [0, 0] && |Path(0)[..3]| == 3 && Path(0)[..3] == Child([0, 0], 0);
    BootShort(p4, p3, p2);
    assert EntryAt(mem, p2, 0) == Entry(0, true, true, false, true, false);
    HugeCleared(mem, p4, bt, 0);
  }

  /** Clearing the entry of a huge page does harm: it is no longer mapped. */
  lemma HugeCleared(mem: Memory, root: nat, tree: Tree, va: nat)
    requires TreeOk(mem, root, tree) && Path(va)[..2] in tree && Path(va)[..3] !in tree
    requires EntryAt(mem, tree[Path(va)[..2]], Index(va, 2)).present && EntryAt(mem, tree[Path(va)[..2]], Index(va, 2)).huge
    ensures Walk(mem, root, Path(va)).Some? && Walk(SetEntry(mem, tree[Path(va)[..2]], Index(va, 2), NONE_ENTRY), root, Path(va)).None?
    ensures !Harmless(mem, tree, Path(va)[..2], Index(va, 2), NONE_ENTRY)
  {
    var (p, i) := (Path(va)[..2], Index(va, 2));
    PathStep(va, 2);
    var mem' := SetEntry(mem, tree[p], i, NONE_ENTRY);
    ClearedOk(mem, root, tree, p, i);
    ReadBack(mem, tree[p], i, NONE_ENTRY, tree[p], i);
    WalkRoot(mem, root, tree, va);
    WalkRoot(mem', root, tree, va);
  }

  /** Clearing the entry of a page keeps the tree. */
  lemma ClearedOk(mem: Memory, root: nat, tree: Tree, p: seq<nat>, i: nat)
    requires TreeOk(mem, root, tree) && p in tree && i < TABLE_ENTRIES && Child(p, i) !in tree
    ensures TreeOk(SetEntry(mem, tree[p], i, NONE_ENTRY), root, tree)
  {
    var mem' := SetEntry(mem, tree[p], i, NONE_ENTRY);
    forall q, j: nat | q in tree && j < TABLE_ENTRIES ensures EntryOk(mem', tree, q, j) && Monotone(mem', tree, q, j) {
      assert EntryOk(mem, tree, q, j);
      ReadBack(mem, tree[p], i, NONE_ENTRY, tree[q], j);
      MonotoneEdit(mem, root, tree, p, i, NONE_ENTRY, q, j);
    }
  }
}
