/** Mapping a user page: what changes, when it succeeds, and which errors cannot happen. */
module SpaceMap {
  import opened Common
  import opened PagingModel
  import opened PagingTree
  import opened PagingLaws
  import opened SpaceModel
  import opened SpaceFrames
  import opened SpaceTree
  import opened SpaceLaws
  import F = PhysmemModel
  import FL = PhysmemLaws

  /** New frames of the space came from the pool, and nothing came back to it. */
  ghost predicate FromPool(w: World, s: Space, w': World, s': Space)
  {
    && Elements(Own(s')) - Elements(Own(s)) <= Elements(F.Pool(w.frames))
    && Elements(F.Pool(w'.frames)) <= Elements(F.Pool(w.frames))
  }

  /** Only the contents of new frames changed. */
  ghost predicate WroteNew(w: World, s: Space, w': World, s': Space)
  {
    forall f :: f in Elements(Own(s)) || f !in Elements(Own(s')) ==> SameBytes(w, w', f)
  }

  /** Root and low table stay where they were and as they were. */
  ghost predicate SameTop(w: World, w': World, s: Space, s': Space)
  {
    && 2 <= |s.tables| <= |s'.tables|
    && forall i :: 0 <= i < 2 ==> s'.tables[i] == s.tables[i] && (s.tables[i] in w.mem ==> s.tables[i] in w'.mem && w'.mem[s.tables[i]] == w.mem[s.tables[i]])
  }

  /** What every attempt keeps, successful or not. */
  ghost predicate Kept(w: World, s: Space, w': World, s': Space)
  {
    && s'.root == s.root && WroteOwn(w, w', s') && w'.frames.protectedUntil == w.frames.protectedUntil
    && F.InUse(w.frames) <= F.InUse(w'.frames) && F.InUse(w'.frames) == F.InUse(w.frames) + Elements(Own(s'))
    && Elements(Own(s)) <= Elements(Own(s')) && (Elements(Own(s')) - Elements(Own(s))) !! F.InUse(w.frames)
    && FromPool(w, s, w', s') && WroteNew(w, s, w', s') && SameTop(w, w', s, s')
    && (Undoable(w, s) ==> Undoable(w', s'))
  }

  lemma TakenFromPool(a: F.Allocator, b: F.Allocator, f: nat)
    requires Taken(a, b, f)
    ensures f in Elements(F.Pool(a)) && Elements(F.Pool(b)) <= Elements(F.Pool(a))
    ensures |F.Pool(a)| > 0 && F.Pool(b) == F.Pool(a)[1..]
  {
    assert F.Pool(a)[0] == f;
    assert F.Pool(b) == F.Pool(a)[1..];
  }

  lemma OwnBound(s: Space, tree: Tree)
    requires SpineTables(s, tree) && |s.pages| <= MAX_PAGES
    ensures |s.tables| <= 11 && |s.tables| + |s.pages| < F.MAX_RECYCLED
  {
    BelowBound(UserTables(tree), 8);
  }

  /** Outstanding frames to account for: those of the space, if it started out undoable. */
  function Debt(w: World, s: Space): nat { if Undoable(w, s) then |s.tables| + |s.pages| else 0 }

  lemma SameFramesInv(w: World, s: Space, tree: Tree, w': World)
    requires SpaceInv(w, s, tree) && w'.mem == w.mem && w'.bytes == w.bytes && SameFrames(w.frames, w'.frames)
    requires Undoable(w, s) ==> Undoable(w', s)
    ensures SpaceInv(w', s, tree) && Kept(w, s, w', s)
  {
  }

  ghost predicate TableStep(w: World, s: Space, tree: Tree, w': World, s': Space, tree': Tree, r: Result<nat, SpaceError>, p: seq<nat>)
  {
    && SpaceInv(w', s', tree') && SameLeaves(w.mem, tree, w'.mem, tree') && Kept(w, s, w', s') && s'.pages == s.pages
    && (r.Ok? ==> p in tree' && r.value == tree'[p])
    && (r.Err? ==> r.error.NoFrames? || r.error.FrameNotReachable?)
    && (r.Ok? <==> p in tree || Supplies(F.Pool(w.frames), 1))
    && (r.Ok? ==> F.Pool(w'.frames) == if p in tree then F.Pool(w.frames) else F.Pool(w.frames)[1..])
    && (r.Ok? ==> tree' == if p in tree then tree else tree[p := r.value])
    && (r.Ok? && p !in tree ==> r.value in Own(s'))
    && (r.Err? ==> tree' == tree)
  }

  /** The last-level table on the way to an unmapped user page: found, or created from the pool. */
  lemma LastTableOk(w: World, s: Space, tree: Tree, virt: nat) returns (tree': Tree)
    requires SpaceInv(w, s, tree) && InUser(virt) && LeafAt(w.mem, tree, Path(virt)).None?
    ensures var (w', s', r) := LastTable(w, s, tree[USER_PATH], Index(virt, 2));
            TableStep(w, s, tree, w', s', tree', r, Path(virt)[..3])
  {
    UserIndices(virt);
    var k := Index(virt, 2);
    assert EntryOk(w.mem, tree, USER_PATH, k);
    assert Path(virt)[2] == k;
    tree' := tree;
    if !EntryAt(w.mem, tree[USER_PATH], k).present {
      RoomForTable(s, tree, k, 0);
      tree' := NewTableOk(w, s, tree, k);
    }
  }

  lemma NewTableOk(w: World, s: Space, tree: Tree, k: nat) returns (tree': Tree)
    requires SpaceInv(w, s, tree) && k < 8 && !EntryAt(w.mem, tree[USER_PATH], k).present
    requires Child(USER_PATH, k) !in tree && |s.tables| < MAX_TABLES
    ensures var (w', s', r) := LastTable(w, s, tree[USER_PATH], k);
            TableStep(w, s, tree, w', s', tree', r, Child(USER_PATH, k))
  {
    OwnBound(s, tree);
    TakeOk(w, Debt(w, s));
    TakeResult(w);
    LastTableShape(w, s, tree[USER_PATH], k);
    tree' := tree;
    var (w1, r) := TakeZeroed(w);
    if r.Ok? {
      tree' := TableAdded(w, s, tree, k, r.value, w1.frames);
      UserNotTop(w.mem, s, tree, USER_PATH);
      NewTableKept(w, s, k, tree[USER_PATH]);
    } else {
      SameFramesInv(w, s, tree, w1);
    }
  }

  lemma LastTableShape(w: World, s: Space, p2: nat, k: nat)
    requires !EntryAt(w.mem, p2, k).present && |s.tables| < MAX_TABLES
    ensures var (w1, r) := TakeZeroed(w);
            LastTable(w, s, p2, k)
            == if r.Err? then (w1, s, Err(r.error))
               else (w1.(mem := SetEntry(w1.mem, p2, k, OpenEntry(r.value))), s.(tables := s.tables + [r.value]), Ok(r.value))
  {
  }

  /** A frame is available exactly when the head of the pool exists and is reachable. */
  lemma TakeResult(w: World)
    requires FL.Inv(w.frames)
    ensures TakeZeroed(w).1.Ok? <==> Supplies(F.Pool(w.frames), 1)
    ensures TakeZeroed(w).1.Err? ==> TakeZeroed(w).1.error.NoFrames? || TakeZeroed(w).1.error.FrameNotReachable?
    ensures TakeZeroed(w).1.Ok? ==> TakeZeroed(w).1.value == F.Pool(w.frames)[0] && F.Pool(TakeZeroed(w).0.frames) == F.Pool(w.frames)[1..]
  {
    FL.AllocateRefines(w.frames);
    var (a, r) := F.AllocateFrame(w.frames);
    var pool := F.Pool(w.frames);
    if r.Some? { assert pool[0] == r.value && pool[1..] == F.Pool(a); }
  }

  lemma NewTableKept(w: World, s: Space, k: nat, p2: nat)
    requires FL.Inv(w.frames) && Elements(Own(s)) <= F.InUse(w.frames) && TakeZeroed(w).1.Ok?
    requires 2 <= |s.tables| && p2 != s.tables[0] && p2 != s.tables[1] && TakeZeroed(w).0.mem == w.mem[TakeZeroed(w).1.value := ZeroTable()]
    requires Taken(w.frames, TakeZeroed(w).0.frames, TakeZeroed(w).1.value)
    requires var w1 := TakeZeroed(w).0; w1.bytes == w.bytes[TakeZeroed(w).1.value := ZeroPage()]
    requires Undoable(w, s) ==> FL.CanUndo(TakeZeroed(w).0.frames, |s.tables| + |s.pages| + 1)
    requires var (w1, f) := (TakeZeroed(w).0, TakeZeroed(w).1.value);
             WroteOwn(w, w1.(mem := SetEntry(w1.mem, p2, k, OpenEntry(f))), s.(tables := s.tables + [f]))
    ensures var (w1, f) := (TakeZeroed(w).0, TakeZeroed(w).1.value);
            Kept(w, s, w1.(mem := SetEntry(w1.mem, p2, k, OpenEntry(f))), s.(tables := s.tables + [f]))
  {
    var f := TakeZeroed(w).1.value;
    OwnTable(s, f);
    TakenFromPool(w.frames, TakeZeroed(w).0.frames, f);
    TopApart(w, s, f);
    var w1 := TakeZeroed(w).0;
    TopStays(w, w1.(mem := SetEntry(w1.mem, p2, k, OpenEntry(f))), s, s.(tables := s.tables + [f]), f, p2, k, OpenEntry(f));
  }

  lemma TopApart(w: World, s: Space, f: nat)
    requires 2 <= |s.tables| && Elements(Own(s)) <= F.InUse(w.frames) && f !in F.InUse(w.frames)
    ensures f != s.tables[0] && f != s.tables[1]
  {
    assert Own(s)[0] == s.tables[0] && Own(s)[1] == s.tables[1];
    assert s.tables[0] in Elements(Own(s)) && s.tables[1] in Elements(Own(s));
  }

  /** One new frame and one entry of another table leave root and low table alone. */
  lemma TopStays(w: World, w': World, s: Space, s': Space, f: nat, table: nat, i: nat, e: Entry)
    requires 2 <= |s.tables| <= |s'.tables| && s'.tables[0] == s.tables[0] && s'.tables[1] == s.tables[1]
    requires f != s.tables[0] && f != s.tables[1] && table != s.tables[0] && table != s.tables[1]
    requires w'.mem == SetEntry(w.mem[f := ZeroTable()], table, i, e)
    ensures SameTop(w, w', s, s')
  {
  }

  /** Tables of the user area are neither root nor low table. */
  lemma UserNotTop(mem: Memory, s: Space, tree: Tree, p: seq<nat>)
    requires TreeOk(mem, s.root, tree) && SpineTables(s, tree) && p in tree && |p| >= 2
    ensures tree[p] != s.tables[0] && tree[p] != s.tables[1]
  {
    assert p != [] && p != [0];
  }

  lemma OwnTable(s: Space, f: nat)
    ensures Elements(Own(s.(tables := s.tables + [f]))) == Elements(Own(s)) + {f}
  {
    var s' := s.(tables := s.tables + [f]);
    assert PageFrames(s') == PageFrames(s);
    assert forall x :: x in Own(s') <==> x in s.tables || x == f || x in PageFrames(s);
    assert forall x :: x in Own(s) <==> x in s.tables || x in PageFrames(s);
  }

  // ---- the page itself

  ghost predicate PageStep(
    w: World, s: Space, tree: Tree, w': World, s': Space, virt: nat, writable: bool, executable: bool, r: Result<nat, SpaceError>)
  {
    && SpaceInv(w', s', tree) && Kept(w, s, w', s')
    && (r.Ok? <==> Supplies(F.Pool(w.frames), 1))
    && if r.Ok? then
         && s'.pages == s.pages + [MappedPage(virt, r.value, writable, executable)]
         && r.value in w'.bytes && w'.bytes[r.value] == ZeroPage() && r.value !in F.InUse(w.frames)
         && F.Pool(w'.frames) == F.Pool(w.frames)[1..]
         && (forall q :: |q| == 4 ==>
               LeafAt(w'.mem, tree, q)
               == if q == Path(virt) then Some(Leaf(r.value, false, true, writable, executable)) else LeafAt(w.mem, tree, q))
       else
         s'.pages == s.pages && SameLeaves(w.mem, tree, w'.mem, tree) && (r.error.NoFrames? || r.error.FrameNotReachable?)
  }

  lemma EnterOk(w: World, s: Space, tree: Tree, virt: nat, writable: bool, executable: bool)
    requires SpaceInv(w, s, tree) && Aligned(virt) && InUser(virt) && |s.pages| < MAX_PAGES
    requires Path(virt)[..3] in tree && LeafAt(w.mem, tree, Path(virt)).None?
    ensures var (w', s', r) := EnterUser(w, s, tree[Path(virt)[..3]], virt, writable, executable);
            PageStep(w, s, tree, w', s', virt, writable, executable, r)
  {
    OwnBound(s, tree);
    TakeOk(w, Debt(w, s));
    TakeResult(w);
    var (w1, r) := TakeZeroed(w);
    if r.Ok? {
      EnterTaken(w, s, tree, virt, writable, executable, r.value, w1.frames);
    } else {
      SameFramesInv(w, s, tree, w1);
    }
  }

  lemma EnterTaken(w: World, s: Space, tree: Tree, virt: nat, writable: bool, executable: bool, f: nat, frames: F.Allocator)
    requires SpaceInv(w, s, tree) && Aligned(virt) && InUser(virt) && |s.pages| < MAX_PAGES
    requires Path(virt)[..3] in tree && LeafAt(w.mem, tree, Path(virt)).None? && Taken(w.frames, frames, f)
    requires Supplies(F.Pool(w.frames), 1) && (Undoable(w, s) ==> FL.CanUndo(frames, |s.tables| + |s.pages| + 1))
    ensures var w' := World(SetEntry(w.mem[f := ZeroTable()], tree[Path(virt)[..3]], Index(virt, 3), LeafEntry(f, UserFlags(writable, executable))),
                            w.bytes[f := ZeroPage()], frames);
            var s' := s.(pages := s.pages + [MappedPage(virt, f, writable, executable)]);
            PageStep(w, s, tree, w', s', virt, writable, executable, Ok(f))
  {
    var e := LeafEntry(f, UserFlags(writable, executable));
    var s' := s.(pages := s.pages + [MappedPage(virt, f, writable, executable)]);
    EnterInv(w, s, tree, virt, writable, executable, f, frames);
    TakenFromPool(w.frames, frames, f);
    EnterTop(w, s, tree, Path(virt)[..3], f, Index(virt, 3), e, frames, s');
    EnterKept(w, s, tree, virt, f, e, frames, s');
  }

  lemma EnterInv(w: World, s: Space, tree: Tree, virt: nat, writable: bool, executable: bool, f: nat, frames: F.Allocator)
    requires SpaceInv(w, s, tree) && Aligned(virt) && InUser(virt) && |s.pages| < MAX_PAGES
    requires Path(virt)[..3] in tree && LeafAt(w.mem, tree, Path(virt)).None? && Taken(w.frames, frames, f)
    ensures var w' := World(SetEntry(w.mem[f := ZeroTable()], tree[Path(virt)[..3]], Index(virt, 3), LeafEntry(f, UserFlags(writable, executable))),
                            w.bytes[f := ZeroPage()], frames);
            && SpaceInv(w', s.(pages := s.pages + [MappedPage(virt, f, writable, executable)]), tree)
            && (forall q :: |q| == 4 ==>
               LeafAt(w'.mem, tree, q)
               == if q == Path(virt) then Some(Leaf(f, false, true, writable, executable)) else LeafAt(w.mem, tree, q))
  {
    var e := LeafEntry(f, UserFlags(writable, executable));
    var mem' := SetEntry(w.mem[f := ZeroTable()], tree[Path(virt)[..3]], Index(virt, 3), e);
    var s' := s.(pages := s.pages + [MappedPage(virt, f, writable, executable)]);
    UserIndices(virt);
    assert |Path(virt)| == 4;
    TakenPool(w.frames, frames, f, tree, Path(virt));
    EnterTree(w.mem, s, tree, virt, f, e);
    assert PageLeaf(e) == Leaf(f, false, true, writable, executable);
    EnterPages(w.mem, s, tree, mem', s', virt, f, writable, executable);
    EnterOwned(w, s, tree, frames, s', f);
    AssembleSpace(World(mem', w.bytes[f := ZeroPage()], frames), s', tree);
  }

  lemma AssembleSpace(w: World, s: Space, tree: Tree)
    requires s.active && s.root != 0 && Aligned(s.root) && FL.Inv(w.frames) && w.frames.protectedUntil > 0
    requires TreeOk(w.mem, s.root, tree) && PoolOk(F.Pool(w.frames), tree)
    requires Spine(w.mem, s, tree) && PagesOk(w.mem, s, tree) && Owned(w, s, tree)
    ensures SpaceInv(w, s, tree)
  {
  }

  lemma EnterOwned(w: World, s: Space, tree: Tree, frames: F.Allocator, s': Space, f: nat)
    requires Owned(w, s, tree) && Taken(w.frames, frames, f) && f !in tree.Values
    requires s'.tables == s.tables && |s'.pages| == |s.pages| + 1 && s'.pages[..|s.pages|] == s.pages && s'.pages[|s.pages|].frame == f
    ensures FL.Distinct(Own(s')) && Elements(Own(s')) <= F.InUse(frames)
    ensures forall k :: 0 <= k < |s'.pages| ==> s'.pages[k].frame !in tree.Values
  {
    OwnPage(s, s', f);
    OwnMore(w, frames, s, s', f);
    forall k | 0 <= k < |s.pages| ensures s'.pages[k] == s.pages[k] { assert s'.pages[k] == s'.pages[..|s.pages|][k]; }
  }

  lemma EnterTop(w: World, s: Space, tree: Tree, p: seq<nat>, f: nat, i: nat, e: Entry, frames: F.Allocator, s': Space)
    requires TreeOk(w.mem, s.root, tree) && SpineTables(s, tree) && p in tree && |p| == 3 && s'.tables == s.tables
    requires Elements(Own(s)) <= F.InUse(w.frames) && f !in F.InUse(w.frames)
    ensures SameTop(w, World(SetEntry(w.mem[f := ZeroTable()], tree[p], i, e), w.bytes[f := ZeroPage()], frames), s, s')
  {
    TopApart(w, s, f);
    UserNotTop(w.mem, s, tree, p);
    TopStays(w, World(SetEntry(w.mem[f := ZeroTable()], tree[p], i, e), w.bytes[f := ZeroPage()], frames), s, s', f, tree[p], i, e);
  }

  lemma EnterKept(w: World, s: Space, tree: Tree, virt: nat, f: nat, e: Entry, frames: F.Allocator, s': Space)
    requires SpineTables(s, tree) && InUser(virt) && Path(virt)[..3] in tree && Taken(w.frames, frames, f)
    requires SameTop(w, World(SetEntry(w.mem[f := ZeroTable()], tree[Path(virt)[..3]], Index(virt, 3), e), w.bytes[f := ZeroPage()], frames), s, s')
    requires Elements(Own(s)) <= F.InUse(w.frames) && s'.root == s.root
    requires s'.tables == s.tables && |s'.pages| == |s.pages| + 1 && s'.pages[..|s.pages|] == s.pages && s'.pages[|s.pages|].frame == f
    requires Undoable(w, s) ==> FL.CanUndo(frames, |s.tables| + |s.pages| + 1)
    ensures var w' := World(SetEntry(w.mem[f := ZeroTable()], tree[Path(virt)[..3]], Index(virt, 3), e), w.bytes[f := ZeroPage()], frames);
            Kept(w, s, w', s')
  {
    UserIndices(virt);
    OwnPage(s, s', f);
    TakenFromPool(w.frames, frames, f);
    EnterWrote(w, s, tree, Path(virt)[..3], f, Index(virt, 3), e, s');
  }

  lemma OwnPage(s: Space, s': Space, f: nat)
    requires s'.tables == s.tables && |s'.pages| == |s.pages| + 1 && s'.pages[..|s.pages|] == s.pages && s'.pages[|s.pages|].frame == f
    ensures PageFrames(s') == PageFrames(s) + [f] && Elements(Own(s')) == Elements(Own(s)) + {f}
  {
    forall k | 0 <= k < |s.pages| ensures PageFrames(s')[k] == PageFrames(s)[k] { assert s'.pages[k] == s'.pages[..|s.pages|][k]; }
    assert PageFrames(s') == PageFrames(s) + [f];
    assert Own(s') == Own(s) + [f];
    FL.ElementsSnoc(Own(s), f);
  }

  lemma EnterTree(mem: Memory, s: Space, tree: Tree, virt: nat, f: nat, e: Entry)
    requires TreeOk(mem, s.root, tree) && Spine(mem, s, tree) && InUser(virt) && Path(virt)[..3] in tree && f !in tree.Values
    requires e.present && !e.huge
    ensures var mem' := SetEntry(mem[f := ZeroTable()], tree[Path(virt)[..3]], Index(virt, 3), e);
            && TreeOk(mem', s.root, tree) && Spine(mem', s, tree)
            && forall q :: |q| == 4 ==> LeafAt(mem', tree, q) == if q == Path(virt) then Some(PageLeaf(e)) else LeafAt(mem, tree, q)
  {
    var (p, i, m0) := (Path(virt)[..3], Index(virt, 3), mem[f := ZeroTable()]);
    UserIndices(virt);
    FreshOk(mem, s.root, tree, f);
    UserCovers(mem, s, tree);
    assert SpineOpen(m0, tree);
    UserCovers(m0, s, tree);
    assert Covers(m0, tree, p, Flags(true, true, false));
    LeafOk(m0, s.root, tree, p, i, e);
    EnterSpine(m0, s, tree, p, i, e);
  }

  lemma EnterSpine(mem: Memory, s: Space, tree: Tree, p: seq<nat>, i: nat, e: Entry)
    requires TreeOk(mem, s.root, tree) && SpineOpen(mem, tree) && p in tree && |p| == 3 && i < TABLE_ENTRIES
    ensures SpineOpen(SetEntry(mem, tree[p], i, e), tree)
  {
    var mem' := SetEntry(mem, tree[p], i, e);
    assert |USER_PATH| == 2;
    ReadBack(mem, tree[p], i, e, tree[[]], 0);
    ReadBack(mem, tree[p], i, e, tree[[0]], USER_P3_INDEX);
    forall k: nat | Child(USER_PATH, k) in tree ensures Opens(EntryAt(mem', tree[USER_PATH], k)) { ReadBack(mem, tree[p], i, e, tree[USER_PATH], k); }
  }

  lemma EnterPages(
    mem: Memory, s: Space, tree: Tree, mem': Memory, s': Space, virt: nat, f: nat, writable: bool, executable: bool)
    requires PagesOk(mem, s, tree) && |s.pages| < MAX_PAGES && Aligned(virt) && InUser(virt) && LeafAt(mem, tree, Path(virt)).None?
    requires s'.pages == s.pages + [MappedPage(virt, f, writable, executable)]
    requires forall q :: |q| == 4 ==>
               LeafAt(mem', tree, q) == if q == Path(virt) then Some(Leaf(f, false, true, writable, executable)) else LeafAt(mem, tree, q)
    ensures PagesOk(mem', s', tree)
  {
    UserIndices(virt);
    forall k | 0 <= k < |s.pages| ensures s.pages[k].virt != virt && Path(s.pages[k].virt) != Path(virt) {}
    forall va | Canonical(va) && UserPath(Path(va)) && LeafAt(mem', tree, Path(va)).Some? ensures Listed(s'.pages, PageOf(va)) {
      PathIsPage(va, virt);
      if Path(va) == Path(virt) {
        assert s'.pages[|s.pages|].virt == virt;
      } else {
        var k :| 0 <= k < |s.pages| && PageOf(s.pages[k].virt) == PageOf(va);
        assert s'.pages[k] == s.pages[k];
      }
    }
  }

  lemma EnterWrote(w: World, s: Space, tree: Tree, p: seq<nat>, f: nat, i: nat, e: Entry, s': Space)
    requires SpineTables(s, tree) && p in tree && p != [] && p == Child(USER_PATH, p[|p| - 1])
    requires s'.tables == s.tables && PageFrames(s') == PageFrames(s) + [f]
    ensures var mem' := SetEntry(w.mem[f := ZeroTable()], tree[p], i, e);
            forall g :: g in w.mem && g !in Own(s') ==> g in mem' && mem'[g] == w.mem[g]
  {
    assert tree[p] in s.tables;
    assert tree[p] in Own(s');
    assert PageFrames(s')[|PageFrames(s)|] == f;
    assert f in Own(s');
  }
}
