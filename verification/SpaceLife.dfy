/** Creating and destroying address spaces: isolation at birth, no frame left behind at the end. */
module SpaceLife {
  import opened Common
  import opened PagingModel
  import opened PagingTree
  import opened PagingLaws
  import opened SpaceModel
  import opened SpaceFrames
  import opened SpaceTree
  import opened SpaceLaws
  import opened SpaceMap
  import opened SpaceUser
  import F = PhysmemModel
  import FL = PhysmemLaws

  // ---- the first tables

  /** Frames `got` were taken one after the other from the head of the pool and can be returned. */
  ghost predicate GotFrames(a: F.Allocator, b: F.Allocator, got: seq<nat>)
  {
    && FL.Inv(b) && b.protectedUntil == a.protectedUntil && FL.CanUndo(b, |got|)
    && FL.Distinct(got) && F.InUse(b) == F.InUse(a) + Elements(got) && F.InUse(a) !! Elements(got)
    && |got| <= |F.Pool(a)| && got == F.Pool(a)[..|got|] && F.Pool(b) == F.Pool(a)[|got|..]
    && (forall k :: 0 <= k < |got| ==> got[k] < IDENTITY_BYTES && Aligned(got[k]) && a.protectedUntil <= got[k])
  }

  /** They were cleared, and nothing else in memory changed. */
  ghost predicate GotMemory(w: World, w': World, got: seq<nat>)
  {
    && (forall k :: 0 <= k < |got| ==> got[k] in w'.mem && w'.mem[got[k]] == ZeroTable())
    && (forall f :: f in w.mem && f !in got ==> f in w'.mem && w'.mem[f] == w.mem[f])
    && (forall f :: f in w.bytes && f !in got ==> f in w'.bytes && w'.bytes[f] == w.bytes[f])
  }

  ghost predicate Cleared(w: World, w': World, got: seq<nat>) { GotFrames(w.frames, w'.frames, got) && GotMemory(w, w', got) }

  lemma GotFramesMore(a: F.Allocator, b: F.Allocator, got: seq<nat>, c: F.Allocator, f: nat)
    requires GotFrames(a, b, got) && Taken(b, c, f) && FL.CanUndo(c, |got| + 1)
    ensures GotFrames(a, c, got + [f])
  {
    SetNext(F.InUse(a), F.InUse(b), F.InUse(c), got, f);
    PoolNext(F.Pool(a), F.Pool(b), F.Pool(c), got, f);
    var now := got + [f];
    forall k | 0 <= k < |now| ensures now[k] < IDENTITY_BYTES && Aligned(now[k]) && a.protectedUntil <= now[k] {
      assert now[k] == if k < |got| then got[k] else f;
    }
  }

  lemma SetNext(a: set<nat>, b: set<nat>, c: set<nat>, got: seq<nat>, f: nat)
    requires FL.Distinct(got) && b == a + Elements(got) && a !! Elements(got) && f !in b && c == b + {f}
    ensures FL.Distinct(got + [f]) && c == a + Elements(got + [f]) && a !! Elements(got + [f])
  {
    FL.ElementsSnoc(got, f);
    SnocDistinct(got, f);
  }

  lemma SnocDistinct(s: seq<nat>, f: nat)
    requires FL.Distinct(s) && f !in Elements(s)
    ensures FL.Distinct(s + [f])
  {
    forall i | 0 <= i < |s| ensures s[i] != f { assert s[i] in Elements(s); }
  }

  lemma PoolNext(p: seq<nat>, q: seq<nat>, r: seq<nat>, got: seq<nat>, f: nat)
    requires |got| <= |p| && got == p[..|got|] && q == p[|got|..] && q == [f] + r
    ensures |got| + 1 <= |p| && got + [f] == p[..|got| + 1] && r == p[|got| + 1..]
  {
    assert q[0] == p[|got|] && q[1..] == r && q[1..] == p[|got| + 1..];
  }

  lemma ClearedMore(w: World, w1: World, got: seq<nat>)
    requires Cleared(w, w1, got) && |got| < F.MAX_RECYCLED
    ensures var (w2, r) := TakeZeroed(w1);
            && (r.Ok? ==> Cleared(w, w2, got + [r.value]))
            && (r.Err? ==> Cleared(w, w2, got))
  {
    TakeOk(w1, |got|);
    var (w2, r) := TakeZeroed(w1);
    if r.Ok? {
      GotFramesMore(w.frames, w1.frames, got, w2.frames, r.value);
      GotMemoryMore(w, w1, got, w2, r.value);
    } else {
      SameFramesGot(w.frames, w1.frames, got, w2.frames);
    }
  }

  lemma SameFramesGot(a: F.Allocator, b: F.Allocator, got: seq<nat>, c: F.Allocator)
    requires GotFrames(a, b, got) && SameFrames(b, c) && FL.CanUndo(c, |got|)
    ensures GotFrames(a, c, got)
  {
  }

  lemma GotMemoryMore(w: World, w1: World, got: seq<nat>, w2: World, f: nat)
    requires GotMemory(w, w1, got) && f !in got && w2.mem == w1.mem[f := ZeroTable()] && w2.bytes == w1.bytes[f := ZeroPage()]
    ensures GotMemory(w, w2, got + [f])
  {
    var now := got + [f];
    forall k | 0 <= k < |now| ensures now[k] in w2.mem && w2.mem[now[k]] == ZeroTable() {
      assert now[k] == if k < |got| then got[k] else f;
    }
    assert now[|got|] == f;
    assert forall g :: g !in now ==> g !in got && g != f;
  }

  ghost predicate TableAdded(w: World, w1: World, s: Space, w2: World, s2: Space, r: Result<nat, SpaceError>)
  {
    && Cleared(w, w2, s2.tables) && s2.pages == s.pages
    && (r.Ok? <==> Supplies(F.Pool(w1.frames), 1))
    && (if r.Ok? then |s2.tables| == |s.tables| + 1 else s2 == s && (r.error.NoFrames? || r.error.FrameNotReachable?))
  }

  lemma AddTableOk(w: World, w1: World, s: Space)
    requires Cleared(w, w1, s.tables) && |s.tables| < MAX_TABLES
    ensures TableAdded(w, w1, s, AddTable(w1, s).0, AddTable(w1, s).1, AddTable(w1, s).2)
  {
    ClearedMore(w, w1, s.tables);
    TakeResult(w1);
  }

  lemma SuppliesThree(p: seq<nat>)
    ensures Supplies(p, 3) <==>
              Supplies(p, 1) && Supplies(p[1..], 1) && |p| >= 2 && Supplies(p[2..], 1)
  {
    if |p| >= 3 { assert p[1..][0] == p[1] && p[2..][0] == p[2]; }
  }

  lemma AddThreeOk(w: World)
    requires FL.Inv(w.frames)
    ensures var (w1, s, failed) := AddThree(w);
            && Cleared(w, w1, s.tables) && s.pages == []
            && (failed.None? <==> Supplies(F.Pool(w.frames), 3)) && (failed.None? ==> |s.tables| == 3)
            && (failed.Some? ==> failed.value.NoFrames? || failed.value.FrameNotReachable?)
  {
    var pool := F.Pool(w.frames);
    assert pool[0..] == pool;
    SuppliesThree(pool);
    NothingTaken(w);
    AddTableOk(w, w, NO_SPACE);
    var (w1, s1, r1) := AddTable(w, NO_SPACE);
    if r1.Ok? {
      AddTableOk(w, w1, s1);
      var (w2, s2, r2) := AddTable(w1, s1);
      if r2.Ok? { AddTableOk(w, w2, s2); }
    }
  }

  lemma NothingTaken(w: World)
    requires FL.Inv(w.frames)
    ensures Cleared(w, w, [])
  {
    var pool := F.Pool(w.frames);
    assert pool[..0] == [] && pool[0..] == pool;
  }

  lemma ReversedDistinct(s: seq<nat>)
    requires FL.Distinct(s)
    ensures FL.Distinct(F.Reversed(s)) && Elements(F.Reversed(s)) == Elements(s)
  {
    FL.ReversedIn(s);
  }

  /** Giving back what was just taken restores the set of frames in use. */
  lemma ReleaseOk(w: World, w1: World, s: Space)
    requires Cleared(w, w1, s.tables)
    ensures var w' := Release(w1, s);
            && FL.Inv(w'.frames) && F.InUse(w'.frames) == F.InUse(w.frames) && w'.frames.protectedUntil == w.frames.protectedUntil
            && Elements(F.Pool(w'.frames)) == Elements(F.Pool(w.frames))
            && w'.mem == w1.mem && w'.bytes == w1.bytes
  {
    ReversedDistinct(s.tables);
    var list := F.Reversed(s.tables);
    FreeEachAll(w1.frames, list);
    FreeEachExact(w1.frames, list);
    var back := Release(w1, s).frames;
    MovedAll(F.InUse(w1.frames), F.InUse(back), F.Pool(w1.frames), F.Pool(back), list);
    PoolBack(F.Pool(w.frames), s.tables, F.Pool(w1.frames), F.Pool(Release(w1, s).frames));
  }

  lemma PoolBack(pool: seq<nat>, got: seq<nat>, rest: seq<nat>, back: seq<nat>)
    requires |got| <= |pool| && got == pool[..|got|] && rest == pool[|got|..] && back == F.Reversed(F.Reversed(got)) + rest
    ensures Elements(back) == Elements(pool)
  {
    assert F.Reversed(F.Reversed(got)) == got;
    assert pool == got + rest;
  }

  // ---- creation

  predicate UserGigabyte(va: nat) { IDENTITY_BYTES <= va < 2 * IDENTITY_BYTES }

  lemma GigabytePath(va: nat)
    requires Canonical(va)
    ensures UserPath(Path(va)) <==> UserGigabyte(va)
  {
    PathNumber(va);
    CanonicalPage(va);
  }

  /** The kernel's own tables are as they were. */
  ghost predicate KernelSame(w: World, w': World, boot: nat, bt: Tree)
  {
    TreeOk(w'.mem, boot, bt) && forall va :: Walk(w'.mem, boot, Path(va)) == Walk(w.mem, boot, Path(va))
  }

  lemma KernelKept(w: World, w': World, boot: nat, bt: Tree)
    requires TreeOk(w.mem, boot, bt) && forall p :: p in bt ==> bt[p] in w'.mem && w'.mem[bt[p]] == w.mem[bt[p]]
    ensures KernelSame(w, w', boot, bt)
  {
    OutsideOk(w.mem, w'.mem, boot, bt);
    forall va ensures Walk(w'.mem, boot, Path(va)) == Walk(w.mem, boot, Path(va)) {
      WalkRoot(w.mem, boot, bt, va);
      WalkRoot(w'.mem, boot, bt, va);
    }
  }

  lemma PoolPrefix(pool: seq<nat>, bt: Tree, got: seq<nat>, rest: seq<nat>)
    requires PoolOk(pool, bt) && |got| <= |pool| && got == pool[..|got|] && rest == pool[|got|..]
    ensures forall k :: 0 <= k < |got| ==> got[k] !in bt.Values
    ensures forall p :: p in bt ==> bt[p] !in got
    ensures PoolOk(rest, bt)
  {
    forall k | 0 <= k < |got| ensures got[k] !in bt.Values { assert got[k] == pool[k]; }
    forall p | p in bt ensures bt[p] !in got { assert bt[p] in bt.Values; }
    forall k | 0 <= k < |rest| ensures rest[k] == pool[|got| + k] {}
  }

  lemma ClearedKernel(w: World, w1: World, boot: nat, bt: Tree, got: seq<nat>)
    requires TreeOk(w.mem, boot, bt) && PoolOk(F.Pool(w.frames), bt) && Cleared(w, w1, got)
    ensures forall p :: p in bt ==> bt[p] in w1.mem && w1.mem[bt[p]] == w.mem[bt[p]] && bt[p] !in got
    ensures forall k :: 0 <= k < |got| ==> got[k] !in bt.Values
    ensures PoolOk(F.Pool(w1.frames), bt)
  {
    PoolPrefix(F.Pool(w.frames), bt, got, F.Pool(w1.frames));
    forall p | p in bt ensures bt[p] in w.mem {}
  }

  /** A failed creation returns every frame and leaves the kernel's tables alone. */
  lemma CreateFailed(w: World, w1: World, s: Space, boot: nat, bt: Tree)
    requires FL.Inv(w.frames) && TreeOk(w.mem, boot, bt) && PoolOk(F.Pool(w.frames), bt) && Cleared(w, w1, s.tables)
    ensures var w' := Release(w1, s);
            FL.Inv(w'.frames) && F.InUse(w'.frames) == F.InUse(w.frames) && KernelSame(w, w', boot, bt)
  {
    ReleaseOk(w, w1, s);
    ClearedKernel(w, w1, boot, bt, s.tables);
    KernelKept(w, Release(w1, s), boot, bt);
  }

  ghost predicate Creatable(w: World, boot: nat, bt: Tree)
  {
    && FL.Inv(w.frames) && w.frames.protectedUntil > 0
    && TreeOk(w.mem, boot, bt) && PoolOk(F.Pool(w.frames), bt) && [0] in bt
  }

  lemma CreatedSetup(w: World, w1: World, boot: nat, bt: Tree, got: seq<nat>)
    requires Creatable(w, boot, bt) && Cleared(w, w1, got) && |got| == 3
    ensures Setup(w1.mem, boot, bt, got[0], got[1], got[2]) && EntryAt(w1.mem, boot, 0).addr < IDENTITY_BYTES
  {
    ClearedKernel(w, w1, boot, bt, got);
    OutsideOk(w.mem, w1.mem, boot, bt);
    LowTable(w1.mem, boot, bt);
    ThreeNew(got, bt);
  }

  lemma LowTable(mem: Memory, boot: nat, bt: Tree)
    requires TreeOk(mem, boot, bt) && [0] in bt
    ensures EntryAt(mem, boot, 0).addr == bt[[0]] < IDENTITY_BYTES
  {
    assert EntryOk(mem, bt, [], 0) && Child([], 0) == [0];
  }

  lemma ThreeNew(got: seq<nat>, bt: Tree)
    requires |got| == 3 && FL.Distinct(got) && forall k :: 0 <= k < |got| ==> got[k] < IDENTITY_BYTES && got[k] !in bt.Values
    ensures NewFrames(bt, got[0], got[1], got[2])
  {
  }

  lemma CreatedKernel(w: World, w1: World, boot: nat, bt: Tree, got: seq<nat>)
    requires Creatable(w, boot, bt) && Cleared(w, w1, got) && |got| == 3
    ensures KernelSame(w, w1.(mem := FillTables(w1.mem, boot, got[0], got[1], got[2])), boot, bt)
  {
    ClearedKernel(w, w1, boot, bt, got);
    var w' := w1.(mem := FillTables(w1.mem, boot, got[0], got[1], got[2]));
    forall p | p in bt ensures bt[p] in w'.mem && w'.mem[bt[p]] == w.mem[bt[p]] {
      assert bt[p] !in got && got[0] in got && got[1] in got;
    }
    KernelKept(w, w', boot, bt);
  }

  /** The three new tables make a space. */
  lemma CreatedInv(w1: World, boot: nat, bt: Tree, got: seq<nat>)
    requires |got| == 3 && got[0] != 0 && Aligned(got[0]) && FL.Distinct(got) && Elements(got) <= F.InUse(w1.frames)
    requires FL.Inv(w1.frames) && w1.frames.protectedUntil > 0 && Setup(w1.mem, boot, bt, got[0], got[1], got[2])
    requires PoolOk(F.Pool(w1.frames), TreeOf(bt, got[0], got[1], got[2]))
    ensures SpaceInv(w1.(mem := FillTables(w1.mem, boot, got[0], got[1], got[2])), Space(got[0], got, [], true), TreeOf(bt, got[0], got[1], got[2]))
  {
    var (root, low, user, s) := (got[0], got[1], got[2], Space(got[0], got, [], true));
    assert got == [root, low, user];
    FilledTree(w1.mem, boot, bt, root, low, user);
    CreatedSpine(w1.mem, boot, bt, root, low, user, s);
    CreatedPages(w1.mem, boot, bt, root, low, user, s);
    assert PageFrames(s) == [] && Own(s) == got;
    AssembleSpace(w1.(mem := FillTables(w1.mem, boot, root, low, user)), s, TreeOf(bt, root, low, user));
  }

  lemma CreatedSpine(mem: Memory, boot: nat, bt: Tree, root: nat, low: nat, user: nat, s: Space)
    requires Setup(mem, boot, bt, root, low, user) && s.tables == [root, low, user]
    ensures Spine(FillTables(mem, boot, root, low, user), s, TreeOf(bt, root, low, user))
  {
    var t := TreeOf(bt, root, low, user);
    FilledEntries(mem, boot, bt, root, low, user, [], 0);
    FilledEntries(mem, boot, bt, root, low, user, [0], USER_P3_INDEX);
    assert s.tables[2] == user;
    forall k: nat ensures Child(USER_PATH, k) !in t { FilledPaths(bt, root, low, user, USER_PATH, k); }
    assert UserTables(t) == {};
  }

  lemma CreatedPages(mem: Memory, boot: nat, bt: Tree, root: nat, low: nat, user: nat, s: Space)
    requires Setup(mem, boot, bt, root, low, user) && s.pages == []
    ensures PagesOk(FillTables(mem, boot, root, low, user), s, TreeOf(bt, root, low, user))
  {
    forall va ensures UserPath(Path(va)) ==> LeafAt(FillTables(mem, boot, root, low, user), TreeOf(bt, root, low, user), Path(va)).None? {
      FilledLeaf(mem, boot, bt, root, low, user, Path(va));
    }
  }

  lemma CreatedPool(pool: seq<nat>, rest: seq<nat>, bt: Tree, got: seq<nat>)
    requires PoolOk(pool, bt) && |got| == 3 <= |pool| && got == pool[..3] && rest == pool[3..]
    ensures PoolOk(rest, TreeOf(bt, got[0], got[1], got[2]))
  {
    var t := TreeOf(bt, got[0], got[1], got[2]);
    forall k | 0 <= k < |rest| ensures rest[k] == pool[k + 3] && rest[k] !in t.Values {
      assert got[0] == pool[0] && got[1] == pool[1] && got[2] == pool[2];
      forall p | p in t ensures t[p] != rest[k] { TreeOfAt(bt, got[0], got[1], got[2], p); }
    }
  }

  /** A new space sees what the kernel sees, except that the user gigabyte is empty. */
  lemma CreatedWalks(w: World, w1: World, boot: nat, bt: Tree, got: seq<nat>)
    requires Creatable(w, boot, bt) && Cleared(w, w1, got) && |got| == 3 && Setup(w1.mem, boot, bt, got[0], got[1], got[2])
    ensures var w' := w1.(mem := FillTables(w1.mem, boot, got[0], got[1], got[2]));
            forall va :: Canonical(va) ==>
              Walk(w'.mem, got[0], Path(va)) == if UserGigabyte(va) then None else Walk(w.mem, boot, Path(va))
  {
    ClearedKernel(w, w1, boot, bt, got);
    OutsideOk(w.mem, w1.mem, boot, bt);
    FilledWalks(w.mem, w1.mem, boot, bt, got[0], got[1], got[2]);
  }

  lemma FilledWalks(mem: Memory, mem1: Memory, boot: nat, bt: Tree, root: nat, low: nat, user: nat)
    requires TreeOk(mem, boot, bt) && Setup(mem1, boot, bt, root, low, user) && SameLeaves(mem, bt, mem1, bt)
    ensures var mem' := FillTables(mem1, boot, root, low, user);
            forall va :: Canonical(va) ==> Walk(mem', root, Path(va)) == if UserGigabyte(va) then None else Walk(mem, boot, Path(va))
  {
    var mem' := FillTables(mem1, boot, root, low, user);
    FilledTree(mem1, boot, bt, root, low, user);
    forall va | Canonical(va) ensures Walk(mem', root, Path(va)) == if UserGigabyte(va) then None else Walk(mem, boot, Path(va)) {
      WalkRoot(mem', root, TreeOf(bt, root, low, user), va);
      WalkRoot(mem, boot, bt, va);
      FilledLeaf(mem1, boot, bt, root, low, user, Path(va));
      GigabytePath(va);
    }
  }

  /** What a creation attempt leaves behind. */
  ghost predicate CreateEffect(w: World, w': World, boot: nat, bt: Tree, tree: Tree, r: Result<Space, SpaceError>)
  {
    && KernelSame(w, w', boot, bt) && FL.Inv(w'.frames) && w'.frames.protectedUntil == w.frames.protectedUntil
    && WroteOnly(w, w', Elements(F.Pool(w.frames)))
    && match r
       case Ok(s) =>
         && NewSpace(F.Pool(w.frames), F.Pool(w'.frames), s, bt, tree)
         && SpaceInv(w', s, tree) && Undoable(w', s) && s.pages == [] && s.root in F.Pool(w.frames)
         && F.InUse(w'.frames) == F.InUse(w.frames) + Elements(Own(s)) && F.InUse(w.frames) !! Elements(Own(s))
         && (forall va :: Canonical(va) ==> UserWalk(w', s, va) == if UserGigabyte(va) then None else Walk(w.mem, boot, Path(va)))
       case Err(e) =>
         && F.InUse(w'.frames) == F.InUse(w.frames) && Elements(F.Pool(w'.frames)) == Elements(F.Pool(w.frames))
         && (e.NoFrames? || e.FrameNotReachable?)
  }

  /** The new space owns the first three frames of the pool and has no user table yet; its other tables are the kernel's. */
  ghost predicate NewSpace(pool: seq<nat>, pool': seq<nat>, s: Space, bt: Tree, tree: Tree)
  {
    && 3 <= |pool| && Own(s) == pool[..3] && pool' == pool[3..]
    && UserTables(tree) == {} && tree.Values <= bt.Values + Elements(Own(s))
  }

  lemma MadeSpace(w: World, w1: World, bt: Tree, got: seq<nat>, s: Space)
    requires GotFrames(w.frames, w1.frames, got) && |got| == 3 && s == Space(got[0], got, [], true)
    ensures NewSpace(F.Pool(w.frames), F.Pool(w1.frames), s, bt, TreeOf(bt, got[0], got[1], got[2]))
  {
    var t := TreeOf(bt, got[0], got[1], got[2]);
    assert PageFrames(s) == [] && Own(s) == got;
    forall k: nat ensures Child(USER_PATH, k) !in t { FilledPaths(bt, got[0], got[1], got[2], USER_PATH, k); }
    forall v | v in t.Values ensures v in bt.Values || v in got {
      var p :| p in t && t[p] == v;
      TreeOfAt(bt, got[0], got[1], got[2], p);
    }
  }

  /** Only frames that were free have been written. */
  lemma MadeWrites(w: World, w1: World, boot: nat, got: seq<nat>)
    requires GotMemory(w, w1, got) && |got| == 3 <= |F.Pool(w.frames)| && got == F.Pool(w.frames)[..3]
    ensures WroteOnly(w, w1.(mem := FillTables(w1.mem, boot, got[0], got[1], got[2])), Elements(F.Pool(w.frames)))
  {
    forall f | f in got ensures f in Elements(F.Pool(w.frames)) {}
    assert got[0] in got && got[1] in got;
  }

  lemma CreateMade(w: World, w1: World, boot: nat, bt: Tree, got: seq<nat>)
    requires Creatable(w, boot, bt) && Cleared(w, w1, got) && |got| == 3
    ensures CreateEffect(w, w1.(mem := FillTables(w1.mem, boot, got[0], got[1], got[2])), boot, bt,
                         TreeOf(bt, got[0], got[1], got[2]), Ok(Space(got[0], got, [], true)))
  {
    CreatedSetup(w, w1, boot, bt, got);
    CreatedKernel(w, w1, boot, bt, got);
    CreatedPool(F.Pool(w.frames), F.Pool(w1.frames), bt, got);
    CreatedInv(w1, boot, bt, got);
    CreatedWalks(w, w1, boot, bt, got);
    MadeSpace(w, w1, bt, got, Space(got[0], got, [], true));
    MadeWrites(w, w1, boot, got);
    MadeEffect(w, w1, boot, bt, got);
  }

  lemma MadeEffect(w: World, w1: World, boot: nat, bt: Tree, got: seq<nat>)
    requires GotFrames(w.frames, w1.frames, got) && |got| == 3
    requires var w' := w1.(mem := FillTables(w1.mem, boot, got[0], got[1], got[2]));
             && KernelSame(w, w', boot, bt) && SpaceInv(w', Space(got[0], got, [], true), TreeOf(bt, got[0], got[1], got[2]))
             && WroteOnly(w, w', Elements(F.Pool(w.frames)))
             && NewSpace(F.Pool(w.frames), F.Pool(w'.frames), Space(got[0], got, [], true), bt, TreeOf(bt, got[0], got[1], got[2]))
             && (forall va :: Canonical(va) ==> Walk(w'.mem, got[0], Path(va)) == if UserGigabyte(va) then None else Walk(w.mem, boot, Path(va)))
    ensures CreateEffect(w, w1.(mem := FillTables(w1.mem, boot, got[0], got[1], got[2])), boot, bt,
                         TreeOf(bt, got[0], got[1], got[2]), Ok(Space(got[0], got, [], true)))
  {
    MadeFrames(w.frames, w1.frames, got);
  }

  lemma MadeFrames(a: F.Allocator, b: F.Allocator, got: seq<nat>)
    requires GotFrames(a, b, got) && |got| == 3
    ensures var s := Space(got[0], got, [], true);
            && Own(s) == got && FL.CanUndo(b, |s.tables| + |s.pages|) && s.root in F.Pool(a)
  {
    var s := Space(got[0], got, [], true);
    assert PageFrames(s) == [] && Own(s) == got;
    assert got[0] == F.Pool(a)[0];
  }

  lemma CreateUndone(w: World, w1: World, s: Space, boot: nat, bt: Tree, e: SpaceError)
    requires Creatable(w, boot, bt) && Cleared(w, w1, s.tables) && (e.NoFrames? || e.FrameNotReachable?)
    ensures CreateEffect(w, Release(w1, s), boot, bt, map[], Err(e))
  {
    ReleaseOk(w, w1, s);
    CreateFailed(w, w1, s, boot, bt);
    forall f | f in s.tables ensures f in Elements(F.Pool(w.frames)) {}
  }

  /**
   Creation succeeds exactly when three reachable frames are available. The new space translates
   like the kernel outside the user gigabyte and maps nothing inside it; a failed creation leaves
   the set of frames in use as it was. The kernel's own translations never change.
   */
  lemma CreateOk(w: World, boot: nat, bt: Tree) returns (tree: Tree)
    requires Creatable(w, boot, bt)
    ensures CreateEffect(w, Create(w, boot).0, boot, bt, tree, Create(w, boot).1)
    ensures Create(w, boot).1.Ok? <==> Supplies(F.Pool(w.frames), 3)
  {
    AddThreeOk(w);
    tree := CompletedOk(w, AddThree(w), boot, bt);
  }

  lemma CompletedOk(w: World, taken: (World, Space, Option<SpaceError>), boot: nat, bt: Tree) returns (tree: Tree)
    requires Creatable(w, boot, bt) && Cleared(w, taken.0, taken.1.tables)
    requires if taken.2.None? then |taken.1.tables| == 3 else taken.2.value.NoFrames? || taken.2.value.FrameNotReachable?
    ensures CreateEffect(w, Completed(taken, boot).0, boot, bt, tree, Completed(taken, boot).1)
    ensures Completed(taken, boot).1.Ok? <==> taken.2.None?
  {
    var (w1, s, failed) := taken;
    if failed.None? {
      tree := TreeOf(bt, s.tables[0], s.tables[1], s.tables[2]);
      CreatedSetup(w, w1, boot, bt, s.tables);
      CreateMade(w, w1, boot, bt, s.tables);
      assert Completed(taken, boot) == (w1.(mem := FillTables(w1.mem, boot, s.tables[0], s.tables[1], s.tables[2])),
                                        Ok(Space(s.tables[0], s.tables, [], true)));
    } else {
      tree := map[];
      CreateUndone(w, w1, s, boot, bt, failed.value);
      assert Completed(taken, boot) == (Release(w1, s), Err(failed.value));
    }
  }

  // ---- destruction

  lemma SplitDistinct(x: seq<nat>, y: seq<nat>)
    requires FL.Distinct(x + y)
    ensures FL.Distinct(x) && FL.Distinct(y) && Elements(x) !! Elements(y) && Elements(x + y) == Elements(x) + Elements(y)
  {
    var z := x + y;
    assert forall k :: 0 <= k < |x| ==> z[k] == x[k];
    assert forall k :: 0 <= k < |y| ==> z[|x| + k] == y[k];
    assert forall f :: f in z <==> f in x || f in y;
  }

  /** The frames of a space in the order destruction returns them. */
  function Returned(s: Space): seq<nat> { PageFrames(s) + F.Reversed(s.tables) }

  lemma ReturnedOwn(s: Space)
    requires FL.Distinct(Own(s))
    ensures FL.Distinct(Returned(s)) && Elements(Returned(s)) == Elements(Own(s)) && |Returned(s)| == |s.pages| + |s.tables|
  {
    SplitDistinct(s.tables, PageFrames(s));
    ReversedDistinct(s.tables);
    forall f | f in PageFrames(s) ensures f !in F.Reversed(s.tables) {
      assert f in Elements(PageFrames(s)) && f !in Elements(F.Reversed(s.tables));
    }
    FL.JoinDistinct(PageFrames(s), F.Reversed(s.tables));
    assert forall f :: f in Returned(s) <==> f in PageFrames(s) || f in F.Reversed(s.tables);
  }

  /** `n` frames came back, pages first. */
  ghost predicate ReportOk(s: Space, n: nat, r: Result<Report, SpaceError>)
  {
    && r.Ok? && r.value.pagesFreed == (if n <= |s.pages| then n else |s.pages|)
    && r.value.pagesFreed + r.value.tablesFreed == n
    && (r.value.complete <==> n == |s.pages| + |s.tables|)
  }

  ghost predicate DestroyEffect(w: World, s: Space, w': World, s': Space, r: Result<Report, SpaceError>)
  {
    var n := RoomFor(w.frames, |Returned(s)|);
    && s' == NO_SPACE && w'.mem == w.mem && w'.bytes == w.bytes && Freed(w.frames, w'.frames, Returned(s), n)
    && F.InUse(w'.frames) * Elements(Own(s)) == Elements(Returned(s)[n..])
    && ReportOk(s, n, r) && (r.value.complete <==> Undoable(w, s))
  }

  /**
   Destroying a space returns the frames of its pages in order and then its tables from the last one
   to the root, until the recycle stack is full. What remains stays in use for good: the space has
   forgotten it. The report is complete exactly if there was room for everything. The active space
   is refused.
   */
  lemma DestroyExact(w: World, s: Space, tree: Tree, activeRoot: nat)
    requires SpaceInv(w, s, tree)
    ensures var (w', s', r) := Destroy(w, s, activeRoot);
            if activeRoot == s.root then r == Err(SpaceInUse) && w' == w && s' == s
            else DestroyEffect(w, s, w', s', r)
  {
    if activeRoot != s.root {
      var list := Returned(s);
      ReturnedOwn(s);
      FreeEachExact(w.frames, list);
      DestroyedReport(w, s, activeRoot);
      Leftover(F.InUse(w.frames), Elements(Own(s)), list, RoomFor(w.frames, |list|));
    }
  }

  /** The two loops free one list, and the report counts both parts. */
  lemma DestroyedReport(w: World, s: Space, activeRoot: nat)
    requires FL.Inv(w.frames) && FL.Distinct(Own(s)) && Elements(Own(s)) <= F.InUse(w.frames) && s.active && activeRoot != s.root
    ensures var (w', s', r) := Destroy(w, s, activeRoot);
            && s' == NO_SPACE && w' == w.(frames := FreeEach(w.frames, Returned(s)).0)
            && ReportOk(s, RoomFor(w.frames, |Returned(s)|), r) && (r.value.complete <==> Undoable(w, s))
  {
    ReturnedOwn(s);
    SplitDistinct(s.tables, PageFrames(s));
    FreeEachExact(w.frames, PageFrames(s));
    FreeEachExact(w.frames, Returned(s));
    FreeEachAppend(w.frames, PageFrames(s), F.Reversed(s.tables));
  }

  lemma Leftover(used: set<nat>, own: set<nat>, list: seq<nat>, n: nat)
    requires FL.Distinct(list) && Elements(list) == own <= used && n <= |list|
    ensures (used - Elements(list[..n])) * own == Elements(list[n..])
  {
    assert list == list[..n] + list[n..];
    SplitDistinct(list[..n], list[n..]);
  }

  /** Destroying a space whose frames still fit the recycle stack returns every one of them. */
  lemma DestroyOk(w: World, s: Space, tree: Tree, activeRoot: nat)
    requires SpaceInv(w, s, tree) && Undoable(w, s) && activeRoot != s.root
    ensures var (w', s', r) := Destroy(w, s, activeRoot);
            && r == Ok(Report(|s.pages|, |s.tables|, true)) && s' == NO_SPACE
            && FL.Inv(w'.frames) && F.InUse(w'.frames) == F.InUse(w.frames) - Elements(Own(s))
            && w'.mem == w.mem && w'.bytes == w.bytes && w'.frames.protectedUntil == w.frames.protectedUntil
            && Elements(F.Pool(w'.frames)) == Elements(F.Pool(w.frames)) + Elements(Own(s))
  {
    DestroyExact(w, s, tree, activeRoot);
    var (w', s', r) := Destroy(w, s, activeRoot);
    AllReturned(w, s, w', s', r);
  }

  lemma AllReturned(w: World, s: Space, w': World, s': Space, r: Result<Report, SpaceError>)
    requires DestroyEffect(w, s, w', s', r) && Undoable(w, s) && FL.Distinct(Own(s))
    ensures r == Ok(Report(|s.pages|, |s.tables|, true)) && F.InUse(w'.frames) == F.InUse(w.frames) - Elements(Own(s))
    ensures Elements(F.Pool(w'.frames)) == Elements(F.Pool(w.frames)) + Elements(Own(s))
  {
    ReturnedOwn(s);
    ReportAll(s, r);
    AllMoved(F.InUse(w.frames), F.InUse(w'.frames), F.Pool(w.frames), F.Pool(w'.frames), Returned(s), Elements(Own(s)));
  }

  lemma ReportAll(s: Space, r: Result<Report, SpaceError>)
    requires ReportOk(s, |s.pages| + |s.tables|, r)
    ensures r == Ok(Report(|s.pages|, |s.tables|, true))
  {
  }

  lemma AllMoved(used: set<nat>, used': set<nat>, pool: seq<nat>, pool': seq<nat>, list: seq<nat>, own: set<nat>)
    requires Moved(used, used', pool, pool', list, |list|) && Elements(list) == own
    ensures used' == used - own && Elements(pool') == Elements(pool) + own
  {
    MovedAll(used, used', pool, pool', list);
    MovedPool(used, used', pool, pool', list, |list|);
    assert list[..|list|] == list;
  }
}
