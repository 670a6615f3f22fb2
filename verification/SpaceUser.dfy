/** The public face of an address space: mapping refines insertion into a flat map of user pages. */
module SpaceUser {
  import opened Common
  import opened PagingModel
  import opened PagingTree
  import opened PagingLaws
  import opened SpaceModel
  import opened SpaceFrames
  import opened SpaceTree
  import opened SpaceLaws
  import opened SpaceMap
  import F = PhysmemModel
  import FL = PhysmemLaws

  function UserWalk(w: World, s: Space, va: nat): Option<Leaf> { Walk(w.mem, s.root, Path(va)) }

  ghost predicate SameUserWalks(w: World, s: Space, w': World) { forall va :: UserWalk(w', s, va) == UserWalk(w, s, va) }

  ghost predicate UserPageAdded(w: World, s: Space, w': World, virt: nat, leaf: Leaf)
  {
    forall va :: Canonical(va) ==> UserWalk(w', s, va) == if PageOf(va) == PageOf(virt) then Some(leaf) else UserWalk(w, s, va)
  }

  /** Everything one mapping attempt does. */
  ghost predicate MapUserEffect(
    w: World, s: Space, w': World, s': Space, virt: nat, writable: bool, executable: bool, r: Result<nat, SpaceError>)
  {
    && Kept(w, s, w', s')
    && if r.Ok? then
         && s'.pages == s.pages + [MappedPage(virt, r.value, writable, executable)]
         && r.value in w'.bytes && w'.bytes[r.value] == ZeroPage() && r.value !in F.InUse(w.frames)
         && UserPageAdded(w, s, w', virt, Leaf(r.value, false, true, writable, executable))
       else s'.pages == s.pages && SameUserWalks(w, s, w')
  }

  /** A page costs one frame, and one more for its table if that is the first page in its 2 MiB. */
  ghost predicate Drew(w: World, tree: Tree, w': World, tree': Tree, virt: nat)
  {
    var n := if Index(virt, 2) in UserTables(tree) then 1 else 2;
    && n <= |F.Pool(w.frames)| && F.Pool(w'.frames) == F.Pool(w.frames)[n..]
    && UserTables(tree') == UserTables(tree) + {Index(virt, 2)}
  }

  /** Tables are only ever added from the space's own frames, and only in the user area. */
  ghost predicate Grew(tree: Tree, tree': Tree, s': Space)
  {
    && tree'.Values <= tree.Values + Elements(Own(s'))
    && (forall p :: !UserTable(p) ==> (p in tree' <==> p in tree) && (p in tree ==> tree'[p] == tree[p]))
  }

  /** The path of a last-level table in the user area. */
  predicate UserTable(p: seq<nat>) { |p| == 3 && UserPath(p) }

  lemma GrewByTable(s: Space, tree: Tree, virt: nat, tree': Tree, f: nat, own: set<nat>)
    requires SpineTables(s, tree) && InUser(virt)
    requires tree' == if Path(virt)[..3] in tree then tree else tree[Path(virt)[..3] := f]
    requires Path(virt)[..3] !in tree ==> f in own
    ensures UserTables(tree') == UserTables(tree) + {Index(virt, 2)} && tree'.Values <= tree.Values + own
    ensures forall p :: !UserTable(p) ==> (p in tree' <==> p in tree) && (p in tree ==> tree'[p] == tree[p])
    ensures Path(virt)[..3] in tree <==> Index(virt, 2) in UserTables(tree)
  {
    UserIndices(virt);
    assert UserTable(Path(virt)[..3]);
    if Path(virt)[..3] !in tree {
      RoomForTable(s, tree, Index(virt, 2), f);
      forall v | v in tree'.Values ensures v in tree.Values || v == f { var p :| p in tree' && tree'[p] == v; }
    }
  }

  /** A user page that is not mapped, with room in the page list. */
  predicate Free(w: World, s: Space, virt: nat)
  {
    Aligned(virt) && InUser(virt) && |s.pages| < MAX_PAGES && UserWalk(w, s, virt).None?
  }

  predicate MayMap(w: World, s: Space, virt: nat)
  {
    Free(w, s, virt) && Supplies(F.Pool(w.frames), TablesMissing(w.mem, s.root, Path(virt)) + 1)
  }

  lemma KeptTwice(w: World, s: Space, w1: World, s1: Space, w2: World, s2: Space)
    requires Kept(w, s, w1, s1) && Kept(w1, s1, w2, s2)
    ensures Kept(w, s, w2, s2)
  {
    forall f | f in w.mem && f !in Own(s2) ensures f in w2.mem && w2.mem[f] == w.mem[f] {
      assert f !in Elements(Own(s2));
      assert f !in Own(s1);
    }
    forall f | f in Elements(Own(s)) || f !in Elements(Own(s2)) ensures SameBytes(w, w2, f) {
      assert SameBytes(w, w1, f) && SameBytes(w1, w2, f);
    }
  }

  lemma LeavesToWalks(w: World, s: Space, tree: Tree, w': World, tree': Tree)
    requires TreeOk(w.mem, s.root, tree) && TreeOk(w'.mem, s.root, tree') && SameLeaves(w.mem, tree, w'.mem, tree')
    ensures SameUserWalks(w, s, w')
  {
    forall va ensures UserWalk(w', s, va) == UserWalk(w, s, va) {
      WalkRoot(w.mem, s.root, tree, va);
      WalkRoot(w'.mem, s.root, tree', va);
    }
  }

  lemma AddedToWalks(w: World, s: Space, tree: Tree, w': World, tree': Tree, virt: nat, leaf: Leaf)
    requires TreeOk(w.mem, s.root, tree) && TreeOk(w'.mem, s.root, tree') && Canonical(virt)
    requires forall q :: |q| == 4 ==> LeafAt(w'.mem, tree', q) == if q == Path(virt) then Some(leaf) else LeafAt(w.mem, tree, q)
    ensures UserPageAdded(w, s, w', virt, leaf)
  {
    forall va | Canonical(va) ensures UserWalk(w', s, va) == if PageOf(va) == PageOf(virt) then Some(leaf) else UserWalk(w, s, va) {
      WalkRoot(w.mem, s.root, tree, va);
      WalkRoot(w'.mem, s.root, tree', va);
      PathIsPage(va, virt);
    }
  }

  /** In the user area only the last-level table can be missing. */
  lemma UserMissing(w: World, s: Space, tree: Tree, virt: nat)
    requires SpaceInv(w, s, tree) && InUser(virt)
    ensures TablesMissing(w.mem, s.root, Path(virt)) == if Path(virt)[..3] in tree then 0 else 1
    ensures UserWalk(w, s, virt) == LeafAt(w.mem, tree, Path(virt))
  {
    UserIndices(virt);
    assert Path(virt)[..0] == [] && Path(virt)[..1] == [0] && Path(virt)[0..] == Path(virt);
    MissingIsIn(w.mem, s.root, tree, virt, 0);
    MissingUnfold(tree, Path(virt));
    WalkRoot(w.mem, s.root, tree, virt);
  }

  lemma MissingUnfold(tree: Tree, q: seq<nat>)
    requires |q| == 4 && q[..1] in tree && q[..2] in tree
    ensures MissingIn(tree, q, 0) == if q[..3] in tree then 0 else 1
  {
    assert MissingIn(tree, q, 0) == MissingIn(tree, q, 1) == MissingIn(tree, q, 2);
  }

  /** The attempt, its result, and why it may fail. */
  ghost predicate MapUserSpec(
    w: World, s: Space, tree: Tree, tree': Tree, virt: nat, writable: bool, executable: bool, w': World, s': Space, r: Result<nat, SpaceError>)
  {
    && SpaceInv(w', s', tree') && MapUserEffect(w, s, w', s', virt, writable, executable, r)
    && (r.Ok? <==> MayMap(w, s, virt)) && Grew(tree, tree', s') && (r.Ok? ==> Drew(w, tree, w', tree', virt))
    && (r.Err? ==> !r.error.TableCapacity? && !r.error.MissingTable? && !r.error.SpaceNotInitialized?)
    && (r.Err? && Free(w, s, virt) ==> r.error.NoFrames? || r.error.FrameNotReachable?)
  }

  /** The attempt from the table of the user area down. */
  function MapBelow(w: World, s: Space, p2: nat, virt: nat, writable: bool, executable: bool): (World, Space, Result<nat, SpaceError>)
  {
    var (w1, s1, r1) := LastTable(w, s, p2, Index(virt, 2));
    if r1.Err? then (w1, s1, r1) else EnterUser(w1, s1, r1.value, virt, writable, executable)
  }

  /** After the table is there, entering the page completes the attempt. */
  lemma MapUserBelow(w: World, s: Space, tree: Tree, virt: nat, writable: bool, executable: bool) returns (tree': Tree)
    requires SpaceInv(w, s, tree) && Free(w, s, virt)
    ensures var (w', s', r) := MapBelow(w, s, tree[USER_PATH], virt, writable, executable);
            MapUserSpec(w, s, tree, tree', virt, writable, executable, w', s', r)
  {
    UserMissing(w, s, tree, virt);
    UserIndices(virt);
    tree' := LastTableOk(w, s, tree, virt);
    var (w1, s1, r1) := LastTable(w, s, tree[USER_PATH], Index(virt, 2));
    SuppliesStep(F.Pool(w.frames), 1);
    if r1.Ok? {
      EnterBelowOk(w, s, tree, w1, s1, tree', r1.value, virt, writable, executable);
      var (w2, s2, r2) := EnterUser(w1, s1, r1.value, virt, writable, executable);
      EnteredSpec(w, s, tree, w1, s1, tree', r1.value, virt, writable, executable, w2, s2, r2);
    } else {
      LeavesToWalks(w, s, tree, w1, tree');
    }
  }

  /** What entering a page below an existing table did, seen from before the table was looked up. */
  ghost predicate Entered(
    w: World, s: Space, w1: World, s1: Space, tree1: Tree, virt: nat, writable: bool, executable: bool, w': World, s': Space, r: Result<nat, SpaceError>)
  {
    && SpaceInv(w', s', tree1) && MapUserEffect(w, s, w', s', virt, writable, executable, r)
    && (r.Ok? <==> Supplies(F.Pool(w1.frames), 1)) && Elements(Own(s1)) <= Elements(Own(s'))
    && (r.Ok? ==> |F.Pool(w1.frames)| > 0 && F.Pool(w'.frames) == F.Pool(w1.frames)[1..])
    && (r.Err? ==> r.error.NoFrames? || r.error.FrameNotReachable?)
  }

  /** The table for the page is there, found or new. */
  lemma EnteredSpec(
    w: World, s: Space, tree: Tree, w1: World, s1: Space, tree1: Tree, p1: nat, virt: nat, writable: bool, executable: bool,
    w': World, s': Space, r: Result<nat, SpaceError>)
    requires Free(w, s, virt) && SpineTables(s, tree) && Entered(w, s, w1, s1, tree1, virt, writable, executable, w', s', r)
    requires TablesMissing(w.mem, s.root, Path(virt)) == if Path(virt)[..3] in tree then 0 else 1
    requires Path(virt)[..3] in tree || (Supplies(F.Pool(w.frames), 1) && p1 in Own(s1))
    requires F.Pool(w1.frames) == if Path(virt)[..3] in tree then F.Pool(w.frames) else F.Pool(w.frames)[1..]
    requires tree1 == if Path(virt)[..3] in tree then tree else tree[Path(virt)[..3] := p1]
    ensures MapUserSpec(w, s, tree, tree1, virt, writable, executable, w', s', r)
  {
    GrewByTable(s, tree, virt, tree1, p1, Elements(Own(s1)));
    TableAndPage(F.Pool(w.frames), F.Pool(w1.frames), F.Pool(w'.frames), Path(virt)[..3] in tree, r.Ok?);
    AssembleSpec(w, s, tree, tree1, virt, writable, executable, w', s', r);
  }

  /** One frame for the page, after one for its table unless that was there. */
  lemma TableAndPage(pool: seq<nat>, pool1: seq<nat>, pool2: seq<nat>, had: bool, ok: bool)
    requires (had || Supplies(pool, 1)) && pool1 == if had then pool else pool[1..]
    requires ok ==> |pool1| > 0 && pool2 == pool1[1..]
    ensures Supplies(pool, (if had then 0 else 1) + 1) <==> Supplies(pool1, 1)
    ensures ok ==> var n := if had then 1 else 2; n <= |pool| && pool2 == pool[n..]
  {
    SuppliesStep(pool, 1);
  }

  lemma AssembleSpec(
    w: World, s: Space, tree: Tree, tree': Tree, virt: nat, writable: bool, executable: bool, w': World, s': Space, r: Result<nat, SpaceError>)
    requires SpaceInv(w', s', tree') && MapUserEffect(w, s, w', s', virt, writable, executable, r) && Grew(tree, tree', s')
    requires (r.Ok? <==> MayMap(w, s, virt)) && (r.Ok? ==> Drew(w, tree, w', tree', virt))
    requires r.Err? ==> r.error.NoFrames? || r.error.FrameNotReachable?
    ensures MapUserSpec(w, s, tree, tree', virt, writable, executable, w', s', r)
  {
  }

  lemma EnterBelowOk(
    w: World, s: Space, tree: Tree, w1: World, s1: Space, tree1: Tree, p1: nat, virt: nat, writable: bool, executable: bool)
    requires Path(virt)[..3] in tree1 && tree1[Path(virt)[..3]] == p1 && LeafAt(w.mem, tree, Path(virt)).None?
    requires SpaceInv(w, s, tree) && SpaceInv(w1, s1, tree1) && Kept(w, s, w1, s1) && s1.pages == s.pages
    requires SameLeaves(w.mem, tree, w1.mem, tree1)
    requires Aligned(virt) && InUser(virt) && |s.pages| < MAX_PAGES
    ensures var (w', s', r) := EnterUser(w1, s1, p1, virt, writable, executable);
            Entered(w, s, w1, s1, tree1, virt, writable, executable, w', s', r)
  {
    EnterOk(w1, s1, tree1, virt, writable, executable);
    UserIndices(virt);
    var (w', s', r) := EnterUser(w1, s1, p1, virt, writable, executable);
    KeptTwice(w, s, w1, s1, w', s');
    if r.Ok? {
      AddedToWalks(w, s, tree, w', tree1, virt, Leaf(r.value, false, true, writable, executable));
    } else {
      LeavesToWalks(w, s, tree, w', tree1);
    }
  }

  /**
   Mapping a user page succeeds exactly when the request is a free user page within capacity and
   the allocator can supply the page and a missing table. Then exactly that page appears, zeroed;
   otherwise no translation changes. Only the space's own frames are written, and running out of
   table slots, missing intermediate tables and an inactive space cannot occur.
   */
  lemma MapUserOk(w: World, s: Space, tree: Tree, virt: nat, writable: bool, executable: bool) returns (tree': Tree)
    requires SpaceInv(w, s, tree)
    ensures var (w', s', r) := MapUser(w, s, virt, writable, executable);
            MapUserSpec(w, s, tree, tree', virt, writable, executable, w', s', r)
  {
    if Free(w, s, virt) {
      tree' := MapUserFree(w, s, tree, virt, writable, executable);
    } else {
      tree' := tree;
      RootOk(w, s, tree);
      MapUserRefused(w, s, virt, writable, executable);
      SameFramesInv(w, s, tree, w);
      assert MapUserEffect(w, s, w, s, virt, writable, executable, MapUser(w, s, virt, writable, executable).2);
    }
  }

  lemma RootOk(w: World, s: Space, tree: Tree)
    requires SpaceInv(w, s, tree)
    ensures s.active && s.root != 0 && s.root < IDENTITY_BYTES && Aligned(s.root)
  {
  }

  lemma MapUserFree(w: World, s: Space, tree: Tree, virt: nat, writable: bool, executable: bool) returns (tree': Tree)
    requires SpaceInv(w, s, tree) && Free(w, s, virt)
    ensures var (w', s', r) := MapUser(w, s, virt, writable, executable);
            MapUserSpec(w, s, tree, tree', virt, writable, executable, w', s', r)
  {
    SpineWalk(w, s, tree);
    UserIndices(virt);
    RootOk(w, s, tree);
    tree' := MapUserBelow(w, s, tree, virt, writable, executable);
    MapUserShape(w, s, virt, writable, executable, tree[USER_PATH]);
  }

  lemma MapUserRefused(w: World, s: Space, virt: nat, writable: bool, executable: bool)
    requires s.active && s.root != 0 && s.root < IDENTITY_BYTES && Aligned(s.root)
    requires !Free(w, s, virt)
    ensures var (w', s', r) := MapUser(w, s, virt, writable, executable);
            w' == w && s' == s && r.Err? && !r.error.TableCapacity? && !r.error.MissingTable? && !r.error.SpaceNotInitialized?
  {
  }

  lemma MapUserShape(w: World, s: Space, virt: nat, writable: bool, executable: bool, p2: nat)
    requires s.active && s.root != 0 && s.root < IDENTITY_BYTES && Aligned(s.root)
    requires Free(w, s, virt)
    requires EntryAt(w.mem, s.root, Index(virt, 0)).addr < IDENTITY_BYTES
    requires EntryAt(w.mem, EntryAt(w.mem, s.root, Index(virt, 0)).addr, Index(virt, 1)).addr == p2 < IDENTITY_BYTES
    ensures MapUser(w, s, virt, writable, executable) == MapBelow(w, s, p2, virt, writable, executable)
  {
  }
}
