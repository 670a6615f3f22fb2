/** Many address spaces at once: what is done to one of them changes nothing that another one, or the kernel, sees. */
module SpaceSystem {
  import opened Common
  import opened PagingModel
  import opened PagingTree
  import opened PagingLaws
  import opened SpaceModel
  import opened SpaceFrames
  import opened SpaceTree
  import opened SpaceLaws
  import opened SpaceMap
  import opened SpaceUser
  import opened SpaceLife
  import LM = LoaderModel
  import LB = LoaderBuild
  import E = ElfModel
  import PB = PagingBoot
  import F = PhysmemModel
  import FL = PhysmemLaws

  datatype System = System(world: World, spaces: seq<Space>)

  /** A space whose tables are its own or the kernel's. */
  ghost predicate Housed(w: World, bt: Tree, s: Space, tree: Tree)
  {
    SpaceInv(w, s, tree) && tree.Values <= bt.Values + Elements(Own(s)) && Elements(Own(s)) !! bt.Values
  }

  ghost function HousedIn(w: World, bt: Tree): (Space, Tree) -> bool { (s: Space, tree: Tree) => Housed(w, bt, s, tree) }

  ghost predicate HoldsAt(p: (Space, Tree) -> bool, spaces: seq<Space>, trees: seq<Tree>, i: nat)
  {
    i < |spaces| == |trees| && p(spaces[i], trees[i])
  }

  ghost predicate HoldsForAll(p: (Space, Tree) -> bool, spaces: seq<Space>, trees: seq<Tree>)
  {
    |trees| == |spaces| && forall i: nat :: i < |spaces| ==> HoldsAt(p, spaces, trees, i)
  }

  ghost predicate AllHoused(w: World, bt: Tree, spaces: seq<Space>, trees: seq<Tree>) { HoldsForAll(HousedIn(w, bt), spaces, trees) }

  ghost predicate ApartAt(spaces: seq<Space>, i: nat, j: nat)
  {
    i < |spaces| && j < |spaces| && Elements(Own(spaces[i])) !! Elements(Own(spaces[j]))
  }

  ghost predicate Apart(spaces: seq<Space>)
  {
    forall i: nat, j: nat :: i < |spaces| && j < |spaces| && i != j ==> ApartAt(spaces, i, j)
  }

  /** The kernel's tables are sound, every space is, and no two of them share a frame. */
  ghost predicate SystemOk(y: System, boot: nat, bt: Tree, trees: seq<Tree>)
  {
    Creatable(y.world, boot, bt) && AllHoused(y.world, bt, y.spaces, trees) && Apart(y.spaces)
  }

  // ---- what one step may touch

  /** At most the frames in `touched` and free frames were written; only frames in `touched` were freed. */
  ghost predicate Confined(w: World, w': World, touched: set<nat>)
  {
    && FL.Inv(w'.frames) && w'.frames.protectedUntil == w.frames.protectedUntil
    && WroteOnly(w, w', touched + Elements(F.Pool(w.frames)))
    && Elements(F.Pool(w'.frames)) <= Elements(F.Pool(w.frames)) + touched
    && F.InUse(w.frames) - touched <= F.InUse(w'.frames)
  }

  /** All translations of the space, and the contents of all its pages, are as they were. */
  ghost predicate SameSpace(w: World, w': World, s: Space)
  {
    && (forall va :: SpaceTranslate(w', s, va) == SpaceTranslate(w, s, va))
    && (forall k :: 0 <= k < |s.pages| ==> SameBytes(w, w', s.pages[k].frame))
  }

  lemma PoolApart(a: F.Allocator)
    requires FL.Inv(a)
    ensures Elements(F.Pool(a)) !! F.InUse(a)
  {
    FL.PoolSound(a);
  }

  lemma PoolFits(a: F.Allocator, tree: Tree)
    requires FL.Inv(a) && Elements(F.Pool(a)) !! tree.Values
    ensures PoolOk(F.Pool(a), tree)
  {
    FL.PoolSound(a);
    forall k | 0 <= k < |F.Pool(a)| ensures F.Pool(a)[k] !in tree.Values { assert F.Pool(a)[k] in Elements(F.Pool(a)); }
  }

  /** The kernel's own tables are out of reach. */
  lemma KernelStays(w: World, w': World, boot: nat, bt: Tree, touched: set<nat>)
    requires Creatable(w, boot, bt) && Confined(w, w', touched) && touched !! bt.Values
    ensures Creatable(w', boot, bt) && KernelSame(w, w', boot, bt)
  {
    var pool := F.Pool(w.frames);
    forall v | v in Elements(pool) ensures v !in bt.Values { var k :| 0 <= k < |pool| && pool[k] == v; }
    forall p | p in bt ensures bt[p] in w'.mem && w'.mem[bt[p]] == w.mem[bt[p]] {
      assert bt[p] in bt.Values;
      assert SameFrame(w, w', bt[p]);
    }
    KernelKept(w, w', boot, bt);
    PoolFits(w'.frames, bt);
  }

  /** The parts of the invariant of a space that its tables decide. */
  lemma TablesStay(w: World, w': World, s: Space, tree: Tree)
    requires SpaceInv(w, s, tree) && forall p :: p in tree ==> tree[p] in w'.mem && w'.mem[tree[p]] == w.mem[tree[p]]
    ensures TreeOk(w'.mem, s.root, tree) && Spine(w'.mem, s, tree) && PagesOk(w'.mem, s, tree)
    ensures forall va :: SpaceTranslate(w', s, va) == SpaceTranslate(w, s, va)
  {
    OutsideOk(w.mem, w'.mem, s.root, tree);
    SpineStays(w.mem, w'.mem, s, tree);
    SamePages(w.mem, tree, w'.mem, tree, s, s);
    forall va ensures SpaceTranslate(w', s, va) == SpaceTranslate(w, s, va) {
      WalkRoot(w.mem, s.root, tree, va);
      WalkRoot(w'.mem, s.root, tree, va);
    }
  }

  lemma SpineStays(mem: Memory, mem': Memory, s: Space, tree: Tree)
    requires Spine(mem, s, tree) && forall p :: p in tree ==> tree[p] in mem && tree[p] in mem' && mem'[tree[p]] == mem[tree[p]]
    ensures Spine(mem', s, tree)
  {
    forall p, i: nat | p in tree ensures EntryAt(mem', tree[p], i) == EntryAt(mem, tree[p], i) {}
  }

  /** Frames of the kernel's tables, and of a space that is not touched, hold what they held. */
  lemma UntouchedFrames(w: World, w': World, boot: nat, bt: Tree, own: set<nat>, touched: set<nat>)
    requires Creatable(w, boot, bt) && own <= F.InUse(w.frames) && Confined(w, w', touched)
    requires touched !! bt.Values && touched !! own
    ensures forall f :: f in bt.Values || f in own ==> SameFrame(w, w', f)
    ensures own <= F.InUse(w'.frames)
  {
    PoolApart(w.frames);
    var pool := F.Pool(w.frames);
    forall v | v in Elements(pool) ensures v !in bt.Values { var k :| 0 <= k < |pool| && pool[k] == v; }
    forall f | f in bt.Values || f in own ensures SameFrame(w, w', f) { assert f !in touched + Elements(pool); }
  }

  lemma SameSpaceOk(w: World, w': World, s: Space)
    requires (forall f :: f in Elements(Own(s)) ==> SameFrame(w, w', f)) && forall va :: SpaceTranslate(w', s, va) == SpaceTranslate(w, s, va)
    ensures SameSpace(w, w', s)
  {
    forall k | 0 <= k < |s.pages| ensures SameBytes(w, w', s.pages[k].frame) {
      assert Own(s)[|s.tables| + k] == s.pages[k].frame;
      assert s.pages[k].frame in Elements(Own(s));
    }
  }

  lemma TreeFrames(w: World, w': World, bt: Tree, s: Space, tree: Tree)
    requires TreeOk(w.mem, s.root, tree) && tree.Values <= bt.Values + Elements(Own(s))
    requires forall f :: f in bt.Values || f in Elements(Own(s)) ==> SameFrame(w, w', f)
    ensures forall p :: p in tree ==> tree[p] in w'.mem && w'.mem[tree[p]] == w.mem[tree[p]]
  {
    forall p | p in tree ensures tree[p] in w'.mem && w'.mem[tree[p]] == w.mem[tree[p]] {
      assert tree[p] in tree.Values;
      assert SameFrame(w, w', tree[p]);
    }
  }

  /** A space none of whose frames is touched does not notice. */
  lemma BystanderOk(w: World, w': World, boot: nat, bt: Tree, s: Space, tree: Tree, touched: set<nat>)
    requires Creatable(w, boot, bt) && Housed(w, bt, s, tree) && Confined(w, w', touched)
    requires touched !! bt.Values && touched !! Elements(Own(s))
    ensures Housed(w', bt, s, tree) && SameSpace(w, w', s)
  {
    UntouchedFrames(w, w', boot, bt, Elements(Own(s)), touched);
    KernelStays(w, w', boot, bt, touched);
    TreeFrames(w, w', bt, s, tree);
    TablesStay(w, w', s, tree);
    SameSpaceOk(w, w', s);
    OthersPool(w', boot, bt, s, tree);
    AssembleSpace(w', s, tree);
  }

  lemma OthersPool(w: World, boot: nat, bt: Tree, s: Space, tree: Tree)
    requires Creatable(w, boot, bt) && tree.Values <= bt.Values + Elements(Own(s)) && Elements(Own(s)) <= F.InUse(w.frames)
    ensures PoolOk(F.Pool(w.frames), tree)
  {
    PoolApart(w.frames);
    var pool := F.Pool(w.frames);
    forall v | v in Elements(pool) ensures v !in bt.Values { var k :| 0 <= k < |pool| && pool[k] == v; }
    PoolFits(w.frames, tree);
  }

  // ---- each operation is confined

  lemma CreateConfined(w: World, w': World, boot: nat, bt: Tree, tree: Tree, r: Result<Space, SpaceError>)
    requires CreateEffect(w, w', boot, bt, tree, r)
    ensures Confined(w, w', {})
  {
    assert {} + Elements(F.Pool(w.frames)) == Elements(F.Pool(w.frames));
  }

  lemma CreatedNew(w: World, w': World, boot: nat, bt: Tree, tree: Tree, s: Space)
    requires CreateEffect(w, w', boot, bt, tree, Ok(s))
    ensures SpaceInv(w', s, tree) && Elements(Own(s)) <= Elements(F.Pool(w.frames)) && tree.Values <= bt.Values + Elements(Own(s))
  {
  }

  lemma BuildConfined(w: World, w': World, bt: Tree, image: seq<Byte>, tree: Tree, r: Result<LM.ProcessImage, LM.Failure>)
    requires LB.BuildEffect(w, w', bt, image, E.Validate(image), tree, r)
    ensures Confined(w, w', {})
    ensures r.Ok? ==> SpaceInv(w', r.value.space, tree) && Elements(Own(r.value.space)) <= Elements(F.Pool(w.frames))
    ensures r.Ok? ==> tree.Values <= bt.Values + Elements(Own(r.value.space))
  {
    assert {} + Elements(F.Pool(w.frames)) == Elements(F.Pool(w.frames));
  }

  lemma MapConfined(w: World, s: Space, w': World, s': Space, tree': Tree)
    requires Kept(w, s, w', s') && SpaceInv(w', s', tree')
    ensures Confined(w, w', Elements(Own(s)))
    ensures Elements(Own(s')) <= Elements(Own(s)) + Elements(F.Pool(w.frames))
  {
    LB.KeptWrote(w, s, w', s');
    forall f | f !in Elements(Own(s)) + Elements(F.Pool(w.frames)) ensures SameFrame(w, w', f) { assert f !in Elements(Own(s')); }
  }

  lemma DestroyConfined(w: World, s: Space, w': World, s': Space, r: Result<Report, SpaceError>)
    requires FL.Distinct(Own(s)) && DestroyEffect(w, s, w', s', r)
    ensures Confined(w, w', Elements(Own(s)))
  {
    ReturnedOwn(s);
    var n := RoomFor(w.frames, |Returned(s)|);
    var back := Returned(s)[..n];
    MovedPool(F.InUse(w.frames), F.InUse(w'.frames), F.Pool(w.frames), F.Pool(w'.frames), Returned(s), n);
    assert forall f :: f in back ==> f in Returned(s);
    assert Elements(back) <= Elements(Own(s));
  }

  // ---- steps

  /** `OpStore`: a program writes a page of its own. */
  datatype Op =
    | OpCreate
    | OpBuild(activeRoot: nat, image: seq<Byte>)
    | OpMap(i: nat, virt: nat, writable: bool, executable: bool)
    | OpStore(i: nat, k: nat, data: seq<Byte>)
    | OpDestroy(i: nat, activeRoot: nat)

  predicate Permitted(y: System, op: Op)
  {
    match op
    case OpCreate => true
    case OpBuild(activeRoot, _) => activeRoot !in F.Pool(y.world.frames)
    case OpMap(i, _, _, _) => i < |y.spaces|
    case OpStore(i, k, _) => i < |y.spaces| && k < |y.spaces[i].pages|
    case OpDestroy(i, _) => i < |y.spaces|
  }

  function Without<T>(s: seq<T>, i: nat): seq<T>
    requires i < |s|
  {
    s[..i] + s[i + 1..]
  }

  function Joined(w: World, spaces: seq<Space>, made: Option<Space>): System
  {
    System(w, if made.Some? then spaces + [made.value] else spaces)
  }

  function Made<X>(r: Result<Space, X>): Option<Space> { if r.Ok? then Some(r.value) else None }

  function Loaded<X>(r: Result<LM.ProcessImage, X>): Option<Space> { if r.Ok? then Some(r.value.space) else None }

  function Step(y: System, boot: nat, op: Op): System
    requires Permitted(y, op)
  {
    match op
    case OpCreate => Joined(Create(y.world, boot).0, y.spaces, Made(Create(y.world, boot).1))
    case OpBuild(activeRoot, image) =>
      Joined(LM.Build(y.world, boot, activeRoot, image).0, y.spaces, Loaded(LM.Build(y.world, boot, activeRoot, image).1))
    case OpMap(i, virt, writable, executable) =>
      var mapped := MapUser(y.world, y.spaces[i], virt, writable, executable);
      System(mapped.0, y.spaces[i := mapped.1])
    case OpStore(i, k, data) => System(y.world.(bytes := y.world.bytes[y.spaces[i].pages[k].frame := data]), y.spaces)
    case OpDestroy(i, activeRoot) =>
      var gone := Destroy(y.world, y.spaces[i], activeRoot);
      if gone.2.Err? then y else System(gone.0, Without(y.spaces, i))
  }

  /** The frames of the space an operation works on. */
  ghost function Touched(y: System, op: Op): set<nat>
    requires Permitted(y, op)
  {
    if op.OpCreate? || op.OpBuild? then {} else Elements(Own(y.spaces[op.i]))
  }

  predicate Bystander(y: System, op: Op, j: nat) { j < |y.spaces| && (op.OpCreate? || op.OpBuild? || j != op.i) }

  /** Every bystander satisfies `p`. */
  ghost predicate OthersHold(p: (Space, Tree) -> bool, y: System, trees: seq<Tree>, op: Op)
  {
    forall j: nat :: Bystander(y, op, j) ==> HoldsAt(p, y.spaces, trees, j)
  }

  ghost predicate Unmoved(y: System, w': World, j: nat) { j < |y.spaces| && SameSpace(y.world, w', y.spaces[j]) }

  /** Every bystander has the same translations and contents. */
  ghost predicate OthersSame(y: System, op: Op, w': World) { forall j: nat :: Bystander(y, op, j) ==> Unmoved(y, w', j) }

  lemma TouchedApart(y: System, boot: nat, bt: Tree, trees: seq<Tree>, op: Op)
    requires SystemOk(y, boot, bt, trees) && Permitted(y, op)
    ensures Touched(y, op) !! bt.Values
    ensures forall j: nat :: Bystander(y, op, j) ==> Touched(y, op) !! Elements(Own(y.spaces[j]))
  {
    if !op.OpCreate? && !op.OpBuild? {
      assert HoldsAt(HousedIn(y.world, bt), y.spaces, trees, op.i);
      forall j: nat | Bystander(y, op, j) ensures Touched(y, op) !! Elements(Own(y.spaces[j])) { assert ApartAt(y.spaces, op.i, j); }
    }
  }

  lemma OneUnmoved(y: System, boot: nat, bt: Tree, trees: seq<Tree>, op: Op, w': World, j: nat)
    requires SystemOk(y, boot, bt, trees) && Permitted(y, op) && Confined(y.world, w', Touched(y, op)) && Bystander(y, op, j)
    ensures HoldsAt(HousedIn(w', bt), y.spaces, trees, j) && Unmoved(y, w', j)
  {
    TouchedApart(y, boot, bt, trees, op);
    assert HoldsAt(HousedIn(y.world, bt), y.spaces, trees, j);
    BystanderOk(y.world, w', boot, bt, y.spaces[j], trees[j], Touched(y, op));
  }

  lemma BystandersOk(y: System, boot: nat, bt: Tree, trees: seq<Tree>, op: Op, w': World)
    requires SystemOk(y, boot, bt, trees) && Permitted(y, op) && Confined(y.world, w', Touched(y, op))
    ensures Creatable(w', boot, bt) && KernelSame(y.world, w', boot, bt)
    ensures OthersHold(HousedIn(w', bt), y, trees, op) && OthersSame(y, op, w')
  {
    TouchedApart(y, boot, bt, trees, op);
    KernelStays(y.world, w', boot, bt, Touched(y, op));
    forall j: nat | Bystander(y, op, j) ensures HoldsAt(HousedIn(w', bt), y.spaces, trees, j) && Unmoved(y, w', j) { OneUnmoved(y, boot, bt, trees, op, w', j); }
  }

  /** Free frames belong neither to the kernel's tables nor to any space. */
  lemma FreshApart(y: System, boot: nat, bt: Tree, trees: seq<Tree>, j: nat)
    requires SystemOk(y, boot, bt, trees) && j < |y.spaces|
    ensures Elements(F.Pool(y.world.frames)) !! Elements(Own(y.spaces[j]))
  {
    PoolApart(y.world.frames);
    assert HoldsAt(HousedIn(y.world, bt), y.spaces, trees, j);
  }

  lemma FreshKernel(w: World, boot: nat, bt: Tree)
    requires Creatable(w, boot, bt)
    ensures Elements(F.Pool(w.frames)) !! bt.Values
  {
    var pool := F.Pool(w.frames);
    forall v | v in Elements(pool) ensures v !in bt.Values { var k :| 0 <= k < |pool| && pool[k] == v; }
  }

  // ---- the list of spaces

  lemma JoinApart(spaces: seq<Space>, s: Space)
    requires Apart(spaces) && forall j: nat :: j < |spaces| ==> Elements(Own(s)) !! Elements(Own(spaces[j]))
    ensures Apart(spaces + [s])
  {
    var all := spaces + [s];
    forall i: nat, j: nat | i < |all| && j < |all| && i != j ensures ApartAt(all, i, j) {
      assert i < |spaces| && j < |spaces| ==> ApartAt(spaces, i, j);
    }
  }

  lemma ReplaceApart(spaces: seq<Space>, k: nat, s: Space)
    requires Apart(spaces) && k < |spaces| && forall j: nat :: j < |spaces| && j != k ==> Elements(Own(s)) !! Elements(Own(spaces[j]))
    ensures Apart(spaces[k := s])
  {
    var all := spaces[k := s];
    forall i: nat, j: nat | i < |all| && j < |all| && i != j ensures ApartAt(all, i, j) { assert ApartAt(spaces, i, j); }
  }

  lemma WithoutApart(spaces: seq<Space>, k: nat)
    requires Apart(spaces) && k < |spaces|
    ensures Apart(Without(spaces, k))
  {
    var all := Without(spaces, k);
    forall i: nat, j: nat | i < |all| && j < |all| && i != j ensures ApartAt(all, i, j) {
      assert ApartAt(spaces, Before(k, i), Before(k, j));
      assert all[i] == spaces[Before(k, i)] && all[j] == spaces[Before(k, j)];
    }
  }

  /** The index an element had before the one at `k` was taken out. */
  function Before(k: nat, i: nat): nat { if i < k then i else i + 1 }

  lemma RemovedHold(p: (Space, Tree) -> bool, y: System, trees: seq<Tree>, op: Op)
    requires |trees| == |y.spaces| && op.OpDestroy? && op.i < |y.spaces| && OthersHold(p, y, trees, op)
    ensures HoldsForAll(p, Without(y.spaces, op.i), Without(trees, op.i))
  {
    var (spaces, trees') := (Without(y.spaces, op.i), Without(trees, op.i));
    forall i: nat | i < |spaces| ensures HoldsAt(p, spaces, trees', i) {
      assert Bystander(y, op, Before(op.i, i));
      assert HoldsAt(p, y.spaces, trees, Before(op.i, i));
    }
  }

  lemma ReplacedHold(p: (Space, Tree) -> bool, y: System, trees: seq<Tree>, op: Op, s: Space, tree: Tree)
    requires |trees| == |y.spaces| && op.OpMap? && op.i < |y.spaces| && OthersHold(p, y, trees, op) && p(s, tree)
    ensures HoldsForAll(p, y.spaces[op.i := s], trees[op.i := tree])
  {
    var (spaces, trees') := (y.spaces[op.i := s], trees[op.i := tree]);
    forall i: nat | i < |spaces| ensures HoldsAt(p, spaces, trees', i) {
      assert i != op.i ==> Bystander(y, op, i) && HoldsAt(p, y.spaces, trees, i);
    }
  }

  lemma JoinedHold(p: (Space, Tree) -> bool, y: System, trees: seq<Tree>, op: Op, s: Space, tree: Tree)
    requires |trees| == |y.spaces| && (op.OpCreate? || op.OpBuild?) && OthersHold(p, y, trees, op)
    ensures HoldsForAll(p, y.spaces, trees)
    ensures p(s, tree) ==> HoldsForAll(p, y.spaces + [s], trees + [tree])
  {
    forall i: nat | i < |y.spaces| ensures HoldsAt(p, y.spaces, trees, i) { assert Bystander(y, op, i); }
    var (spaces, trees') := (y.spaces + [s], trees + [tree]);
    if p(s, tree) {
      forall i: nat | i < |spaces| ensures HoldsAt(p, spaces, trees', i) {
        assert i < |y.spaces| ==> HoldsAt(p, y.spaces, trees, i);
      }
    }
  }

  lemma SameMove(y: System, op: Op, y': System, j: nat)
    requires Unmoved(y, y'.world, j) && After(y, op, y', j) < |y'.spaces| && y'.spaces[After(y, op, y', j)] == y.spaces[j]
    ensures SameAt(y, op, y', j)
  {
  }

  /** What holds after a step: the system is sound, the kernel and all bystanders are as they were. */
  ghost predicate Isolated(y: System, boot: nat, bt: Tree, op: Op, y': System, trees': seq<Tree>)
    requires Permitted(y, op)
  {
    && Confined(y.world, y'.world, Touched(y, op))
    && KernelSame(y.world, y'.world, boot, bt) && BystandersSame(y, op, y') && SystemOk(y', boot, bt, trees')
  }

  /** Where space `j` is found after the operation. */
  function After(y: System, op: Op, y': System, j: nat): nat
  {
    if op.OpDestroy? && |y'.spaces| < |y.spaces| && j > op.i then j - 1 else j
  }

  ghost predicate SameAt(y: System, op: Op, y': System, j: nat)
  {
    && j < |y.spaces| && After(y, op, y', j) < |y'.spaces| && y'.spaces[After(y, op, y', j)] == y.spaces[j]
    && SameSpace(y.world, y'.world, y.spaces[j])
  }

  ghost predicate BystandersSame(y: System, op: Op, y': System) { forall j: nat :: Bystander(y, op, j) ==> SameAt(y, op, y', j) }

  lemma JoinStep(y: System, boot: nat, bt: Tree, trees: seq<Tree>, op: Op, w': World, made: Option<Space>, tree: Tree) returns (trees': seq<Tree>)
    requires SystemOk(y, boot, bt, trees) && Permitted(y, op) && (op.OpCreate? || op.OpBuild?) && Confined(y.world, w', {})
    requires made.Some? ==> SpaceInv(w', made.value, tree) && tree.Values <= bt.Values + Elements(Own(made.value))
    requires made.Some? ==> Elements(Own(made.value)) <= Elements(F.Pool(y.world.frames))
    ensures Isolated(y, boot, bt, op, Joined(w', y.spaces, made), trees')
  {
    BystandersOk(y, boot, bt, trees, op, w');
    trees' := if made.Some? then trees + [tree] else trees;
    var y' := Joined(w', y.spaces, made);
    JoinedSame(y, op, y');
    JoinedHold(HousedIn(w', bt), y, trees, op, if made.Some? then made.value else NO_SPACE, tree);
    if made.Some? {
      NewHoused(y.world, w', boot, bt, made.value, tree);
      forall j: nat | j < |y.spaces| ensures Elements(Own(made.value)) !! Elements(Own(y.spaces[j])) { FreshApart(y, boot, bt, trees, j); }
      JoinApart(y.spaces, made.value);
    }
  }

  lemma JoinedSame(y: System, op: Op, y': System)
    requires OthersSame(y, op, y'.world) && |y.spaces| <= |y'.spaces| && y'.spaces[..|y.spaces|] == y.spaces
    ensures BystandersSame(y, op, y')
  {
    forall j: nat | Bystander(y, op, j) ensures SameAt(y, op, y', j) {
      assert y'.spaces[j] == y'.spaces[..|y.spaces|][j];
      SameMove(y, op, y', j);
    }
  }

  /** The new space is made of free frames. */
  lemma NewHoused(w: World, w': World, boot: nat, bt: Tree, s: Space, tree: Tree)
    requires Creatable(w, boot, bt) && SpaceInv(w', s, tree) && tree.Values <= bt.Values + Elements(Own(s))
    requires Elements(Own(s)) <= Elements(F.Pool(w.frames))
    ensures HousedIn(w', bt)(s, tree)
  {
    FreshKernel(w, boot, bt);
  }

  lemma MapStep(y: System, boot: nat, bt: Tree, trees: seq<Tree>, op: Op) returns (trees': seq<Tree>)
    requires SystemOk(y, boot, bt, trees) && Permitted(y, op) && op.OpMap?
    ensures Isolated(y, boot, bt, op, Step(y, boot, op), trees')
  {
    var s := y.spaces[op.i];
    assert HoldsAt(HousedIn(y.world, bt), y.spaces, trees, op.i);
    var tree' := MapUserOk(y.world, s, trees[op.i], op.virt, op.writable, op.executable);
    var mapped := MapUser(y.world, s, op.virt, op.writable, op.executable);
    trees' := trees[op.i := tree'];
    MapConfined(y.world, s, mapped.0, mapped.1, tree');
    ReplaceStep(y, boot, bt, trees, op, mapped.0, mapped.1, tree');
  }

  lemma ReplaceStep(y: System, boot: nat, bt: Tree, trees: seq<Tree>, op: Op, w': World, s': Space, tree': Tree)
    requires SystemOk(y, boot, bt, trees) && Permitted(y, op) && op.OpMap? && Confined(y.world, w', Elements(Own(y.spaces[op.i])))
    requires SpaceInv(w', s', tree') && Elements(Own(y.spaces[op.i])) <= Elements(Own(s'))
    requires tree'.Values <= trees[op.i].Values + Elements(Own(s'))
    requires Elements(Own(s')) <= Elements(Own(y.spaces[op.i])) + Elements(F.Pool(y.world.frames))
    ensures Isolated(y, boot, bt, op, System(w', y.spaces[op.i := s']), trees[op.i := tree'])
  {
    BystandersOk(y, boot, bt, trees, op, w');
    HousedFrames(y, boot, bt, trees, op.i);
    FreshKernel(y.world, boot, bt);
    GrownHoused(w', bt, Elements(Own(y.spaces[op.i])), trees[op.i].Values, Elements(F.Pool(y.world.frames)), s', tree');
    ReplacedHold(HousedIn(w', bt), y, trees, op, s', tree');
    forall j: nat | j < |y.spaces| && j != op.i ensures Elements(Own(s')) !! Elements(Own(y.spaces[j])) {
      FreshApart(y, boot, bt, trees, j);
      assert ApartAt(y.spaces, op.i, j);
    }
    ReplaceApart(y.spaces, op.i, s');
    ReplacedSame(y, op, System(w', y.spaces[op.i := s']), s');
  }

  lemma ReplacedSame(y: System, op: Op, y': System, s': Space)
    requires OthersSame(y, op, y'.world) && (op.OpMap? || op.OpStore?) && op.i < |y.spaces| && y'.spaces == y.spaces[op.i := s']
    ensures BystandersSame(y, op, y')
  {
    forall j: nat | Bystander(y, op, j) ensures SameAt(y, op, y', j) { SameMove(y, op, y', j); }
  }

  lemma HousedFrames(y: System, boot: nat, bt: Tree, trees: seq<Tree>, i: nat)
    requires SystemOk(y, boot, bt, trees) && i < |y.spaces|
    ensures trees[i].Values <= bt.Values + Elements(Own(y.spaces[i])) && Elements(Own(y.spaces[i])) !! bt.Values
  {
    assert HoldsAt(HousedIn(y.world, bt), y.spaces, trees, i);
  }

  lemma GrownHoused(w': World, bt: Tree, own: set<nat>, values: set<nat>, pool: set<nat>, s': Space, tree': Tree)
    requires SpaceInv(w', s', tree') && own <= Elements(Own(s')) <= own + pool && tree'.Values <= values + Elements(Own(s'))
    requires values <= bt.Values + own && own !! bt.Values && pool !! bt.Values
    ensures HousedIn(w', bt)(s', tree')
  {
  }

  lemma DestroyStep(y: System, boot: nat, bt: Tree, trees: seq<Tree>, op: Op) returns (trees': seq<Tree>)
    requires SystemOk(y, boot, bt, trees) && Permitted(y, op) && op.OpDestroy?
    ensures Isolated(y, boot, bt, op, Step(y, boot, op), trees')
  {
    var s := y.spaces[op.i];
    var gone := Destroy(y.world, s, op.activeRoot);
    assert FL.Distinct(Own(s)) && (if op.activeRoot == s.root then gone.2.Err? else DestroyEffect(y.world, s, gone.0, gone.1, gone.2)) by {
      assert HoldsAt(HousedIn(y.world, bt), y.spaces, trees, op.i);
      DestroyExact(y.world, s, trees[op.i], op.activeRoot);
    }
    if op.activeRoot == s.root {
      trees' := trees;
      UnchangedStep(y, boot, bt, trees, op);
    } else {
      DestroyConfined(y.world, s, gone.0, gone.1, gone.2);
      trees' := Without(trees, op.i);
      RemoveStep(y, boot, bt, trees, op, gone.0);
    }
  }

  lemma RemoveStep(y: System, boot: nat, bt: Tree, trees: seq<Tree>, op: Op, w': World)
    requires SystemOk(y, boot, bt, trees) && Permitted(y, op) && op.OpDestroy? && Confined(y.world, w', Elements(Own(y.spaces[op.i])))
    ensures Isolated(y, boot, bt, op, System(w', Without(y.spaces, op.i)), Without(trees, op.i))
  {
    BystandersOk(y, boot, bt, trees, op, w');
    WithoutApart(y.spaces, op.i);
    RemovedHold(HousedIn(w', bt), y, trees, op);
    RemovedSame(y, op, w');
  }

  lemma RemovedSame(y: System, op: Op, w': World)
    requires op.OpDestroy? && op.i < |y.spaces| && OthersSame(y, op, w')
    ensures BystandersSame(y, op, System(w', Without(y.spaces, op.i)))
  {
    var y' := System(w', Without(y.spaces, op.i));
    forall j: nat | Bystander(y, op, j) ensures SameAt(y, op, y', j) { SameMove(y, op, y', j); }
  }

  lemma UnchangedStep(y: System, boot: nat, bt: Tree, trees: seq<Tree>, op: Op)
    requires SystemOk(y, boot, bt, trees) && Permitted(y, op)
    ensures Isolated(y, boot, bt, op, y, trees)
  {
    forall j: nat | Bystander(y, op, j) ensures SameAt(y, op, y, j) {}
  }

  lemma StoreStep(y: System, boot: nat, bt: Tree, trees: seq<Tree>, op: Op)
    requires SystemOk(y, boot, bt, trees) && Permitted(y, op) && op.OpStore?
    ensures Isolated(y, boot, bt, op, Step(y, boot, op), trees)
  {
    var (s, y') := (y.spaces[op.i], Step(y, boot, op));
    StoreConfined(y.world, y'.world, s, op.k, op.data);
    BystandersOk(y, boot, bt, trees, op, y'.world);
    forall i: nat | i < |y.spaces| ensures HoldsAt(HousedIn(y'.world, bt), y.spaces, trees, i) {
      assert HoldsAt(HousedIn(y.world, bt), y.spaces, trees, i);
      LB.BytesOnly(y.world, y.spaces[i], trees[i], y'.world);
    }
    ReplacedSame(y, op, y', s);
  }

  lemma StoreConfined(w: World, w': World, s: Space, k: nat, data: seq<Byte>)
    requires FL.Inv(w.frames) && k < |s.pages| && w' == w.(bytes := w.bytes[s.pages[k].frame := data])
    ensures Confined(w, w', Elements(Own(s)))
  {
    assert Own(s)[|s.tables| + k] == s.pages[k].frame;
    forall f | f !in Elements(Own(s)) + Elements(F.Pool(w.frames)) ensures SameFrame(w, w', f) { assert f != s.pages[k].frame; }
  }

  /** Creating, building, mapping, writing and destroying leave the kernel and every other space alone. */
  lemma StepIsolates(y: System, boot: nat, bt: Tree, trees: seq<Tree>, op: Op) returns (trees': seq<Tree>)
    requires SystemOk(y, boot, bt, trees) && Permitted(y, op)
    ensures Isolated(y, boot, bt, op, Step(y, boot, op), trees')
  {
    if op.OpCreate? {
      trees' := CreateStep(y, boot, bt, trees, op);
    } else if op.OpBuild? {
      trees' := BuildStep(y, boot, bt, trees, op);
    } else if op.OpMap? {
      trees' := MapStep(y, boot, bt, trees, op);
    } else if op.OpStore? {
      trees' := trees;
      StoreStep(y, boot, bt, trees, op);
    } else {
      trees' := DestroyStep(y, boot, bt, trees, op);
    }
  }

  lemma CreateStep(y: System, boot: nat, bt: Tree, trees: seq<Tree>, op: Op) returns (trees': seq<Tree>)
    requires SystemOk(y, boot, bt, trees) && Permitted(y, op) && op.OpCreate?
    ensures Isolated(y, boot, bt, op, Step(y, boot, op), trees')
  {
    var tree := CreateOk(y.world, boot, bt);
    var r := Create(y.world, boot);
    CreateConfined(y.world, r.0, boot, bt, tree, r.1);
    if r.1.Ok? { CreatedNew(y.world, r.0, boot, bt, tree, r.1.value); }
    trees' := JoinStep(y, boot, bt, trees, op, r.0, Made(r.1), tree);
  }

  lemma BuildStep(y: System, boot: nat, bt: Tree, trees: seq<Tree>, op: Op) returns (trees': seq<Tree>)
    requires SystemOk(y, boot, bt, trees) && Permitted(y, op) && op.OpBuild?
    ensures Isolated(y, boot, bt, op, Step(y, boot, op), trees')
  {
    var tree := LB.BuildOk(y.world, boot, bt, op.activeRoot, op.image);
    var r := LM.Build(y.world, boot, op.activeRoot, op.image);
    BuildConfined(y.world, r.0, bt, op.image, tree, r.1);
    trees' := JoinStep(y, boot, bt, trees, op, r.0, Loaded(r.1), tree);
  }

  // ---- runs

  /** The system after `ops`; None if one of them was not permitted. */
  function Reach(y: System, boot: nat, ops: seq<Op>): Option<System>
  {
    if ops == [] then Some(y)
    else
      match Reach(y, boot, ops[..|ops| - 1])
      case None => None
      case Some(z) => if Permitted(z, ops[|ops| - 1]) then Some(Step(z, boot, ops[|ops| - 1])) else None
  }

  /** In every reachable state all spaces are sound and no two share a frame, and the kernel sees what it saw at first. */
  lemma {:induction false} RunIsolates(w: World, boot: nat, bt: Tree, ops: seq<Op>) returns (trees: seq<Tree>)
    requires Creatable(w, boot, bt) && Reach(System(w, []), boot, ops).Some?
    ensures var y := Reach(System(w, []), boot, ops).value;
            SystemOk(y, boot, bt, trees) && forall va :: Walk(y.world.mem, boot, Path(va)) == Walk(w.mem, boot, Path(va))
  {
    if ops == [] {
      trees := [];
    } else {
      var before := ops[..|ops| - 1];
      var t := RunIsolates(w, boot, bt, before);
      trees := StepIsolates(Reach(System(w, []), boot, before).value, boot, bt, t, ops[|ops| - 1]);
    }
  }

  /** For the kernel's mapper, whatever happens to address spaces is something other clients are permitted to do. */
  lemma SpacesPermitted(k: PB.Kernel, y: System, bt: Tree, trees: seq<Tree>, op: Op)
    requires PB.KernelOk(k, bt) && k.mapper.mem == y.world.mem && SystemOk(y, k.mapper.root, bt, trees) && Permitted(y, op)
    ensures var w' := Step(y, k.mapper.root, op).world; PB.Permitted(k, PB.OpOthers(F.Pool(w'.frames), w'.mem))
  {
    var boot := k.mapper.root;
    var y' := Step(y, boot, op);
    var t := StepIsolates(y, boot, bt, trees, op);
    TouchedApart(y, boot, bt, trees, op);
    UntouchedFrames(y.world, y'.world, boot, bt, {}, Touched(y, op));
    assert PB.Spare(F.Pool(y'.world.frames), bt.Values);
    forall f | f in bt.Values && f in y.world.mem ensures f in y'.world.mem && y'.world.mem[f] == y.world.mem[f] {
      assert SameFrame(y.world, y'.world, f);
    }
  }
}
