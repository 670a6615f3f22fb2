/** What creating, mapping in, destroying and auditing an address space answer, and why they refuse. */
module SpaceAnswers {
  import opened Common
  import opened PagingModel
  import opened PagingTree
  import opened PagingLaws
  import opened SpaceModel
  import opened SpaceFrames
  import opened SpaceTree
  import opened SpaceLaws
  import opened SpaceMap
  import opened SpaceUser
  import opened SpaceLife
  import LM = LoaderModel
  import F = PhysmemModel
  import FL = PhysmemLaws

  // ---- frames

  function Shortage(supply: Supply): SpaceError { if supply.RunsOut? then NoFrames else FrameNotReachable }

  /** The next frame of the pool, if there is one and the kernel can reach it. */
  lemma TakeAnswer(w: World)
    requires FL.Inv(w.frames)
    ensures var (pool, r) := (F.Pool(w.frames), TakeZeroed(w).1);
            match SupplyFor(pool, 1) case Enough => r == Ok(pool[0]) && F.Pool(TakeZeroed(w).0.frames) == pool[1..] case short => r == Err(Shortage(short))
    ensures TakeZeroed(w).1.Ok? ==> FL.Inv(TakeZeroed(w).0.frames)
  {
    FL.AllocateRefines(w.frames);
    SupplyStep(F.Pool(w.frames), 0);
  }

  lemma AddAnswer(w: World, s: Space)
    requires FL.Inv(w.frames) && |s.tables| < MAX_TABLES
    ensures var (w', s', r) := AddTable(w, s);
            && (match SupplyFor(F.Pool(w.frames), 1)
                case Enough => r.Ok? && F.Pool(w'.frames) == F.Pool(w.frames)[1..] && |s'.tables| == |s.tables| + 1
                case short => r == Err(Shortage(short)))
            && (r.Ok? ==> FL.Inv(w'.frames))
  {
    TakeAnswer(w);
  }

  lemma SupplySplit(pool: seq<nat>, n: nat)
    ensures SupplyFor(pool, n + 1) == if SupplyFor(pool, 1).Enough? then SupplyFor(pool[1..], n) else SupplyFor(pool, 1)
  {
    SupplyStep(pool, n);
    SupplyStep(pool, 0);
  }

  // ---- creation

  lemma ThreeAnswer(w: World)
    requires FL.Inv(w.frames)
    ensures AddThree(w).2 == match SupplyFor(F.Pool(w.frames), 3) case Enough => None case short => Some(Shortage(short))
  {
    var pool := F.Pool(w.frames);
    SupplySplit(pool, 2);
    AddAnswer(w, NO_SPACE);
    var (w1, s1, r1) := AddTable(w, NO_SPACE);
    if r1.Ok? {
      SupplySplit(pool[1..], 1);
      AddAnswer(w1, s1);
      var (w2, s2, r2) := AddTable(w1, s1);
      if r2.Ok? { AddAnswer(w2, s2); }
    }
  }

  /** A space is created, or refused for want of frames: none left, or the next one out of reach. */
  lemma CreateAnswer(w: World, boot: nat, bt: Tree)
    requires Creatable(w, boot, bt)
    ensures match SupplyFor(F.Pool(w.frames), 3)
            case Enough => Create(w, boot).1.Ok? && Create(w, boot).1.value.tables == F.Pool(w.frames)[..3] && Create(w, boot).1.value.root == F.Pool(w.frames)[0]
            case short => Create(w, boot).1 == Err(Shortage(short))
  {
    ThreeAnswer(w);
    var tree := CreateOk(w, boot, bt);
    AddThreeOk(w);
    if Create(w, boot).1.Ok? {
      CreatedTables(w, boot, Create(w, boot).1.value);
    } else {
      FailedShape(w, boot);
    }
  }

  lemma CreatedTables(w: World, boot: nat, s: Space)
    requires Create(w, boot).1 == Ok(s)
    ensures |s.tables| >= 3 && s.root == s.tables[0] && s.pages == [] && s.tables == Own(s)
  {
    assert PageFrames(s) == [];
  }

  lemma FailedShape(w: World, boot: nat)
    requires AddThree(w).2.Some?
    ensures Create(w, boot).1 == Err(AddThree(w).2.value)
  {
  }

  // ---- mapping

  ghost function MapVerdict(w: World, s: Space, virt: nat): Option<SpaceError>
  {
    if virt % 4096 != 0 then Some(SpaceUnaligned)
    else if !(0x4000_0000 <= virt < 0x4100_0000) then Some(OutsideUserRange)
    else if |s.pages| >= 65 then Some(PageCapacity)
    else if UserWalk(w, s, virt).Some? then Some(PageMapped)
    else match SupplyFor(F.Pool(w.frames), TablesMissing(w.mem, s.root, Path(virt)) + 1) case Enough => None case short => Some(Shortage(short))
  }

  /** A user page is mapped, or refused for the first reason that applies. */
  lemma MapAnswer(w: World, s: Space, tree: Tree, virt: nat, writable: bool, executable: bool)
    requires SpaceInv(w, s, tree)
    ensures match MapVerdict(w, s, virt)
            case None => MapUser(w, s, virt, writable, executable).2.Ok?
            case Some(e) => MapUser(w, s, virt, writable, executable).2 == Err(e)
  {
    RootOk(w, s, tree);
    if Free(w, s, virt) {
      SpineWalk(w, s, tree);
      UserIndices(virt);
      MapUserShape(w, s, virt, writable, executable, tree[USER_PATH]);
      UserMissing(w, s, tree, virt);
      BelowAnswer(w, s, tree, virt, writable, executable);
    } else {
      RefusedAnswer(w, s, virt, writable, executable);
    }
  }

  lemma RefusedAnswer(w: World, s: Space, virt: nat, writable: bool, executable: bool)
    requires s.active && s.root != 0 && s.root < IDENTITY_BYTES && Aligned(s.root) && !Free(w, s, virt)
    ensures MapVerdict(w, s, virt).Some? && MapUser(w, s, virt, writable, executable) == (w, s, Err(MapVerdict(w, s, virt).value))
  {
  }

  lemma BelowAnswer(w: World, s: Space, tree: Tree, virt: nat, writable: bool, executable: bool)
    requires SpaceInv(w, s, tree) && Free(w, s, virt)
    ensures var n := if Path(virt)[..3] in tree then 1 else 2;
            match SupplyFor(F.Pool(w.frames), n)
            case Enough => SpaceUser.MapBelow(w, s, tree[USER_PATH], virt, writable, executable).2.Ok?
            case short => SpaceUser.MapBelow(w, s, tree[USER_PATH], virt, writable, executable).2 == Err(Shortage(short))
  {
    UserMissing(w, s, tree, virt);
    var tree1 := LastTableOk(w, s, tree, virt);
    var (w1, s1, r1) := LastTable(w, s, tree[USER_PATH], Index(virt, 2));
    LastAnswer(w, s, tree, virt);
    SupplySplit(F.Pool(w.frames), 1);
    if r1.Ok? { PageAnswer(w1, s1, tree1, r1.value, virt, writable, executable); }
  }

  lemma LastAnswer(w: World, s: Space, tree: Tree, virt: nat)
    requires SpaceInv(w, s, tree) && InUser(virt) && LeafAt(w.mem, tree, Path(virt)).None?
    ensures var (w1, s1, r1) := LastTable(w, s, tree[USER_PATH], Index(virt, 2));
            if Path(virt)[..3] in tree then r1.Ok? && F.Pool(w1.frames) == F.Pool(w.frames)
            else match SupplyFor(F.Pool(w.frames), 1)
                 case Enough => r1.Ok? && F.Pool(w1.frames) == F.Pool(w.frames)[1..]
                 case short => r1 == Err(Shortage(short))
  {
    UserIndices(virt);
    assert EntryOk(w.mem, tree, USER_PATH, Index(virt, 2));
    if Path(virt)[..3] !in tree {
      RoomForTable(s, tree, Index(virt, 2), 0);
      AddAnswer(w, s);
    }
  }

  lemma PageAnswer(w: World, s: Space, tree: Tree, p1: nat, virt: nat, writable: bool, executable: bool)
    requires FL.Inv(w.frames) && TreeOk(w.mem, s.root, tree) && Path(virt)[..3] in tree && tree[Path(virt)[..3]] == p1
    requires LeafAt(w.mem, tree, Path(virt)).None?
    ensures var r := EnterUser(w, s, p1, virt, writable, executable).2;
            match SupplyFor(F.Pool(w.frames), 1) case Enough => r.Ok? case short => r == Err(Shortage(short))
  {
    TakeAnswer(w);
  }

  // ---- destruction and audit

  /** A space that is gone already is destroyed again without effect. */
  lemma DestroyAgain(w: World, s: Space, activeRoot: nat)
    requires !s.active
    ensures Destroy(w, s, activeRoot) == (w, s, Ok(Report(0, 0, true)))
  {
  }

  /** The page is where the list says, with the rights the list says, open to the user and not both writable and executable. */
  ghost predicate PageTrue(w: World, s: Space, p: MappedPage)
  {
    match SpaceWalk(w.mem, s, p.virt)
    case None => false
    case Some(l) =>
      && l.frame + p.virt % (if l.huge then 0x20_0000 else 4096) == p.frame && l.user && l.writable == p.writable && l.executable == p.executable
      && !(l.writable && l.executable)
  }

  /** In any state: the audit passes exactly if the space is in use, its whole page list is true and the stack guard is unmapped. */
  lemma AuditAnswer(w: World, s: Space)
    ensures LM.AuditPasses(w, s) <==>
              && s.active && s.root != 0 && (forall k :: 0 <= k < |s.pages| ==> PageTrue(w, s, s.pages[k]))
              && SpaceWalk(w.mem, s, 0x4020_0000).None?
  {
    forall k | 0 <= k < |s.pages|
      ensures PageTrue(w, s, s.pages[k]) <==>
                && LM.PageMatches(s.pages[k], SpaceTranslate(w, s, s.pages[k].virt))
                && !(SpaceTranslate(w, s, s.pages[k].virt).writable && SpaceTranslate(w, s, s.pages[k].virt).executable)
    {
    }
  }
}
