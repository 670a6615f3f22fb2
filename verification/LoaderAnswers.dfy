/** Why a process image is not built, and what its caller is told when it is. */
module LoaderAnswers {
  import opened Common
  import opened PagingModel
  import opened PagingTree
  import opened PagingLaws
  import opened SpaceModel
  import opened SpaceTree
  import opened SpaceLaws
  import opened SpaceMap
  import opened SpaceUser
  import opened SpaceLife
  import opened LoaderModel
  import SA = SpaceAnswers
  import LP = LoaderPages
  import LB = LoaderBuild
  import E = ElfModel
  import EL = ElfLaws
  import F = PhysmemModel
  import FL = PhysmemLaws

  /** Frames are asked for one after the other: the first `a` decide unless they are there. */
  lemma {:induction false} SupplyInTurn(pool: seq<nat>, a: nat, b: nat)
    ensures SupplyFor(pool, a + b)
            == if SupplyFor(pool, a).Enough? then SupplyFor(if a <= |pool| then pool[a..] else [], b) else SupplyFor(pool, a)
    decreases a
  {
    if a == 0 {
      assert pool[0..] == pool;
    } else {
      SupplyStep(pool, a - 1 + b);
      SupplyStep(pool, a - 1);
      if pool != [] {
        SupplyInTurn(pool[1..], a - 1, b);
        if a <= |pool| { assert pool[1..][a - 1..] == pool[a..]; }
      }
    }
  }

  function Refusal(supply: Supply): Option<SpaceError> { if supply.Enough? then None else Some(SA.Shortage(supply)) }

  /** What the first page costs depends on whether its 2 MiB have a table. */
  function FirstCost(requests: seq<Request>, covered: set<nat>): nat
    requires requests != []
  {
    if Index(requests[0].virt, 2) in covered then 1 else 2
  }

  /** The pages that may still be mapped, each of them where nothing is mapped. */
  ghost predicate ToMap(w: World, s: Space, tree: Tree, requests: seq<Request>)
  {
    && SpaceInv(w, s, tree) && LP.RequestsOk(requests)
    && |s.pages| + |requests| <= MAX_PAGES && LP.Unmapped(w, s, requests)
  }

  lemma FirstRefusal(w: World, s: Space, tree: Tree, requests: seq<Request>)
    requires ToMap(w, s, tree, requests) && requests != []
    ensures var q := requests[0];
            var r := MapUser(w, s, q.virt, q.writable, q.executable).2;
            (if r.Ok? then None else Some(r.error)) == Refusal(SupplyFor(F.Pool(w.frames), FirstCost(requests, UserTables(tree))))
  {
    var q := requests[0];
    assert LP.RequestOk(q);
    SA.MapAnswer(w, s, tree, q.virt, q.writable, q.executable);
    FreeVerdict(w, s, tree, q.virt);
  }

  /** Where nothing is mapped, only frames can be missing. */
  lemma FreeVerdict(w: World, s: Space, tree: Tree, virt: nat)
    requires SpaceInv(w, s, tree) && Aligned(virt) && InUser(virt) && |s.pages| < MAX_PAGES && UserWalk(w, s, virt).None?
    ensures SA.MapVerdict(w, s, virt) == Refusal(SupplyFor(F.Pool(w.frames), if Index(virt, 2) in UserTables(tree) then 1 else 2))
  {
    UserMissing(w, s, tree, virt);
    TableThere(tree, virt);
    VerdictShape(w, s, virt);
  }

  lemma TableThere(tree: Tree, virt: nat)
    requires InUser(virt)
    ensures Path(virt)[..3] in tree <==> Index(virt, 2) in UserTables(tree)
  {
    UserIndices(virt);
  }

  lemma VerdictShape(w: World, s: Space, virt: nat)
    requires Aligned(virt) && InUser(virt) && |s.pages| < MAX_PAGES && UserWalk(w, s, virt).None?
    ensures SA.MapVerdict(w, s, virt) == Refusal(SupplyFor(F.Pool(w.frames), TablesMissing(w.mem, s.root, Path(virt)) + 1))
  {
  }

  /** What is left once the first page is mapped. */
  lemma RestToMap(w: World, s: Space, tree: Tree, requests: seq<Request>, w1: World, s1: Space, tree1: Tree, f: nat)
    requires ToMap(w, s, tree, requests) && requests != []
    requires MapUserSpec(w, s, tree, tree1, requests[0].virt, requests[0].writable, requests[0].executable, w1, s1, Ok(f))
    ensures ToMap(w1, s1, tree1, requests[1..]) && Drew(w, tree, w1, tree1, requests[0].virt)
  {
    LP.StillUnmapped(w, s, w1, requests, Leaf(f, false, true, requests[0].writable, requests[0].executable));
    LP.RestOk(requests);
  }

  lemma MapAllStep(w: World, s: Space, requests: seq<Request>, mapped: (World, Space, Result<nat, SpaceError>))
    requires requests != [] && mapped == MapUser(w, s, requests[0].virt, requests[0].writable, requests[0].executable)
    ensures MapAll(w, s, requests).2
            == if mapped.2.Err? then Some(mapped.2.error) else MapAll(mapped.0, mapped.1, requests[1..]).2
  {
  }

  lemma CostInTurn(pool: seq<nat>, requests: seq<Request>, covered: set<nat>)
    requires requests != []
    ensures var (first, rest) := (FirstCost(requests, covered), LP.Cost(requests[1..], covered + {Index(requests[0].virt, 2)}));
            SupplyFor(pool, LP.Cost(requests, covered))
            == if SupplyFor(pool, first).Enough? then SupplyFor(if first <= |pool| then pool[first..] else [], rest) else SupplyFor(pool, first)
  {
    LP.CostStep(requests, covered);
    SupplyInTurn(pool, FirstCost(requests, covered), LP.Cost(requests[1..], covered + {Index(requests[0].virt, 2)}));
  }

  /** All pages: the pool decides whether and why the mapping stops. */
  lemma {:induction false} PagesRefusal(w: World, s: Space, tree: Tree, requests: seq<Request>)
    requires ToMap(w, s, tree, requests)
    ensures MapAll(w, s, requests).2 == Refusal(SupplyFor(F.Pool(w.frames), LP.Cost(requests, UserTables(tree))))
    decreases |requests|
  {
    if requests == [] {
      LP.NoCost(UserTables(tree));
    } else {
      var tree1 := MapUserOk(w, s, tree, requests[0].virt, requests[0].writable, requests[0].executable);
      FirstRefusal(w, s, tree, requests);
      RestRefusal(w, s, tree, requests, tree1, MapUser(w, s, requests[0].virt, requests[0].writable, requests[0].executable));
    }
  }

  lemma {:induction false} RestRefusal(w: World, s: Space, tree: Tree, requests: seq<Request>, tree1: Tree, mapped: (World, Space, Result<nat, SpaceError>))
    requires ToMap(w, s, tree, requests) && requests != []
    requires mapped == MapUser(w, s, requests[0].virt, requests[0].writable, requests[0].executable)
    requires MapUserSpec(w, s, tree, tree1, requests[0].virt, requests[0].writable, requests[0].executable, mapped.0, mapped.1, mapped.2)
    requires (if mapped.2.Ok? then None else Some(mapped.2.error)) == Refusal(SupplyFor(F.Pool(w.frames), FirstCost(requests, UserTables(tree))))
    ensures MapAll(w, s, requests).2 == Refusal(SupplyFor(F.Pool(w.frames), LP.Cost(requests, UserTables(tree))))
    decreases |requests|, 0
  {
    CostInTurn(F.Pool(w.frames), requests, UserTables(tree));
    MapAllStep(w, s, requests, mapped);
    if mapped.2.Ok? {
      RestToMap(w, s, tree, requests, mapped.0, mapped.1, tree1, mapped.2.value);
      PagesRefusal(mapped.0, mapped.1, tree1, requests[1..]);
    }
  }

  // ---- building

  /** The answer of a build: the image, or the complaint about the file or about the frames. */
  ghost predicate BuildVerdict(pool: seq<nat>, validated: Result<E.Plan, E.LoadError>, r: Result<ProcessImage, Failure>)
  {
    match validated
    case Err(e) => r == Err(BadImage(e))
    case Ok(plan) =>
      match Refusal(SupplyFor(pool, LB.ImageCost(plan)))
      case Some(e) => r == Err(SpaceFailed(e))
      case None => r.Ok? && r.value.entry == plan.entry && r.value.stackTop == 0x4020_2000
  }

  /**
   A bad image is refused with the loader's complaint; a good one exactly if the frames it needs,
   three tables first, cannot be had, and then for the reason they cannot. A built image has the
   entry point of the file and the top of its stack page.
   */
  lemma BuildAnswer(w: World, boot: nat, bt: Tree, activeRoot: nat, image: seq<Byte>)
    requires Creatable(w, boot, bt) && activeRoot !in F.Pool(w.frames)
    ensures BuildVerdict(F.Pool(w.frames), E.Validate(image), Build(w, boot, activeRoot, image).1)
    ensures E.Validate(image).Err? ==> Build(w, boot, activeRoot, image).0 == w
  {
    PlansInside(image);
    if E.Validate(image).Ok? {
      EL.ValidateSound(image);
      var plan := E.Validate(image).value;
      var tree := LB.BuildOk(w, boot, bt, activeRoot, image);
      SA.CreateAnswer(w, boot, bt);
      var founded := CreateOk(w, boot, bt);
      ContinueAnswer(w, Create(w, boot), boot, bt, founded, activeRoot, image, plan);
      BuiltAnswer(w, Build(w, boot, activeRoot, image).0, bt, image, plan, tree, Build(w, boot, activeRoot, image).1);
    }
  }

  /** A build that went through has entry and stack right; one that did not was short of frames. */
  lemma BuiltAnswer(
    w: World, w': World, bt: Tree, image: seq<Byte>, plan: E.Plan, tree: Tree, r: Result<ProcessImage, Failure>)
    requires LB.BuildEffect(w, w', bt, image, Ok(plan), tree, r)
    requires var refusal := Refusal(SupplyFor(F.Pool(w.frames), LB.ImageCost(plan))); refusal.Some? ==> r == Err(SpaceFailed(refusal.value))
    ensures BuildVerdict(F.Pool(w.frames), Ok(plan), r)
  {
    SuppliedOk(w, w', bt, image, plan, tree, r);
    if r.Ok? { BuiltParts(w, w', bt, image, plan, tree, r.value); }
  }

  lemma SuppliedOk(w: World, w': World, bt: Tree, image: seq<Byte>, plan: E.Plan, tree: Tree, r: Result<ProcessImage, Failure>)
    requires LB.BuildEffect(w, w', bt, image, Ok(plan), tree, r)
    ensures r.Ok? <==> Supplies(F.Pool(w.frames), LB.ImageCost(plan))
  {
  }

  lemma BuiltParts(w: World, w': World, bt: Tree, image: seq<Byte>, plan: E.Plan, tree: Tree, p: ProcessImage)
    requires LB.BuildEffect(w, w', bt, image, Ok(plan), tree, Ok(p))
    ensures p.entry == plan.entry && p.stackTop == STACK_TOP && Supplies(F.Pool(w.frames), LB.ImageCost(plan))
  {
    assert LB.LoadedImage(w, w', bt, image, plan, tree, p);
  }

  lemma ContinueAnswer(
    w: World, created: (World, Result<Space, SpaceError>), boot: nat, bt: Tree, founded: Tree, activeRoot: nat, image: seq<Byte>, plan: E.Plan)
    requires CreateEffect(w, created.0, boot, bt, founded, created.1) && (created.1.Ok? <==> Supplies(F.Pool(w.frames), 3))
    requires (if created.1.Ok? then None else Some(created.1.error)) == Refusal(SupplyFor(F.Pool(w.frames), 3))
    requires EL.PlanOk(plan, |image|) && FileInside(plan.segments, image)
    ensures var refusal := Refusal(SupplyFor(F.Pool(w.frames), LB.ImageCost(plan)));
            refusal.Some? ==> Continue(created, activeRoot, image, plan).1 == Err(SpaceFailed(refusal.value))
  {
    if created.1.Ok? {
      LB.CreatedFounded(w, created.0, boot, bt, founded, created.1.value);
      FoundedPool(w, created.0, created.1.value, bt, founded);
      TablesFirst(F.Pool(w.frames), F.Pool(created.0.frames), plan);
      LB.ContinueCreated(created, activeRoot, image, plan);
      PopulateAnswer(w, created.0, created.1.value, bt, founded, activeRoot, image, plan);
    } else {
      ShortOfTables(F.Pool(w.frames), plan);
      ContinueStops(created, activeRoot, image, plan);
    }
  }

  lemma FoundedPool(w: World, w1: World, s: Space, bt: Tree, tree: Tree)
    requires LB.Founded(w, w1, s, bt, tree)
    ensures 3 <= |F.Pool(w.frames)| && F.Pool(w1.frames) == F.Pool(w.frames)[3..] && Supplies(F.Pool(w.frames), 3)
  {
  }

  lemma TablesFirst(pool: seq<nat>, rest: seq<nat>, plan: E.Plan)
    requires 3 <= |pool| && rest == pool[3..] && Supplies(pool, 3)
    ensures SupplyFor(pool, LB.ImageCost(plan)) == SupplyFor(rest, LP.Cost(LP.AllRequests(plan), {}))
  {
    SupplyInTurn(pool, 3, LP.Cost(LP.AllRequests(plan), {}));
  }

  lemma ShortOfTables(pool: seq<nat>, plan: E.Plan)
    requires !Supplies(pool, 3)
    ensures SupplyFor(pool, LB.ImageCost(plan)) == SupplyFor(pool, 3)
  {
    SupplyInTurn(pool, 3, LP.Cost(LP.AllRequests(plan), {}));
  }

  lemma ContinueStops(created: (World, Result<Space, SpaceError>), activeRoot: nat, image: seq<Byte>, plan: E.Plan)
    requires FileInside(plan.segments, image) && created.1.Err?
    ensures Continue(created, activeRoot, image, plan).1 == Err(SpaceFailed(created.1.error))
  {
  }

  lemma PopulateAnswer(w: World, w1: World, s: Space, bt: Tree, tree: Tree, activeRoot: nat, image: seq<Byte>, plan: E.Plan)
    requires LB.Founded(w, w1, s, bt, tree) && EL.PlanOk(plan, |image|) && FileInside(plan.segments, image)
    ensures var refusal := Refusal(SupplyFor(F.Pool(w1.frames), LP.Cost(LP.AllRequests(plan), {})));
            refusal.Some? ==> Populate(w1, s, activeRoot, image, plan).1 == Err(SpaceFailed(refusal.value))
  {
    FoundedToMap(w, w1, s, bt, tree, image, plan);
    PagesRefusal(w1, s, tree, LP.AllRequests(plan));
    PopulateStops(w1, s, activeRoot, image, plan, MapAll(w1, s, LP.AllRequests(plan)));
  }

  lemma FoundedToMap(w: World, w1: World, s: Space, bt: Tree, tree: Tree, image: seq<Byte>, plan: E.Plan)
    requires LB.Founded(w, w1, s, bt, tree) && EL.PlanOk(plan, |image|)
    ensures ToMap(w1, s, tree, LP.AllRequests(plan)) && UserTables(tree) == {}
  {
    LP.AllRequestsOk(plan, |image|);
    LB.AllUnmapped(w1, s, LP.AllRequests(plan));
  }

  lemma PopulateStops(
    w: World, s: Space, activeRoot: nat, image: seq<Byte>, plan: E.Plan, mapped: (World, Space, Option<SpaceError>))
    requires FileInside(plan.segments, image) && mapped == MapAll(w, s, LP.AllRequests(plan))
    ensures mapped.2.Some? ==> Populate(w, s, activeRoot, image, plan).1 == Err(SpaceFailed(mapped.2.value))
  {
  }
}
