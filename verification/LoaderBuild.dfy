/** Building a process image: a success is loaded exactly, a failure leaks nothing. */
module LoaderBuild {
  import opened Common
  import opened PagingModel
  import opened PagingTree
  import opened PagingLaws
  import opened SpaceModel
  import opened SpaceTree
  import opened SpaceLaws
  import opened SpaceMap
  import opened SpaceUser
  import opened SpaceLife
  import opened LoaderModel
  import opened LoaderPages
  import opened LoaderBytes
  import opened LoaderLaws
  import E = ElfModel
  import EL = ElfLaws
  import F = PhysmemModel
  import FL = PhysmemLaws

  lemma RoundedPage(va: nat)
    ensures PageOf(va - va % PAGE) == PageOf(va)
  {
  }

  lemma SeesOk(w: World, s: Space, tree: Tree)
    requires SpaceInv(w, s, tree)
    ensures Sees(WalkOf(w, s), s)
  {
    forall k, va: nat | 0 <= k < |s.pages| && va - va % PAGE == s.pages[k].virt ensures WalkOf(w, s)(va) == Some(PageLeafOf(s.pages[k])) {
      SeenPage(w, s, tree, k, va);
    }
  }

  lemma SeenPage(w: World, s: Space, tree: Tree, k: nat, va: nat)
    requires SpaceInv(w, s, tree) && k < |s.pages| && va - va % PAGE == s.pages[k].virt
    ensures SpaceWalk(w.mem, s, va) == Some(PageLeafOf(s.pages[k]))
  {
    RoundedPage(va);
    PageWalk(w, s, tree, k, va);
    RootOk(w, s, tree);
  }

  lemma NotListedUnmapped(w: World, s: Space, tree: Tree, va: nat)
    requires SpaceInv(w, s, tree) && InUser(va) && !Listed(s.pages, PageOf(va))
    ensures UserWalk(w, s, va).None? && WalkOf(w, s)(va).None?
  {
    UserIndices(va);
    WalkRoot(w.mem, s.root, tree, va);
  }

  lemma BytesOnly(w: World, s: Space, tree: Tree, w': World)
    requires SpaceInv(w, s, tree) && w'.mem == w.mem && w'.frames == w.frames
    ensures SpaceInv(w', s, tree)
  {
  }

  // ---- the audit

  lemma AuditPage(w: World, s: Space, tree: Tree, k: nat, r: Request)
    requires SpaceInv(w, s, tree) && k < |s.pages| && Answers(s.pages[k], r) && RequestOk(r)
    ensures PageMatches(s.pages[k], SpaceTranslate(w, s, s.pages[k].virt))
    ensures !(SpaceTranslate(w, s, s.pages[k].virt).writable && SpaceTranslate(w, s, s.pages[k].virt).executable)
  {
    PageWalk(w, s, tree, k, s.pages[k].virt);
  }

  /** The audit of a space that answers well-formed requests always passes. */
  lemma AuditOk(w: World, s: Space, tree: Tree, requests: seq<Request>)
    requires SpaceInv(w, s, tree) && RequestsOk(requests) && |s.pages| == |requests|
    requires (forall i :: 0 <= i < |s.pages| ==> Answers(s.pages[i], requests[i])) && UserWalk(w, s, E.STACK_GUARD).None?
    ensures AuditPasses(w, s)
  {
    forall k | 0 <= k < |s.pages|
      ensures PageMatches(s.pages[k], SpaceTranslate(w, s, s.pages[k].virt))
      ensures !(SpaceTranslate(w, s, s.pages[k].virt).writable && SpaceTranslate(w, s, s.pages[k].virt).executable)
    {
      AuditPage(w, s, tree, k, requests[k]);
    }
  }

  // ---- contents

  /** After all pages are mapped nothing can go wrong any more. */
  lemma FurnishOk(w: World, s: Space, tree: Tree, activeRoot: nat, image: seq<Byte>, plan: E.Plan)
    requires SpaceInv(w, s, tree) && EL.PlanOk(plan, |image|) && FileInside(plan.segments, image) && Furnished(w, s, AllRequests(plan))
    ensures var (w', r) := Furnish(w, s, activeRoot, image, plan);
            && r == Ok(ProcessImage(s, plan.entry, STACK_TOP)) && SpaceInv(w', s, tree) && WrotePages(w, w', s)
            && Loaded(WalkOf(w', s), w', image, plan.segments)
  {
    var phys := PhysOf(WalkOf(w, s));
    SeesOk(w, s, tree);
    SeesPhysOk(WalkOf(w, s), s);
    AllReachedOk(phys, w, s, plan, |image|);
    LayoutOk(w, s, tree);
    CopyAllOk(w, phys, s, image, plan.segments);
    var w' := CopyAll(w, phys, image, plan.segments).0;
    CopiedOk(w, w', s, tree, image, plan);
  }

  lemma CopiedOk(w: World, w': World, s: Space, tree: Tree, image: seq<Byte>, plan: E.Plan)
    requires SpaceInv(w, s, tree) && EL.PlanOk(plan, |image|) && FileInside(plan.segments, image) && Furnished(w, s, AllRequests(plan))
    requires w'.mem == w.mem && w'.frames == w.frames && Overlaid(w, w', s, image, plan.segments)
    ensures SpaceInv(w', s, tree) && AuditPasses(w', s) && Loaded(WalkOf(w', s), w', image, plan.segments)
  {
    BytesOnly(w, s, tree, w');
    AllRequestsOk(plan, |image|);
    GuardNotListed(w, s, AllRequests(plan));
    NotListedUnmapped(w', s, tree, E.STACK_GUARD);
    SeesOk(w', s, tree);
    LoadedOk(WalkOf(w', s), w, w', s, image, plan);
    AuditOk(w', s, tree, AllRequests(plan));
  }

  // ---- failure

  lemma SetsBack(before: set<nat>, created: set<nat>, own0: set<nat>, mapped: set<nat>, own: set<nat>)
    requires created == before + own0 && before !! own0 && mapped == created + own && own0 <= own && (own - own0) !! created
    ensures mapped - own == before && mapped == before + own && before !! own
  {
  }

  /** Undoing a partly built space returns the allocator to the frames it had in use before. */
  lemma AbandonOk(w: World, w1: World, s: Space, w2: World, s2: Space, tree2: Tree, activeRoot: nat)
    requires F.InUse(w1.frames) == F.InUse(w.frames) + Elements(Own(s)) && F.InUse(w.frames) !! Elements(Own(s))
    requires Built(w1, s, w2, s2, tree2) && activeRoot != s2.root
    ensures var w3 := Abandon(w2, s2, activeRoot);
            && FL.Inv(w3.frames) && F.InUse(w3.frames) == F.InUse(w.frames) && w3.mem == w2.mem && w3.bytes == w2.bytes
            && w3.frames.protectedUntil == w2.frames.protectedUntil
            && Elements(F.Pool(w3.frames)) == Elements(F.Pool(w2.frames)) + Elements(Own(s2))
  {
    DestroyOk(w2, s2, tree2, activeRoot);
    SetsBack(F.InUse(w.frames), F.InUse(w1.frames), Elements(Own(s)), F.InUse(w2.frames), Elements(Own(s2)));
  }

  // ---- what a build touches

  /** Only frames that were free have been written, and only they can be free now. */
  ghost predicate Footprint(w: World, w': World)
  {
    WroteOnly(w, w', Elements(F.Pool(w.frames))) && Elements(F.Pool(w'.frames)) <= Elements(F.Pool(w.frames))
  }

  lemma KeptWrote(w: World, s: Space, w': World, s': Space)
    requires Kept(w, s, w', s')
    ensures WroteOnly(w, w', Elements(Own(s')))
  {
    forall f | f !in Elements(Own(s')) ensures SameFrame(w, w', f) {}
  }

  lemma PagesWrote(w: World, w': World, s: Space)
    requires WrotePages(w, w', s)
    ensures WroteOnly(w, w', Elements(Own(s)))
  {
    forall f | f !in Elements(Own(s)) ensures SameFrame(w, w', f) { assert f !in PageFrames(s); }
  }

  lemma WroteTwice(w: World, w1: World, w2: World, frames: set<nat>, more: set<nat>)
    requires WroteOnly(w, w1, frames) && WroteOnly(w1, w2, more) && more <= frames
    ensures WroteOnly(w, w2, frames)
  {
    forall f | f !in frames ensures SameFrame(w, w2, f) { assert SameFrame(w, w1, f) && SameFrame(w1, w2, f); }
  }

  /** A space whose own frames came from the pool of `w`, with its pages mapped. */
  lemma MappedFootprint(w: World, w1: World, s: Space, w2: World, s2: Space)
    requires Footprint(w, w1) && Elements(Own(s)) <= Elements(F.Pool(w.frames)) && Kept(w1, s, w2, s2)
    ensures Footprint(w, w2) && Elements(Own(s2)) <= Elements(F.Pool(w.frames))
  {
    KeptWrote(w1, s, w2, s2);
    WroteTwice(w, w1, w2, Elements(F.Pool(w.frames)), Elements(Own(s2)));
  }

  // ---- the whole

  lemma AllUnmapped(w: World, s: Space, requests: seq<Request>)
    requires RequestsOk(requests) && forall va :: Canonical(va) && UserGigabyte(va) ==> UserWalk(w, s, va).None?
    ensures Unmapped(w, s, requests)
  {
    forall k | 0 <= k < |requests| ensures UserWalk(w, s, requests[k].virt).None? {
      assert RequestOk(requests[k]);
      InUserGigabyte(requests[k].virt);
    }
  }

  lemma InUserGigabyte(va: nat)
    requires InUser(va)
    ensures Canonical(va) && UserGigabyte(va)
  {
  }

  /** Frames a process image takes: three tables, one table per 2 MiB it touches, and its pages. */
  ghost function ImageCost(plan: E.Plan): nat { 3 + Cost(AllRequests(plan), {}) }

  ghost predicate LoadedImage(w: World, w': World, bt: Tree, image: seq<Byte>, plan: E.Plan, tree: Tree, p: ProcessImage)
  {
    && p.entry == plan.entry && p.stackTop == STACK_TOP
    && EL.PlanOk(plan, |image|) && FileInside(plan.segments, image)
    && SpaceInv(w', p.space, tree) && Loaded(WalkOf(w', p.space), w', image, plan.segments)
    && F.InUse(w'.frames) == F.InUse(w.frames) + Elements(Own(p.space)) && F.InUse(w.frames) !! Elements(Own(p.space))
    && Elements(Own(p.space)) <= Elements(F.Pool(w.frames)) && tree.Values <= bt.Values + Elements(Own(p.space))
  }

  ghost predicate BuildEffect(
    w: World, w': World, bt: Tree, image: seq<Byte>, validated: Result<E.Plan, E.LoadError>, tree: Tree, r: Result<ProcessImage, Failure>)
  {
    && FL.Inv(w'.frames) && w'.frames.protectedUntil == w.frames.protectedUntil && Footprint(w, w')
    && (r.Ok? <==> validated.Ok? && Supplies(F.Pool(w.frames), ImageCost(validated.value)))
    && match r
       case Ok(p) => LoadedImage(w, w', bt, image, validated.value, tree, p)
       case Err(e) =>
         && F.InUse(w'.frames) == F.InUse(w.frames) && (e.BadImage? <==> validated.Err?)
         && (validated.Err? ==> e == BadImage(validated.error))
         && !e.MappingLost? && (e.SpaceFailed? ==> e.space.NoFrames? || e.space.FrameNotReachable?)
  }

  /** What creation has established when the pages are about to be mapped. */
  ghost predicate Founded(w: World, w1: World, s: Space, bt: Tree, tree: Tree)
  {
    && SpaceInv(w1, s, tree) && Undoable(w1, s) && s.pages == [] && UserTables(tree) == {}
    && w1.frames.protectedUntil == w.frames.protectedUntil && Footprint(w, w1)
    && F.InUse(w1.frames) == F.InUse(w.frames) + Elements(Own(s)) && F.InUse(w.frames) !! Elements(Own(s))
    && Elements(Own(s)) <= Elements(F.Pool(w.frames)) && tree.Values <= bt.Values + Elements(Own(s))
    && 3 <= |F.Pool(w.frames)| && F.Pool(w1.frames) == F.Pool(w.frames)[3..] && Supplies(F.Pool(w.frames), 3)
    && (forall va :: Canonical(va) && UserGigabyte(va) ==> UserWalk(w1, s, va).None?)
  }

  lemma PopulateOk(
    w: World, w1: World, s: Space, bt: Tree, tree: Tree, activeRoot: nat, image: seq<Byte>, plan: E.Plan) returns (tree': Tree)
    requires Founded(w, w1, s, bt, tree) && activeRoot != s.root
    requires EL.PlanOk(plan, |image|) && FileInside(plan.segments, image)
    ensures var (w', r) := Populate(w1, s, activeRoot, image, plan); BuildEffect(w, w', bt, image, Ok(plan), tree', r)
  {
    AllRequestsOk(plan, |image|);
    AllUnmapped(w1, s, AllRequests(plan));
    tree' := MapAllOk(w1, s, tree, AllRequests(plan));
    var (w2, s2, failed) := MapAll(w1, s, AllRequests(plan));
    SuppliesSplit(F.Pool(w.frames), 3, Cost(AllRequests(plan), {}));
    if failed.Some? {
      PopulateFailed(w, w1, s, bt, tree, w2, s2, tree', activeRoot, image, plan, failed.value);
    } else {
      PopulateDone(w, w1, s, bt, tree, w2, s2, tree', activeRoot, image, plan);
    }
  }

  lemma PopulateFailed(
    w: World, w1: World, s: Space, bt: Tree, tree: Tree, w2: World, s2: Space, tree2: Tree, activeRoot: nat, image: seq<Byte>,
    plan: E.Plan, e: SpaceError)
    requires Founded(w, w1, s, bt, tree) && Built(w1, s, w2, s2, tree2) && activeRoot != s2.root
    requires !Supplies(F.Pool(w.frames), ImageCost(plan)) && (e.NoFrames? || e.FrameNotReachable?)
    ensures BuildEffect(w, Abandon(w2, s2, activeRoot), bt, image, Ok(plan), tree2, Err(SpaceFailed(e)))
  {
    AbandonOk(w, w1, s, w2, s2, tree2, activeRoot);
    MappedFootprint(w, w1, s, w2, s2);
    var w3 := Abandon(w2, s2, activeRoot);
    forall f | f !in Elements(F.Pool(w.frames)) ensures SameFrame(w, w3, f) { assert SameFrame(w, w2, f); }
  }

  lemma PopulateDone(
    w: World, w1: World, s: Space, bt: Tree, tree: Tree, w2: World, s2: Space, tree2: Tree, activeRoot: nat, image: seq<Byte>, plan: E.Plan)
    requires Founded(w, w1, s, bt, tree) && Built(w1, s, w2, s2, tree2) && Answered(w1, s, w2, s2, AllRequests(plan))
    requires Grew(tree, tree2, s2) && Supplies(F.Pool(w.frames), ImageCost(plan))
    requires EL.PlanOk(plan, |image|) && FileInside(plan.segments, image)
    ensures var (w3, r) := Furnish(w2, s2, activeRoot, image, plan); BuildEffect(w, w3, bt, image, Ok(plan), tree2, r)
  {
    SetsBack(F.InUse(w.frames), F.InUse(w1.frames), Elements(Own(s)), F.InUse(w2.frames), Elements(Own(s2)));
    MappedFootprint(w, w1, s, w2, s2);
    FurnishOk(w2, s2, tree2, activeRoot, image, plan);
    var w3 := Furnish(w2, s2, activeRoot, image, plan).0;
    PagesWrote(w2, w3, s2);
    WroteTwice(w, w2, w3, Elements(F.Pool(w.frames)), Elements(Own(s2)));
  }

  /** Filling the mapped pages changes contents only. */
  lemma FurnishedOk(w1: World, s: Space, w2: World, s2: Space, tree2: Tree, activeRoot: nat, image: seq<Byte>, plan: E.Plan)
    requires SpaceInv(w2, s2, tree2) && s.pages == [] && Answered(w1, s, w2, s2, AllRequests(plan))
    requires EL.PlanOk(plan, |image|) && FileInside(plan.segments, image)
    ensures var (w3, r) := Furnish(w2, s2, activeRoot, image, plan); r == Ok(ProcessImage(s2, plan.entry, STACK_TOP)) && w3.mem == w2.mem
  {
    FurnishOk(w2, s2, tree2, activeRoot, image, plan);
  }

  /** The kernel's tables were not free, so a build leaves the kernel's translations alone. */
  lemma BuildKernel(w: World, w': World, boot: nat, bt: Tree)
    requires Creatable(w, boot, bt) && Footprint(w, w')
    ensures KernelSame(w, w', boot, bt)
  {
    forall p | p in bt ensures bt[p] in w'.mem && w'.mem[bt[p]] == w.mem[bt[p]] {
      assert bt[p] in bt.Values;
      assert SameFrame(w, w', bt[p]);
    }
    KernelKept(w, w', boot, bt);
  }

  /**
   Building a process image succeeds exactly when the image is accepted and the pool supplies its
   tables and pages; then it is loaded exactly (every segment byte, zeroes elsewhere, W^X
   permissions, zeroed stack, unmapped guard). A failure leaves the set of frames in use unchanged.
   Either way only frames that were free are written, and the kernel's translations stay as they were.
   */
  lemma BuildOk(w: World, boot: nat, bt: Tree, activeRoot: nat, image: seq<Byte>) returns (tree: Tree)
    requires Creatable(w, boot, bt) && activeRoot !in F.Pool(w.frames)
    ensures var (w', r) := Build(w, boot, activeRoot, image);
            BuildEffect(w, w', bt, image, E.Validate(image), tree, r) && KernelSame(w, w', boot, bt)
  {
    PlansInside(image);
    if E.Validate(image).Ok? { EL.ValidateSound(image); }
    tree := BuildPlanOk(E.Validate(image), w, boot, bt, activeRoot, image);
    BuildKernel(w, Build(w, boot, activeRoot, image).0, boot, bt);
  }

  lemma BuildPlanOk(
    validated: Result<E.Plan, E.LoadError>, w: World, boot: nat, bt: Tree, activeRoot: nat, image: seq<Byte>) returns (tree: Tree)
    requires Creatable(w, boot, bt) && activeRoot !in F.Pool(w.frames)
    requires validated.Ok? ==> EL.PlanOk(validated.value, |image|) && FileInside(validated.value.segments, image)
    ensures var (w', r) := BuildPlan(validated, w, boot, activeRoot, image); BuildEffect(w, w', bt, image, validated, tree, r)
  {
    tree := map[];
    if validated.Ok? {
      var space := CreateOk(w, boot, bt);
      tree := ContinueOk(w, Create(w, boot), boot, bt, space, activeRoot, image, validated.value);
    }
  }

  lemma ContinueOk(
    w: World, created: (World, Result<Space, SpaceError>), boot: nat, bt: Tree, space: Tree, activeRoot: nat, image: seq<Byte>, plan: E.Plan)
    returns (tree: Tree)
    requires activeRoot !in F.Pool(w.frames) && CreateEffect(w, created.0, boot, bt, space, created.1)
    requires created.1.Ok? <==> Supplies(F.Pool(w.frames), 3)
    requires EL.PlanOk(plan, |image|) && FileInside(plan.segments, image)
    ensures var (w', r) := Continue(created, activeRoot, image, plan); BuildEffect(w, w', bt, image, Ok(plan), tree, r)
  {
    tree := space;
    if created.1.Ok? {
      CreatedFounded(w, created.0, boot, bt, space, created.1.value);
      tree := PopulateOk(w, created.0, created.1.value, bt, space, activeRoot, image, plan);
      ContinueCreated(created, activeRoot, image, plan);
    } else {
      NotCreated(w, created.0, boot, bt, space, image, plan, created.1.error);
    }
  }

  lemma ContinueCreated(created: (World, Result<Space, SpaceError>), activeRoot: nat, image: seq<Byte>, plan: E.Plan)
    requires FileInside(plan.segments, image) && created.1.Ok?
    ensures Continue(created, activeRoot, image, plan) == Populate(created.0, created.1.value, activeRoot, image, plan)
  {
  }

  lemma NotCreated(w: World, w1: World, boot: nat, bt: Tree, tree: Tree, image: seq<Byte>, plan: E.Plan, e: SpaceError)
    requires CreateEffect(w, w1, boot, bt, tree, Err(e)) && !Supplies(F.Pool(w.frames), 3)
    ensures BuildEffect(w, w1, bt, image, Ok(plan), tree, Err(SpaceFailed(e)))
  {
    SuppliesSplit(F.Pool(w.frames), 3, Cost(AllRequests(plan), {}));
  }

  lemma CreatedFounded(w: World, w1: World, boot: nat, bt: Tree, tree: Tree, s: Space)
    requires CreateEffect(w, w1, boot, bt, tree, Ok(s)) && Supplies(F.Pool(w.frames), 3)
    ensures Founded(w, w1, s, bt, tree) && s.root in F.Pool(w.frames)
  {
    forall va | Canonical(va) && UserGigabyte(va) ensures UserWalk(w1, s, va).None? {}
  }
}
