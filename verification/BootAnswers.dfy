/** Why a load into the boot address space stops. */
module BootAnswers {
  import opened Common
  import opened PagingModel
  import opened PagingTree
  import opened PagingLaws
  import opened PagingRefine
  import opened PagingRuns
  import opened PagingEdits
  import opened LoaderBoot
  import opened LoaderNeeds
  import PA = PagingAnswers
  import LM = LoaderModel
  import SM = SpaceModel
  import LP = LoaderPages
  import E = ElfModel
  import EL = ElfLaws

  ghost function Taken(m: Mapper, requests: seq<LM.Request>): (b: seq<bool>)
    ensures |b| == |requests|
  {
    seq(|requests|, k requires 0 <= k < |requests| => WalkAt(m, requests[k].virt).Some?)
  }

  /**
   The first obstacle, read off before the load starts: a page that is taken, or a page for which,
   after those before it, the pool lacks the frame or the tables on its way.
   */
  ghost function Obstacle(taken: seq<bool>, tables: set<seq<nat>>, pool: seq<nat>, requests: seq<LM.Request>): Option<BootError>
    requires |taken| == |requests|
    decreases |requests|
  {
    if requests == [] then None
    else if taken[0] then Some(TargetPageAlreadyMapped)
    else
      var (way, cost) := (Way(requests[0].virt), 1 + |Way(requests[0].virt) - tables|);
      match SupplyFor(pool, cost)
      case Enough => Obstacle(taken[1..], tables + way, pool[cost..], requests[1..])
      case RunsOut => Some(MappingFailed(OutOfFrames))
      case OutOfReach => Some(MappingFailed(PhysicalNotIdentityMapped))
  }

  /** The loop over the pages stops at the first obstacle. */
  lemma {:induction false} PagesStop(m: Mapper, tree: Tree, bytes: Bytes, done: seq<Page>, requests: seq<LM.Request>)
    requires Inv(m, tree) && LP.RequestsOk(requests)
    ensures MapPages(m, bytes, done, requests).3 == Obstacle(Taken(m, requests), tree.Keys, m.pool, requests)
    decreases |requests|, 1
  {
    if requests != [] {
      MappedIsWalk(m, requests[0].virt);
      if WalkAt(m, requests[0].virt).None? {
        var q := requests[0];
        var flags := SM.UserFlags(q.writable, q.executable);
        var tree1, k := MapNewKeepsInv(m, tree, q.virt, flags, UserPage);
        NewPageEdits(m, tree, q.virt, flags, UserPage, tree1);
        MapPagesShape(m, bytes, done, requests);
        FirstVerdict(m, tree, requests);
        NextStops(m, tree, bytes, done, requests, MapNewPage(m, q.virt, flags, UserPage), tree1, k);
      }
    }
  }

  lemma MappedIsWalk(m: Mapper, virt: nat)
    ensures Translate(m.mem, m.root, virt).mapped <==> WalkAt(m, virt).Some?
  {
  }

  ghost predicate Answers(supply: Supply, r: Result<nat, MapError>)
  {
    match supply case Enough => r.Ok? case RunsOut => r == Err(OutOfFrames) case OutOfReach => r == Err(PhysicalNotIdentityMapped)
  }

  lemma FirstVerdict(m: Mapper, tree: Tree, requests: seq<LM.Request>)
    requires Inv(m, tree) && LP.RequestsOk(requests) && requests != [] && WalkAt(m, requests[0].virt).None?
    ensures var q := requests[0];
            Answers(SupplyFor(m.pool, 1 + |Way(q.virt) - tree.Keys|), MapNewPage(m, q.virt, SM.UserFlags(q.writable, q.executable), UserPage).1)
  {
    var q := requests[0];
    assert LP.RequestOk(q);
    PA.NewAnswer(m, tree, q.virt, SM.UserFlags(q.writable, q.executable), UserPage);
    WayMissing(m.mem, m.root, tree, q.virt);
  }

  lemma NextStops(
    m: Mapper, tree: Tree, bytes: Bytes, done: seq<Page>, requests: seq<LM.Request>, attempt: (Mapper, Result<nat, MapError>), tree1: Tree, k: nat)
    requires Inv(m, tree) && LP.RequestsOk(requests) && requests != [] && WalkAt(m, requests[0].virt).None?
    requires Inv(attempt.0, tree1) && attempt.0.root == m.root && TreeEdited(tree, tree1, Path(requests[0].virt))
    requires NewPageEffect(m, tree, attempt.0, tree1, k, requests[0].virt, SM.UserFlags(requests[0].writable, requests[0].executable), attempt.1)
    requires Answers(SupplyFor(m.pool, 1 + |Way(requests[0].virt) - tree.Keys|), attempt.1)
    ensures LoaderBoot.Continue(bytes, done, requests, attempt).3 == Obstacle(Taken(m, requests), tree.Keys, m.pool, requests)
    decreases |requests|, 0
  {
    if attempt.1.Ok? {
      DrewMissing(m, tree, requests[0], attempt.0, attempt.1.value, tree1, k);
      GoesOn(m, tree, bytes, done, requests, attempt.0, attempt.1.value, tree1, k);
    } else {
      ObstacleHere(Taken(m, requests), tree.Keys, m.pool, requests, attempt.1);
    }
  }

  lemma ObstacleHere(taken: seq<bool>, tables: set<seq<nat>>, pool: seq<nat>, requests: seq<LM.Request>, r: Result<nat, MapError>)
    requires |taken| == |requests| > 0 && !taken[0] && r.Err? && Answers(SupplyFor(pool, 1 + |Way(requests[0].virt) - tables|), r)
    ensures Obstacle(taken, tables, pool, requests) == Some(MappingFailed(r.error))
  {
  }

  lemma ObstacleLater(taken: seq<bool>, tables: set<seq<nat>>, pool: seq<nat>, requests: seq<LM.Request>, k: nat)
    requires |taken| == |requests| > 0 && !taken[0] && k == |Way(requests[0].virt) - tables| && Supplies(pool, k + 1)
    ensures Obstacle(taken, tables, pool, requests) == Obstacle(taken[1..], tables + Way(requests[0].virt), pool[1..][k..], requests[1..])
  {
    assert pool[1..][k..] == pool[1 + k..];
  }

  lemma GoesOn(m: Mapper, tree: Tree, bytes: Bytes, done: seq<Page>, requests: seq<LM.Request>, m1: Mapper, f: nat, tree1: Tree, k: nat)
    requires LP.RequestsOk(requests) && requests != [] && WalkAt(m, requests[0].virt).None? && Inv(m1, tree1)
    requires PageChanged(m, m1, requests[0].virt, Some(LeafOf(f, SM.UserFlags(requests[0].writable, requests[0].executable))))
    requires tree1.Keys == tree.Keys + Way(requests[0].virt) && k == |Way(requests[0].virt) - tree.Keys|
    requires Supplies(m.pool, k + 1) && m1.pool == m.pool[1..][k..]
    ensures LoaderBoot.Continue(bytes, done, requests, (m1, Ok(f))).3 == Obstacle(Taken(m, requests), tree.Keys, m.pool, requests)
    decreases |requests| - 1, 2
  {
    var q := requests[0];
    TakenRest(m, m1, requests, LeafOf(f, SM.UserFlags(q.writable, q.executable)));
    RestOk(requests);
    ObstacleLater(Taken(m, requests), tree.Keys, m.pool, requests, k);
    PagesStop(m1, tree1, bytes[f := SM.ZeroPage()], done + [SM.MappedPage(q.virt, f, q.writable, q.executable)], requests[1..]);
  }

  lemma TakenRest(m: Mapper, m1: Mapper, requests: seq<LM.Request>, leaf: Leaf)
    requires LP.RequestsOk(requests) && requests != [] && PageChanged(m, m1, requests[0].virt, Some(leaf))
    ensures Taken(m1, requests[1..]) == Taken(m, requests)[1..]
  {
    var rest := requests[1..];
    forall k | 0 <= k < |rest| ensures WalkAt(m1, rest[k].virt) == WalkAt(m, rest[k].virt) {
      assert rest[k] == requests[k + 1];
      InUserCanonical(rest[k].virt);
      OtherPage(requests[0].virt, rest[k].virt);
    }
  }

  /** A load is refused for what is wrong with the file, then for the first obstacle; otherwise it is done. */
  lemma LoadAnswer(m: Mapper, tree: Tree, bytes: Bytes, image: seq<Byte>)
    requires Inv(m, tree)
    ensures var r := LoadImage(m, bytes, image).2;
            match E.Validate(image)
            case Err(e) => r == Err(Rejected(e))
            case Ok(plan) =>
              match Obstacle(Taken(m, LP.AllRequests(plan)), tree.Keys, m.pool, LP.AllRequests(plan))
              case Some(e) => r == Err(e)
              case None => r.Ok? && |r.value| == |LP.AllRequests(plan)|
  {
    LM.PlansInside(image);
    if E.Validate(image).Ok? {
      EL.ValidateSound(image);
      var plan := E.Validate(image).value;
      LP.AllRequestsOk(plan, |image|);
      PagesStop(m, tree, bytes, [], LP.AllRequests(plan));
      var tree' := LoadImageOk(m, tree, bytes, image);
      LoadStops(m, bytes, image, plan, MapPages(m, bytes, [], LP.AllRequests(plan)).3);
    }
  }

  lemma LoadStops(m: Mapper, bytes: Bytes, image: seq<Byte>, plan: E.Plan, failed: Option<BootError>)
    requires LM.FileInside(plan.segments, image) && failed == MapPages(m, bytes, [], LP.AllRequests(plan)).3
    ensures var r := LoadPlan(Ok(plan), m, bytes, image).2;
            if failed.Some? then r == Err(failed.value) else r.Ok? || r == Err(Lost)
  {
  }
}
