/** The pages of an accepted image can all be mapped, for lack of nothing but frames. */
module LoaderPages {
  import opened Common
  import opened PagingModel
  import opened PagingTree
  import opened PagingLaws
  import opened SpaceModel
  import opened SpaceLaws
  import opened SpaceMap
  import opened SpaceUser
  import opened LoaderModel
  import E = ElfModel
  import EL = ElfLaws
  import F = PhysmemModel

  // ---- the requests of a plan

  predicate RequestOk(r: Request) { Aligned(r.virt) && InUser(r.virt) && !(r.writable && r.executable) && r.virt != E.STACK_GUARD }

  ghost predicate RequestsOk(requests: seq<Request>)
  {
    && (forall k :: 0 <= k < |requests| ==> RequestOk(requests[k]))
    && (forall k, l :: 0 <= k < l < |requests| ==> requests[k].virt != requests[l].virt)
  }

  lemma SegmentRequests(s: E.Segment, size: nat)
    requires EL.SegmentOk(s, size)
    ensures RequestsOk(SegmentPages(s)) && |SegmentPages(s)| == E.PageCount(s)
    ensures forall k :: 0 <= k < |SegmentPages(s)| ==> E.PageStart(s) <= SegmentPages(s)[k].virt < E.PageEnd(s)
  {
    EL.PageBounds(s, size);
    var r := SegmentPages(s);
    forall k | 0 <= k < |r| ensures RequestOk(r[k]) && E.PageStart(s) <= r[k].virt < E.PageEnd(s) {
      assert r[k].virt == E.PageStart(s) + PAGE * k;
      assert PAGE * (k + 1) <= PAGE * |r|;
    }
  }

  ghost predicate Placed(requests: seq<Request>, segments: seq<E.Segment>)
  {
    forall k :: 0 <= k < |requests| ==>
      exists i :: 0 <= i < |segments| && E.PageStart(segments[i]) <= requests[k].virt < E.PageEnd(segments[i])
  }

  lemma JoinRequests(x: seq<Request>, y: seq<Request>)
    requires RequestsOk(x) && RequestsOk(y)
    requires forall k, l :: 0 <= k < |x| && 0 <= l < |y| ==> x[k].virt != y[l].virt
    ensures RequestsOk(x + y)
  {
  }

  lemma {:induction false} PlanRequests(segments: seq<E.Segment>, size: nat)
    requires EL.PageDisjoint(segments) && forall k :: 0 <= k < |segments| ==> EL.SegmentOk(segments[k], size)
    ensures RequestsOk(PlanPages(segments)) && |PlanPages(segments)| == EL.SumPages(segments) && Placed(PlanPages(segments), segments)
  {
    if segments != [] {
      var (before, s) := (segments[..|segments| - 1], segments[|segments| - 1]);
      PlanRequests(before, size);
      SegmentRequests(s, size);
      var (x, y) := (PlanPages(before), SegmentPages(s));
      forall k, l | 0 <= k < |x| && 0 <= l < |y| ensures x[k].virt != y[l].virt {
        var i :| 0 <= i < |before| && E.PageStart(before[i]) <= x[k].virt < E.PageEnd(before[i]);
        assert before[i] == segments[i] && !E.Overlaps(s, segments[i]);
      }
      JoinRequests(x, y);
      PlacedMore(x, y, segments);
    }
  }

  lemma PlacedMore(x: seq<Request>, y: seq<Request>, segments: seq<E.Segment>)
    requires segments != [] && Placed(x, segments[..|segments| - 1])
    requires var s := segments[|segments| - 1]; forall k :: 0 <= k < |y| ==> E.PageStart(s) <= y[k].virt < E.PageEnd(s)
    ensures Placed(x + y, segments)
  {
    var before := segments[..|segments| - 1];
    forall k | 0 <= k < |x + y|
      ensures exists i :: 0 <= i < |segments| && E.PageStart(segments[i]) <= (x + y)[k].virt < E.PageEnd(segments[i])
    {
      if k < |x| {
        var i :| 0 <= i < |before| && E.PageStart(before[i]) <= x[k].virt < E.PageEnd(before[i]);
        assert segments[i] == before[i];
      } else {
        assert (x + y)[k] == y[k - |x|];
      }
    }
  }

  function AllRequests(plan: E.Plan): seq<Request> { PlanPages(plan.segments) + [STACK_REQUEST] }

  /** Segments and stack: at most 65 distinct user pages, none of them the guard page. */
  lemma AllRequestsOk(plan: E.Plan, size: nat)
    requires EL.PlanOk(plan, size)
    ensures RequestsOk(AllRequests(plan)) && |AllRequests(plan)| <= MAX_PAGES
  {
    PlanRequests(plan.segments, size);
    var x := PlanPages(plan.segments);
    forall k | 0 <= k < |x| ensures x[k].virt < E.ELF_END {
      var i :| 0 <= i < |plan.segments| && E.PageStart(plan.segments[i]) <= x[k].virt < E.PageEnd(plan.segments[i]);
      EL.PageBounds(plan.segments[i], size);
    }
    JoinRequests(x, [STACK_REQUEST]);
  }

  // ---- mapping them

  ghost predicate Unmapped(w: World, s: Space, requests: seq<Request>)
  {
    forall k :: 0 <= k < |requests| ==> UserWalk(w, s, requests[k].virt).None?
  }

  predicate Answers(p: MappedPage, r: Request) { p.virt == r.virt && p.writable == r.writable && p.executable == r.executable }

  ghost predicate Zeroed(w: World, f: nat) { f in w.bytes && w.bytes[f] == ZeroPage() }

  /** The pages appended to the list answer the requests, in order, and are zeroed. */
  ghost predicate Answered(w: World, s: Space, w': World, s': Space, requests: seq<Request>)
  {
    && |s'.pages| == |s.pages| + |requests| && s'.pages[..|s.pages|] == s.pages
    && (forall i :: |s.pages| <= i < |s'.pages| ==> Answers(s'.pages[i], requests[i - |s.pages|]))
    && (forall i :: |s.pages| <= i < |s'.pages| ==> Zeroed(w', s'.pages[i].frame))
  }

  ghost predicate Built(w: World, s: Space, w': World, s': Space, tree': Tree)
  {
    SpaceInv(w', s', tree') && Undoable(w', s') && Kept(w, s, w', s')
  }

  lemma StillUnmapped(w: World, s: Space, w1: World, requests: seq<Request>, leaf: Leaf)
    requires RequestsOk(requests) && requests != [] && Unmapped(w, s, requests)
    requires UserPageAdded(w, s, w1, requests[0].virt, leaf)
    ensures Unmapped(w1, s, requests[1..])
  {
    var rest := requests[1..];
    forall k | 0 <= k < |rest| ensures UserWalk(w1, s, rest[k].virt).None? {
      assert rest[k] == requests[k + 1] && RequestOk(requests[k + 1]) && RequestOk(requests[0]);
      UserIndices(rest[k].virt);
      AlignedPages(rest[k].virt, requests[0].virt);
    }
  }

  lemma AlignedPages(va: nat, vb: nat)
    requires Aligned(va) && Aligned(vb) && va != vb
    ensures PageOf(va) != PageOf(vb)
  {
  }

  lemma BuiltTwice(w: World, s: Space, w1: World, s1: Space, w2: World, s2: Space, tree2: Tree)
    requires Kept(w, s, w1, s1) && Built(w1, s1, w2, s2, tree2)
    ensures Built(w, s, w2, s2, tree2)
  {
    KeptTwice(w, s, w1, s1, w2, s2);
  }

  lemma AnsweredMore(w: World, s: Space, w1: World, s1: Space, w2: World, s2: Space, requests: seq<Request>, f: nat)
    requires requests != [] && s1.pages == s.pages + [MappedPage(requests[0].virt, f, requests[0].writable, requests[0].executable)]
    requires Zeroed(w1, f) && SameBytes(w1, w2, f) && Answered(w1, s1, w2, s2, requests[1..])
    ensures Answered(w, s, w2, s2, requests)
  {
    assert s2.pages[..|s.pages|] == s2.pages[..|s1.pages|][..|s.pages|];
    assert s2.pages[|s.pages|] == s2.pages[..|s1.pages|][|s.pages|];
    forall i | |s.pages| <= i < |s2.pages|
      ensures Answers(s2.pages[i], requests[i - |s.pages|]) && Zeroed(w2, s2.pages[i].frame)
    {
      if i > |s.pages| { assert requests[1..][i - |s1.pages|] == requests[i - |s.pages|]; }
    }
  }

  // ---- what they cost

  /** The 2 MiB regions the requests fall into, by index; each needs one last-level table. */
  ghost function Regions(requests: seq<Request>): set<nat> { set k | 0 <= k < |requests| :: Index(requests[k].virt, 2) }

  /** Frames needed to map the requests when the regions in `covered` have their table already. */
  ghost function Cost(requests: seq<Request>, covered: set<nat>): nat { |requests| + |Regions(requests) - covered| }

  lemma CostStep(requests: seq<Request>, covered: set<nat>)
    requires requests != []
    ensures var i := Index(requests[0].virt, 2);
            Cost(requests, covered) == (if i in covered then 1 else 2) + Cost(requests[1..], covered + {i})
  {
    var (i, rest) := (Index(requests[0].virt, 2), requests[1..]);
    RegionsStep(requests);
    var more := Regions(rest) - (covered + {i});
    if i in covered {
      assert Regions(requests) - covered == more;
    } else {
      assert Regions(requests) - covered == more + {i};
    }
  }

  lemma RegionsStep(requests: seq<Request>)
    requires requests != []
    ensures Regions(requests) == {Index(requests[0].virt, 2)} + Regions(requests[1..])
  {
    var (i, rest) := (Index(requests[0].virt, 2), requests[1..]);
    forall r | r in Regions(requests) ensures r == i || r in Regions(rest) {
      var k :| 0 <= k < |requests| && Index(requests[k].virt, 2) == r;
      if k > 0 { assert rest[k - 1] == requests[k]; }
    }
    forall r | r in Regions(rest) ensures r in Regions(requests) {
      var k :| 0 <= k < |rest| && Index(rest[k].virt, 2) == r;
      assert requests[k + 1] == rest[k];
    }
    assert i in Regions(requests);
  }

  lemma SuppliesSplit(pool: seq<nat>, a: nat, b: nat)
    ensures Supplies(pool, a + b) <==> Supplies(pool, a) && Supplies(pool[a..], b)
  {
    if a <= |pool| { assert forall k :: a <= k < |pool| ==> pool[k] == pool[a..][k - a]; }
  }

  /** The first page can be mapped and then the rest, exactly if the pool supplies it all. */
  lemma SuppliesRest(w: World, tree: Tree, w1: World, tree1: Tree, requests: seq<Request>)
    requires requests != [] && Drew(w, tree, w1, tree1, requests[0].virt)
    requires Supplies(F.Pool(w.frames), if Index(requests[0].virt, 2) in UserTables(tree) then 1 else 2)
    ensures Supplies(F.Pool(w.frames), Cost(requests, UserTables(tree))) <==> Supplies(F.Pool(w1.frames), Cost(requests[1..], UserTables(tree1)))
  {
    CostStep(requests, UserTables(tree));
    SuppliesSplit(F.Pool(w.frames), if Index(requests[0].virt, 2) in UserTables(tree) then 1 else 2, Cost(requests[1..], UserTables(tree1)));
  }

  lemma FirstSupplied(pool: seq<nat>, requests: seq<Request>, covered: set<nat>)
    requires requests != []
    ensures Supplies(pool, Cost(requests, covered)) ==> Supplies(pool, if Index(requests[0].virt, 2) in covered then 1 else 2)
  {
    CostStep(requests, covered);
  }

  /** Exactly the cost left the pool, and every region has its table now. */
  ghost predicate Paid(pool: seq<nat>, covered: set<nat>, pool': seq<nat>, covered': set<nat>, requests: seq<Request>)
  {
    && Cost(requests, covered) <= |pool| && pool' == pool[Cost(requests, covered)..]
    && covered' == covered + Regions(requests)
  }

  lemma PaidMore(
    pool: seq<nat>, covered: set<nat>, pool1: seq<nat>, covered1: set<nat>, pool2: seq<nat>, covered2: set<nat>, requests: seq<Request>)
    requires requests != [] && Paid(pool1, covered1, pool2, covered2, requests[1..])
    requires var i := Index(requests[0].virt, 2);
             var n := if i in covered then 1 else 2;
             n <= |pool| && pool1 == pool[n..] && covered1 == covered + {i}
    ensures Paid(pool, covered, pool2, covered2, requests)
  {
    CostStep(requests, covered);
    RegionsStep(requests);
    SliceTwice(pool, if Index(requests[0].virt, 2) in covered then 1 else 2, Cost(requests[1..], covered1));
  }

  lemma SliceTwice(pool: seq<nat>, n: nat, m: nat)
    requires n <= |pool| && m <= |pool[n..]|
    ensures n + m <= |pool| && pool[n..][m..] == pool[n + m..]
  {
  }

  ghost predicate AllMapped(
    w: World, s: Space, tree: Tree, requests: seq<Request>, w': World, s': Space, tree': Tree, failed: Option<SpaceError>)
  {
    && Built(w, s, w', s', tree') && Grew(tree, tree', s')
    && (failed.None? <==> Supplies(F.Pool(w.frames), Cost(requests, UserTables(tree))))
    && (failed.None? ==> Answered(w, s, w', s', requests) && Paid(F.Pool(w.frames), UserTables(tree), F.Pool(w'.frames), UserTables(tree'), requests))
    && (failed.Some? ==> failed.value.NoFrames? || failed.value.FrameNotReachable?)
  }

  /**
   Mapping the pages of a plan succeeds exactly when the pool supplies the pages and the missing
   tables; if it fails, everything taken can still be returned.
   */
  lemma {:induction false} MapAllOk(w: World, s: Space, tree: Tree, requests: seq<Request>) returns (tree': Tree)
    requires SpaceInv(w, s, tree) && Undoable(w, s) && RequestsOk(requests) && |s.pages| + |requests| <= MAX_PAGES
    requires Unmapped(w, s, requests)
    ensures var (w', s', failed) := MapAll(w, s, requests);
            AllMapped(w, s, tree, requests, w', s', tree', failed)
    decreases |requests|
  {
    tree' := tree;
    if requests == [] {
      NothingMapped(w, s, tree);
    } else {
      tree' := MapFirst(w, s, tree, requests);
    }
  }

  lemma NoCost(covered: set<nat>)
    ensures Cost([], covered) == 0
  {
    assert Regions([]) == {};
    assert {} - covered == {};
  }

  lemma PaidNothing(pool: seq<nat>, covered: set<nat>)
    ensures Paid(pool, covered, pool, covered, [])
  {
    NoCost(covered);
    assert Regions([]) == {};
  }

  lemma NothingMapped(w: World, s: Space, tree: Tree)
    requires SpaceInv(w, s, tree) && Undoable(w, s)
    ensures AllMapped(w, s, tree, [], w, s, tree, None)
  {
    BuiltNone(w, s, tree);
    NoCost(UserTables(tree));
    NoAnswer(w, s);
    PaidNothing(F.Pool(w.frames), UserTables(tree));
    AssembleMapped(w, s, tree, [], w, s, tree, None);
  }

  lemma AssembleMapped(
    w: World, s: Space, tree: Tree, requests: seq<Request>, w': World, s': Space, tree': Tree, failed: Option<SpaceError>)
    requires Built(w, s, w', s', tree') && Grew(tree, tree', s') && failed.None?
    requires Supplies(F.Pool(w.frames), Cost(requests, UserTables(tree))) && Answered(w, s, w', s', requests)
    requires Paid(F.Pool(w.frames), UserTables(tree), F.Pool(w'.frames), UserTables(tree'), requests)
    ensures AllMapped(w, s, tree, requests, w', s', tree', failed)
  {
  }

  lemma NoAnswer(w: World, s: Space)
    ensures Answered(w, s, w, s, [])
  {
  }

  lemma BuiltNone(w: World, s: Space, tree: Tree)
    requires SpaceInv(w, s, tree) && Undoable(w, s)
    ensures Built(w, s, w, s, tree)
  {
    SameFramesInv(w, s, tree, w);
  }

  lemma MapFirst(w: World, s: Space, tree: Tree, requests: seq<Request>) returns (tree': Tree)
    requires SpaceInv(w, s, tree) && Undoable(w, s) && RequestsOk(requests) && |s.pages| + |requests| <= MAX_PAGES
    requires Unmapped(w, s, requests) && requests != []
    ensures var (w', s', failed) := MapAll(w, s, requests);
            AllMapped(w, s, tree, requests, w', s', tree', failed)
    decreases |requests|, 0
  {
    var (q, rest) := (requests[0], requests[1..]);
    assert RequestOk(q);
    tree' := MapUserOk(w, s, tree, q.virt, q.writable, q.executable);
    FirstPage(w, s, tree, requests);
    var (w1, s1, r) := MapUser(w, s, q.virt, q.writable, q.executable);
    if r.Ok? {
      StillUnmapped(w, s, w1, requests, Leaf(r.value, false, true, q.writable, q.executable));
      RestOk(requests);
      var tree1 := tree';
      SuppliesRest(w, tree, w1, tree1, requests);
      tree' := MapAllOk(w1, s1, tree1, rest);
      var (w2, s2, failed) := MapAll(w1, s1, rest);
      BuiltTwice(w, s, w1, s1, w2, s2, tree');
      LastOwned(s, s1, r.value);
      if failed.None? {
        AnsweredMore(w, s, w1, s1, w2, s2, requests, r.value);
        PaidMore(F.Pool(w.frames), UserTables(tree), F.Pool(w1.frames), UserTables(tree1), F.Pool(w2.frames), UserTables(tree'), requests);
      }
    }
  }

  /** The first request is for a free page, so it is met exactly if the pool supplies page and table. */
  lemma FirstPage(w: World, s: Space, tree: Tree, requests: seq<Request>)
    requires SpaceInv(w, s, tree) && RequestsOk(requests) && |s.pages| + |requests| <= MAX_PAGES && Unmapped(w, s, requests) && requests != []
    ensures var virt := requests[0].virt;
            && Free(w, s, virt)
            && (MayMap(w, s, virt) <==> Supplies(F.Pool(w.frames), if Index(virt, 2) in UserTables(tree) then 1 else 2))
            && (Supplies(F.Pool(w.frames), Cost(requests, UserTables(tree))) ==> MayMap(w, s, virt))
  {
    var virt := requests[0].virt;
    assert RequestOk(requests[0]);
    UserMissing(w, s, tree, virt);
    UserIndices(virt);
    FirstSupplied(F.Pool(w.frames), requests, UserTables(tree));
  }

  lemma LastOwned(s: Space, s1: Space, f: nat)
    requires |s1.pages| == |s.pages| + 1 && s1.pages[|s.pages|].frame == f
    ensures f in Elements(Own(s1))
  {
    assert Own(s1)[|s1.tables| + |s.pages|] == f;
  }

  lemma RestOk(requests: seq<Request>)
    requires RequestsOk(requests) && requests != []
    ensures RequestsOk(requests[1..])
  {
    var rest := requests[1..];
    forall k | 0 <= k < |rest| ensures RequestOk(rest[k]) { assert rest[k] == requests[k + 1]; }
  }
}
