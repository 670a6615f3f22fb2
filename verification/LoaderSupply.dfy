/**
 Loading into the boot address space uses the frame allocator as a client does: pages and tables are
 allocated, a failed load frees its pages, and the recycle stack has room for every one of them.
 */
module LoaderSupply {
  import opened Common
  import opened PagingModel
  import opened PagingTree
  import opened PagingLaws
  import opened PagingRefine
  import opened PagingRuns
  import LM = LoaderModel
  import opened LoaderBoot
  import SM = SpaceModel
  import SL = SpaceLaws
  import LP = LoaderPages
  import E = ElfModel
  import EL = ElfLaws
  import F = PhysmemModel
  import FL = PhysmemLaws
  import FR = PhysmemRuns
  import PS = PagingSupply

  /** `b` stands after a run of the allocator from `a`, holds `pool`, and `n` frames can be freed. */
  ghost predicate Stands(a: F.Allocator, ops: seq<FR.Op>, pool: seq<nat>, n: nat)
  {
    var b := FR.Reach(a, ops);
    FL.Inv(b) && b.regions == a.regions && F.Pool(b) == pool && FL.CanUndo(b, n)
  }

  lemma StandsAfter(a: F.Allocator, first: seq<FR.Op>, pool1: seq<nat>, n1: nat, second: seq<FR.Op>, pool2: seq<nat>, n2: nat)
    requires Stands(a, first, pool1, n1) && Stands(FR.Reach(a, first), second, pool2, n2)
    ensures Stands(a, first + second, pool2, n2)
  {
    FR.ReachJoins(a, first, second);
  }

  lemma StandsStill(a: F.Allocator, n: nat)
    requires FL.Inv(a) && FL.CanUndo(a, n)
    ensures Stands(a, [], F.Pool(a), n)
  {
  }

  // ---- mapping

  lemma DrawsPage(a: F.Allocator, k: nat, n: nat)
    requires FL.Inv(a) && k < |F.Pool(a)| && FL.CanUndo(a, n) && n < F.MAX_RECYCLED
    ensures Stands(a, PS.Draws(k + 1), F.Pool(a)[k + 1..], n + 1)
  {
    PS.Drawn(a, k + 1);
    FR.RegionsStay(a, PS.Draws(k + 1));
  }

  lemma DrawsTables(a: F.Allocator, k: nat, n: nat)
    requires FL.Inv(a) && k < |F.Pool(a)| && FL.CanUndo(a, n) && n < F.MAX_RECYCLED
    ensures Stands(a, PS.Draws(k + 1) + [FR.OpFree(F.Pool(a)[0])], [F.Pool(a)[0]] + F.Pool(a)[k + 1..], n)
  {
    var (f, ops) := (F.Pool(a)[0], PS.Draws(k + 1));
    PS.Drawn(a, k + 1);
    PS.DrawnThenFreed(a, k + 1);
    FR.RegionsStay(a, ops + [FR.OpFree(f)]);
    FL.FreeRefines(FR.Reach(a, ops), f);
    assert (ops + [FR.OpFree(f)])[..k + 1] == ops;
  }

  /** One attempt to map a page: afterwards there is room for one more page exactly if it was mapped. */
  lemma PageDraws(m: Mapper, tree: Tree, q: LM.Request, a: F.Allocator, n: nat) returns (ops: seq<FR.Op>)
    requires Inv(m, tree) && FL.Inv(a) && F.Pool(a) == m.pool && FL.CanUndo(a, n) && n < F.MAX_RECYCLED
    ensures var (m1, r) := MapNewPage(m, q.virt, SM.UserFlags(q.writable, q.executable), UserPage);
            Stands(a, ops, m1.pool, if r.Ok? then n + 1 else n)
  {
    var flags := SM.UserFlags(q.writable, q.executable);
    var k := PS.NewPagePool(m, tree, q.virt, flags, UserPage);
    NewPagePool(m, tree, q);
    ops := AttemptDraws(m.pool, MapNewPage(m, q.virt, flags, UserPage), k, a, n);
  }

  lemma AttemptDraws(pool: seq<nat>, attempt: (Mapper, Result<nat, MapError>), k: nat, a: F.Allocator, n: nat) returns (ops: seq<FR.Op>)
    requires FL.Inv(a) && F.Pool(a) == pool && FL.CanUndo(a, n) && n < F.MAX_RECYCLED
    requires attempt.1.Ok? ==> attempt.1.value in pool && attempt.1.value !in attempt.0.pool
    requires || attempt.0.pool == pool
             || (k < |pool| && attempt.0.pool == if attempt.1.Ok? then pool[k + 1..] else [pool[0]] + pool[k + 1..])
    ensures Stands(a, ops, attempt.0.pool, if attempt.1.Ok? then n + 1 else n)
  {
    if attempt.1.Ok? {
      ops := PS.Draws(k + 1);
      DrawsPage(a, k, n);
    } else if attempt.0.pool == pool {
      ops := [];
      StandsStill(a, n);
    } else {
      ops := PS.Draws(k + 1) + [FR.OpFree(pool[0])];
      DrawsTables(a, k, n);
    }
  }

  /** After the loop there is room for every page it mapped. */
  lemma {:induction false} PagesDraw(m: Mapper, tree: Tree, bytes: Bytes, done: seq<Page>, requests: seq<LM.Request>, a: F.Allocator)
    returns (ops: seq<FR.Op>)
    requires Inv(m, tree) && FL.Inv(a) && F.Pool(a) == m.pool && FL.CanUndo(a, |done|) && |done| + |requests| <= F.MAX_RECYCLED
    ensures var (m1, bytes1, pages, failed) := MapPages(m, bytes, done, requests); Stands(a, ops, m1.pool, |pages|)
    decreases |requests|, 0
  {
    if requests == [] || Translate(m.mem, m.root, requests[0].virt).mapped {
      ops := [];
      StandsStill(a, |done|);
    } else {
      var q := requests[0];
      var flags := SM.UserFlags(q.writable, q.executable);
      ops := PageDraws(m, tree, q, a, |done|);
      var tree1, k := MapNewKeepsInv(m, tree, q.virt, flags, UserPage);
      MapPagesShape(m, bytes, done, requests);
      var attempt := MapNewPage(m, q.virt, flags, UserPage);
      if attempt.1.Ok? {
        var p := SM.MappedPage(q.virt, attempt.1.value, q.writable, q.executable);
        ops := RestDraws(attempt.0, tree1, bytes[attempt.1.value := SM.ZeroPage()], done + [p], requests[1..], a, ops);
      }
    }
  }

  lemma RestDraws(m: Mapper, tree: Tree, bytes: Bytes, done: seq<Page>, requests: seq<LM.Request>, a: F.Allocator, first: seq<FR.Op>)
    returns (ops: seq<FR.Op>)
    requires Inv(m, tree) && Stands(a, first, m.pool, |done|) && |done| + |requests| <= F.MAX_RECYCLED
    ensures var (m1, bytes1, pages, failed) := MapPages(m, bytes, done, requests); Stands(a, ops, m1.pool, |pages|)
    decreases |requests|, 1
  {
    var second := PagesDraw(m, tree, bytes, done, requests, FR.Reach(a, first));
    var mapped := MapPages(m, bytes, done, requests);
    StandsAfter(a, first, m.pool, |done|, second, mapped.0.pool, |mapped.2|);
    ops := first + second;
  }

  // ---- rolling back

  lemma FreesOne(a: F.Allocator, f: nat, n: nat)
    requires FL.Inv(a) && f in F.InUse(a) && FL.CanUndo(a, n + 1)
    ensures Stands(a, [FR.OpFree(f)], [f] + F.Pool(a), n) && F.InUse(FR.Reach(a, [FR.OpFree(f)])) == F.InUse(a) - {f}
  {
    FL.FreeRefines(a, f);
    ReachOne(a, FR.OpFree(f));
  }

  lemma ReachOne(a: F.Allocator, op: FR.Op)
    ensures FR.Reach(a, [op]) == FR.Step(a, op).0
  {
    assert [op][..0] == [] && FR.Reach(a, []) == a;
  }

  lemma Discarded(m0: Mapper, tree0: Tree, m: Mapper, tree: Tree, pages: seq<Page>)
    requires Progress(m0, tree0, m, tree, pages) && pages != []
    ensures var f := pages[|pages| - 1].frame; Discard(m, pages[|pages| - 1].virt).pool == [f] + m.pool && f in Elements(FramesOf(pages))
    ensures Elements(FramesOf(pages[..|pages| - 1])) <= Elements(FramesOf(pages)) - {pages[|pages| - 1].frame}
  {
    var p := pages[|pages| - 1];
    UnmapPageRefines(m, tree, p.virt);
    LastShown(m, WalkIn(m0), pages);
    LessFrames(pages);
  }

  /** Every free of the rollback succeeds: the allocator ends with the pool the model has. */
  lemma {:induction false} RollbackFrees(m0: Mapper, tree0: Tree, m: Mapper, tree: Tree, pages: seq<Page>, a: F.Allocator) returns (ops: seq<FR.Op>)
    requires Progress(m0, tree0, m, tree, pages) && FL.Inv(a) && F.Pool(a) == m.pool && FL.CanUndo(a, |pages|)
    requires Elements(FramesOf(pages)) <= F.InUse(a)
    ensures Stands(a, ops, Rollback(m, pages).pool, 0)
    decreases |pages|, 0
  {
    if pages == [] {
      ops := [];
      StandsStill(a, 0);
    } else {
      var (p, less) := (pages[|pages| - 1], pages[..|pages| - 1]);
      Discarded(m0, tree0, m, tree, pages);
      FreesOne(a, p.frame, |less|);
      DiscardOk(m0, tree0, m, tree, pages);
      ops := RollbackRest(m0, tree0, Discard(m, p.virt), tree, less, a, [FR.OpFree(p.frame)]);
    }
  }

  lemma RollbackRest(m0: Mapper, tree0: Tree, m: Mapper, tree: Tree, pages: seq<Page>, a: F.Allocator, first: seq<FR.Op>) returns (ops: seq<FR.Op>)
    requires Progress(m0, tree0, m, tree, pages) && Stands(a, first, m.pool, |pages|)
    requires Elements(FramesOf(pages)) <= F.InUse(FR.Reach(a, first))
    ensures Stands(a, ops, Rollback(m, pages).pool, 0)
    decreases |pages|, 1
  {
    var second := RollbackFrees(m0, tree0, m, tree, pages, FR.Reach(a, first));
    StandsAfter(a, first, m.pool, |pages|, second, Rollback(m, pages).pool, 0);
    ops := first + second;
  }

  lemma LessFrames(pages: seq<Page>)
    requires pages != [] && FL.Distinct(FramesOf(pages))
    ensures pages[|pages| - 1].frame in Elements(FramesOf(pages))
    ensures Elements(FramesOf(pages[..|pages| - 1])) <= Elements(FramesOf(pages)) - {pages[|pages| - 1].frame}
  {
    var (less, f) := (FramesOf(pages[..|pages| - 1]), pages[|pages| - 1].frame);
    LastPage(pages);
    FL.ElementsSnoc(less, f);
    var all := less + [f];
    assert all[|less|] == f && forall k :: 0 <= k < |less| ==> all[k] == less[k] && all[k] != all[|less|];
  }

  /** Frames that left the pool since `a` and are not back are in use. */
  lemma LeftInUse(a: F.Allocator, b: F.Allocator, frames: set<nat>)
    requires FL.Inv(a) && FL.Inv(b) && b.regions == a.regions && frames <= Elements(F.Pool(a)) && frames !! Elements(F.Pool(b))
    ensures frames <= F.InUse(b)
  {
    FL.Conservation(a);
    FL.Conservation(b);
  }

  // ---- the whole

  /** A load, whatever its outcome, leaves the pool that a run of the allocator leaves. */
  lemma LoadDraws(m: Mapper, tree: Tree, bytes: Bytes, image: seq<Byte>, a: F.Allocator) returns (ops: seq<FR.Op>)
    requires Inv(m, tree) && FL.Inv(a) && F.Pool(a) == m.pool
    ensures Stands(a, ops, LoadImage(m, bytes, image).0.pool, 0)
  {
    LM.PlansInside(image);
    if E.Validate(image).Ok? {
      EL.ValidateSound(image);
      ops := PlanDraws(m, tree, bytes, image, E.Validate(image).value, a);
    } else {
      ops := [];
      StandsStill(a, 0);
    }
  }

  lemma PlanDraws(m: Mapper, tree: Tree, bytes: Bytes, image: seq<Byte>, plan: E.Plan, a: F.Allocator) returns (ops: seq<FR.Op>)
    requires Inv(m, tree) && FL.Inv(a) && F.Pool(a) == m.pool && EL.PlanOk(plan, |image|) && LM.FileInside(plan.segments, image)
    ensures Stands(a, ops, LoadPlan(Ok(plan), m, bytes, image).0.pool, 0)
  {
    LP.AllRequestsOk(plan, |image|);
    NoProgress(m, tree);
    var tree1 := MapPagesOk(m, tree, m, tree, bytes, [], LP.AllRequests(plan));
    var first := PagesDraw(m, tree, bytes, [], LP.AllRequests(plan), a);
    var (m1, bytes1, pages, failed) := MapPages(m, bytes, [], LP.AllRequests(plan));
    LoadShape(m, bytes, image, plan);
    if LoadPlan(Ok(plan), m, bytes, image).2.Ok? {
      ops := first;
    } else {
      ops := UndoneDraws(m, tree, m1, tree1, pages, a, first);
    }
  }

  /** A load keeps what the mapping loop left or rolls it back. */
  lemma LoadShape(m: Mapper, bytes: Bytes, image: seq<Byte>, plan: E.Plan)
    requires LM.FileInside(plan.segments, image)
    ensures var (m1, bytes1, pages, failed) := MapPages(m, bytes, [], LP.AllRequests(plan));
            var (m', bytes', r) := LoadPlan(Ok(plan), m, bytes, image);
            m' == if r.Ok? then m1 else Rollback(m1, pages)
  {
  }

  lemma UndoneDraws(m: Mapper, tree: Tree, m1: Mapper, tree1: Tree, pages: seq<Page>, a: F.Allocator, first: seq<FR.Op>) returns (ops: seq<FR.Op>)
    requires Progress(m, tree, m1, tree1, pages) && FL.Inv(a) && F.Pool(a) == m.pool && Inv(m, tree) && Stands(a, first, m1.pool, |pages|)
    ensures Stands(a, ops, Rollback(m1, pages).pool, 0)
  {
    FromPool(m, tree, m1, tree1, pages);
    LeftInUse(a, FR.Reach(a, first), Elements(FramesOf(pages)));
    ops := RollbackRest(m, tree, m1, tree1, pages, a, first);
  }

  // ---- frames in use

  lemma BalancedUse(
    pool: set<nat>, tables: set<nat>, used: set<nat>, pool': set<nat>, tables': set<nat>, used': set<nat>, frames: set<nat>)
    requires used !! pool && used' !! pool' && used + pool == used' + pool' && pool !! tables && pool' !! tables'
    requires tables <= tables' && frames !! pool' && frames !! tables' && pool' + tables' + frames == pool + tables
    ensures used' == used + (tables' - tables) + frames
  {
    forall f ensures f in used' <==> f in used + (tables' - tables) + frames {
      assert f in used + pool <==> f in used' + pool';
      assert f in pool' + tables' + frames <==> f in pool + tables;
    }
  }

  lemma ProgressUse(m: Mapper, tree: Tree, m': Mapper, tree': Tree, pages: seq<Page>, a: F.Allocator, b: F.Allocator)
    requires Inv(m, tree) && Progress(m, tree, m', tree', pages) && FL.Inv(a) && FL.Inv(b) && b.regions == a.regions
    requires F.Pool(a) == m.pool && F.Pool(b) == m'.pool
    ensures F.InUse(b) == F.InUse(a) + (tree'.Values - tree.Values) + Elements(FramesOf(pages))
  {
    FL.Conservation(a);
    FL.Conservation(b);
    PoolApart(m.pool, tree);
    PoolApart(m'.pool, tree');
    BalancedUse(Elements(m.pool), tree.Values, F.InUse(a), Elements(m'.pool), tree'.Values, F.InUse(b), Elements(FramesOf(pages)));
  }

  /** The pages a load keeps. */
  function KeptPages(r: Result<seq<Page>, BootError>): seq<Page> { if r.Ok? then r.value else [] }

  ghost predicate Left(m: Mapper, tree: Tree, a: F.Allocator, m': Mapper, pages: seq<Page>, tree': Tree, b: F.Allocator)
  {
    && Inv(m', tree') && tree.Values <= tree'.Values && FL.Inv(b) && F.Pool(b) == m'.pool
    && F.InUse(b) == F.InUse(a) + (tree'.Values - tree.Values) + Elements(FramesOf(pages))
  }

  /**
   What a load leaves in use: its pages and the page tables made for them if it succeeds, and those
   page tables alone if it fails, when every translation is what it was.
   */
  lemma LoadUse(m: Mapper, tree: Tree, bytes: Bytes, image: seq<Byte>, a: F.Allocator) returns (ops: seq<FR.Op>, tree': Tree)
    requires Inv(m, tree) && FL.Inv(a) && F.Pool(a) == m.pool
    ensures var (m', bytes', r) := LoadImage(m, bytes, image);
            && Left(m, tree, a, m', KeptPages(r), tree', FR.Reach(a, ops))
            && (r.Err? ==> forall va :: Canonical(va) ==> WalkAt(m', va) == WalkAt(m, va))
  {
    tree' := LoadImageOk(m, tree, bytes, image);
    ops := LoadDraws(m, tree, bytes, image, a);
    var load := LoadImage(m, bytes, image);
    LoadProgress(m, tree, bytes, image, load.0, load.1, tree', load.2);
    LoadLeft(m, tree, a, load.0, KeptPages(load.2), tree', FR.Reach(a, ops));
    if load.2.Err? { NothingShown(m, load.0); }
  }

  lemma LoadLeft(m: Mapper, tree: Tree, a: F.Allocator, m': Mapper, pages: seq<Page>, tree': Tree, b: F.Allocator)
    requires Inv(m, tree) && FL.Inv(a) && F.Pool(a) == m.pool && Progress(m, tree, m', tree', pages)
    requires FL.Inv(b) && b.regions == a.regions && F.Pool(b) == m'.pool
    ensures Left(m, tree, a, m', pages, tree', b)
  {
    ProgressUse(m, tree, m', tree', pages, a, b);
  }

  lemma LoadProgress(m: Mapper, tree: Tree, bytes: Bytes, image: seq<Byte>, m': Mapper, bytes': Bytes, tree': Tree, r: Result<seq<Page>, BootError>)
    requires LoadEffect(m, tree, bytes, image, E.Validate(image), m', bytes', tree', r)
    ensures Progress(m, tree, m', tree', KeptPages(r))
  {
  }

  lemma NothingShown(m: Mapper, m': Mapper)
    requires Shows(m', LoaderBoot.WalkIn(m), [])
    ensures forall va :: Canonical(va) ==> WalkAt(m', va) == WalkAt(m, va)
  {
    forall va | Canonical(va) ensures WalkAt(m', va) == WalkAt(m, va) { assert WalkAt(m', va) == PagesOver(LoaderBoot.WalkIn(m), [], va); }
  }
}
