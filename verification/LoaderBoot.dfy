/**
 Loading an image into the boot address space: pages are mapped one by one through the kernel's
 mapper, and a failure unmaps and frees them again, last one first.
 */
module LoaderBoot {
  import opened Common
  import opened PagingModel
  import opened PagingTree
  import opened PagingLaws
  import opened PagingRefine
  import opened PagingRuns
  import SM = SpaceModel
  import SL = SpaceLaws
  import opened LoaderModel
  import LP = LoaderPages
  import LB = LoaderBytes
  import LL = LoaderLaws
  import E = ElfModel
  import EL = ElfLaws
  import F = PhysmemModel
  import FL = PhysmemLaws

  type Page = SM.MappedPage
  type Bytes = map<nat, seq<Byte>>

  datatype BootError = Rejected(load: E.LoadError) | TargetPageAlreadyMapped | MappingFailed(cause: MapError) | Lost

  // ---- the model

  /** Maps the requested pages after those in `done`, stopping at the first failure. */
  function MapPages(m: Mapper, bytes: Bytes, done: seq<Page>, requests: seq<Request>): (Mapper, Bytes, seq<Page>, Option<BootError>)
    decreases |requests|
  {
    if requests == [] then (m, bytes, done, None)
    else
      var q := requests[0];
      if Translate(m.mem, m.root, q.virt).mapped then (m, bytes, done, Some(TargetPageAlreadyMapped))
      else
        match MapNewPage(m, q.virt, SM.UserFlags(q.writable, q.executable), UserPage)
        case (m1, Err(e)) => (m1, bytes, done, Some(MappingFailed(e)))
        case (m1, Ok(f)) =>
          MapPages(m1, bytes[f := SM.ZeroPage()], done + [SM.MappedPage(q.virt, f, q.writable, q.executable)], requests[1..])
  }

  /** Unmaps a page and frees its frame. */
  function Discard(m: Mapper, virt: nat): Mapper
  {
    match UnmapPage(m, virt)
    case (m1, Err(_)) => m1
    case (m1, Ok(f)) => m1.(pool := [f] + m1.pool)
  }

  function Rollback(m: Mapper, pages: seq<Page>): Mapper
    decreases |pages|
  {
    if pages == [] then m else Rollback(Discard(m, pages[|pages| - 1].virt), pages[..|pages| - 1])
  }

  function WalkFrom(mem: Memory, root: nat): nat -> Option<Leaf> { (va: nat) => Walk(mem, root, Path(va)) }

  function WalkIn(m: Mapper): nat -> Option<Leaf> { WalkFrom(m.mem, m.root) }

  /** Memory contents as the copying loop sees them; it does not touch tables or the allocator. */
  function Contents(bytes: Bytes): SM.World { SM.World(map[], bytes, F.Allocator([], 0, 0, [], 0, 0, 0, 0, 0)) }

  function LoadImage(m: Mapper, bytes: Bytes, image: seq<Byte>): (Mapper, Bytes, Result<seq<Page>, BootError>)
  {
    PlansInside(image);
    LoadPlan(E.Validate(image), m, bytes, image)
  }

  function LoadPlan(validated: Result<E.Plan, E.LoadError>, m: Mapper, bytes: Bytes, image: seq<Byte>)
    : (Mapper, Bytes, Result<seq<Page>, BootError>)
    requires validated.Ok? ==> FileInside(validated.value.segments, image)
  {
    match validated
    case Err(e) => (m, bytes, Err(Rejected(e)))
    case Ok(plan) =>
      var (m1, bytes1, pages, failed) := MapPages(m, bytes, [], LP.AllRequests(plan));
      if failed.Some? then (Rollback(m1, pages), bytes1, Err(failed.value)) else FillPages(m1, bytes1, pages, image, plan)
  }

  function FillPages(m: Mapper, bytes: Bytes, pages: seq<Page>, image: seq<Byte>, plan: E.Plan): (Mapper, Bytes, Result<seq<Page>, BootError>)
    requires FileInside(plan.segments, image)
  {
    var (w, ok) := CopyAll(Contents(bytes), PhysOf(WalkIn(m)), image, plan.segments);
    if ok then (m, w.bytes, Ok(pages)) else (Rollback(m, pages), w.bytes, Err(Lost))
  }

  // ---- translations while pages come and go

  /** What an address translates to when `pages` lie over the translations in `walk`. */
  function PagesOver(walk: nat -> Option<Leaf>, pages: seq<Page>, va: nat): Option<Leaf>
    decreases |pages|
  {
    if pages == [] then walk(va)
    else
      var last := pages[|pages| - 1];
      if PageOf(va) == PageOf(last.virt) then Some(SL.PageLeafOf(last)) else PagesOver(walk, pages[..|pages| - 1], va)
  }

  ghost predicate Shows(m: Mapper, walk: nat -> Option<Leaf>, pages: seq<Page>)
  {
    forall va :: Canonical(va) ==> WalkAt(m, va) == PagesOver(walk, pages, va)
  }

  /** Each page went where nothing was mapped. */
  ghost predicate Stacked(walk: nat -> Option<Leaf>, pages: seq<Page>)
  {
    forall k, va :: 0 <= k < |pages| && Canonical(va) && PageOf(va) == PageOf(pages[k].virt) ==> PagesOver(walk, pages[..k], va) == None
  }

  function FramesOf(pages: seq<Page>): (r: seq<nat>)
    ensures |r| == |pages| && forall k :: 0 <= k < |r| ==> r[k] == pages[k].frame
  {
    seq(|pages|, k requires 0 <= k < |pages| => pages[k].frame)
  }

  /** Frames of the pool became tables or pages, and nothing else happened to frames. */
  ghost predicate Balanced(pool: seq<nat>, tables: set<nat>, pool': seq<nat>, tables': set<nat>, frames: seq<nat>)
  {
    && tables <= tables' && FL.Distinct(frames) && (forall k :: 0 <= k < |frames| ==> Aligned(frames[k]))
    && Elements(frames) !! Elements(pool') && Elements(frames) !! tables'
    && Elements(pool') + tables' + Elements(frames) == Elements(pool) + tables
  }

  ghost predicate UserPages(pages: seq<Page>) { forall k :: 0 <= k < |pages| ==> Aligned(pages[k].virt) && InUser(pages[k].virt) }

  /** Somewhere between the first page mapped and the last one discarded. */
  ghost predicate Progress(m0: Mapper, tree0: Tree, m: Mapper, tree: Tree, pages: seq<Page>)
  {
    && Inv(m, tree) && m.root == m0.root && Shows(m, WalkIn(m0), pages) && Stacked(WalkIn(m0), pages) && UserPages(pages)
    && Balanced(m0.pool, tree0.Values, m.pool, tree.Values, FramesOf(pages))
  }

  lemma NoProgress(m: Mapper, tree: Tree)
    requires Inv(m, tree)
    ensures Progress(m, tree, m, tree, [])
  {
    assert FramesOf([]) == [];
  }

  // ---- one page more

  lemma ShowsMore(m: Mapper, m': Mapper, walk: nat -> Option<Leaf>, pages: seq<Page>, p: Page)
    requires Shows(m, walk, pages) && Stacked(walk, pages) && PageChanged(m, m', p.virt, Some(SL.PageLeafOf(p)))
    requires Canonical(p.virt) && WalkAt(m, p.virt).None?
    ensures Shows(m', walk, pages + [p]) && Stacked(walk, pages + [p])
  {
    var more := pages + [p];
    assert more[..|pages|] == pages;
    forall va | Canonical(va) && PageOf(va) == PageOf(p.virt) ensures PagesOver(walk, pages, va) == None { SamePagePath(va, p.virt); }
    forall k, va | 0 <= k < |more| && Canonical(va) && PageOf(va) == PageOf(more[k].virt) ensures PagesOver(walk, more[..k], va) == None {
      assert k < |pages| ==> more[..k] == pages[..k] && more[k] == pages[k];
    }
  }

  lemma BalancedMore(
    pool: seq<nat>, tables: set<nat>, pool1: seq<nat>, tables1: set<nat>, frames: seq<nat>, pool2: seq<nat>, tables2: set<nat>, k: nat)
    requires Balanced(pool, tables, pool1, tables1, frames) && k < |pool1| && FL.Distinct(pool1) && Elements(pool1) !! tables1
    requires forall i :: 0 <= i < |pool1| ==> Aligned(pool1[i])
    requires pool2 == pool1[1..][k..] && tables2 == tables1 + Elements(pool1[1..][..k])
    ensures Balanced(pool, tables, pool2, tables2, frames + [pool1[0]])
  {
    var (f, taken) := (pool1[0], pool1[1..][..k]);
    PoolSplit(pool1, k);
    FL.ElementsSnoc(frames, f);
    assert f in Elements(pool1);
    forall i | 0 <= i < |frames| ensures frames[i] != f { assert frames[i] in Elements(frames); }
  }

  lemma PoolSplit(pool: seq<nat>, k: nat)
    requires k < |pool| && FL.Distinct(pool)
    ensures Elements(pool) == {pool[0]} + Elements(pool[1..][..k]) + Elements(pool[1..][k..])
    ensures pool[0] !in pool[1..][..k] && pool[0] !in pool[1..][k..] && Elements(pool[1..][..k]) !! Elements(pool[1..][k..])
  {
    assert pool == [pool[0]] + pool[1..][..k] + pool[1..][k..];
    assert forall i :: 0 <= i < |pool[1..]| ==> pool[1..][i] == pool[i + 1];
  }

  /** A failed attempt may leave new tables behind, nothing else. */
  lemma BalancedSame(
    pool: seq<nat>, tables: set<nat>, pool1: seq<nat>, tables1: set<nat>, frames: seq<nat>, pool2: seq<nat>, tables2: set<nat>)
    requires Balanced(pool, tables, pool1, tables1, frames) && tables1 <= tables2
    requires Elements(pool2) + tables2 == Elements(pool1) + tables1
    ensures Balanced(pool, tables, pool2, tables2, frames)
  {
  }

  lemma MapPageProgress(m0: Mapper, tree0: Tree, m: Mapper, tree: Tree, done: seq<Page>, q: Request) returns (tree': Tree)
    requires Progress(m0, tree0, m, tree, done) && LP.RequestOk(q) && WalkAt(m, q.virt).None?
    ensures var (m', r) := MapNewPage(m, q.virt, SM.UserFlags(q.writable, q.executable), UserPage);
            && (r.Ok? ==> Progress(m0, tree0, m', tree', done + [SM.MappedPage(q.virt, r.value, q.writable, q.executable)]))
            && (r.Err? ==> Progress(m0, tree0, m', tree', done))
  {
    var flags := SM.UserFlags(q.writable, q.executable);
    var k;
    tree', k := MapNewKeepsInv(m, tree, q.virt, flags, UserPage);
    var (m', r) := MapNewPage(m, q.virt, flags, UserPage);
    if r.Ok? {
      PageGained(m0, tree0, m, tree, done, SM.MappedPage(q.virt, r.value, q.writable, q.executable), m', tree', k);
    } else {
      PageMissed(m0, tree0, m, tree, done, q.virt, flags, m', tree', k, r.error);
    }
  }

  lemma PagesMore(pages: seq<Page>, p: Page)
    ensures FramesOf(pages + [p]) == FramesOf(pages) + [p.frame]
    ensures UserPages(pages + [p]) <==> UserPages(pages) && Aligned(p.virt) && InUser(p.virt)
  {
    var more := pages + [p];
    assert more[|pages|] == p && forall k :: 0 <= k < |pages| ==> more[k] == pages[k];
  }

  lemma LastPage(pages: seq<Page>)
    requires pages != []
    ensures var (p, less) := (pages[|pages| - 1], pages[..|pages| - 1]);
            FramesOf(pages) == FramesOf(less) + [p.frame] && (UserPages(pages) ==> UserPages(less))
  {
    var (p, less) := (pages[|pages| - 1], pages[..|pages| - 1]);
    assert pages == less + [p];
    PagesMore(less, p);
  }

  lemma PageGained(m0: Mapper, tree0: Tree, m: Mapper, tree: Tree, done: seq<Page>, p: Page, m': Mapper, tree': Tree, k: nat)
    requires Progress(m0, tree0, m, tree, done) && Aligned(p.virt) && InUser(p.virt) && WalkAt(m, p.virt).None?
    requires Inv(m', tree') && m'.root == m.root
    requires NewPageEffect(m, tree, m', tree', k, p.virt, SM.UserFlags(p.writable, p.executable), Ok(p.frame))
    ensures Progress(m0, tree0, m', tree', done + [p])
  {
    InUserCanonical(p.virt);
    PoolApart(m.pool, tree);
    ShowsMore(m, m', WalkIn(m0), done, p);
    BalancedMore(m0.pool, tree0.Values, m.pool, tree.Values, FramesOf(done), m'.pool, tree'.Values, k);
    PagesMore(done, p);
    Assemble(m0, tree0, m', tree', done + [p]);
  }

  lemma PageMissed(
    m0: Mapper, tree0: Tree, m: Mapper, tree: Tree, done: seq<Page>, virt: nat, flags: Flags, m': Mapper, tree': Tree, k: nat, e: MapError)
    requires Progress(m0, tree0, m, tree, done) && Inv(m', tree') && m'.root == m.root
    requires NewPageEffect(m, tree, m', tree', k, virt, flags, Err(e))
    ensures Progress(m0, tree0, m', tree', done)
  {
    BalancedSame(m0.pool, tree0.Values, m.pool, tree.Values, FramesOf(done), m'.pool, tree'.Values);
    Assemble(m0, tree0, m', tree', done);
  }

  lemma Assemble(m0: Mapper, tree0: Tree, m: Mapper, tree: Tree, pages: seq<Page>)
    requires Inv(m, tree) && m.root == m0.root && Shows(m, WalkIn(m0), pages) && Stacked(WalkIn(m0), pages) && UserPages(pages)
    requires Balanced(m0.pool, tree0.Values, m.pool, tree.Values, FramesOf(pages))
    ensures Progress(m0, tree0, m, tree, pages)
  {
  }

  lemma PoolApart(pool: seq<nat>, tree: Tree)
    requires PoolOk(pool, tree)
    ensures FL.Distinct(pool) && Elements(pool) !! tree.Values
  {
  }

  // ---- one page less

  lemma ShowsLess(m: Mapper, m': Mapper, walk: nat -> Option<Leaf>, pages: seq<Page>)
    requires pages != [] && Shows(m, walk, pages) && Stacked(walk, pages) && PageChanged(m, m', pages[|pages| - 1].virt, None)
    ensures Shows(m', walk, pages[..|pages| - 1]) && Stacked(walk, pages[..|pages| - 1])
  {
    var less := pages[..|pages| - 1];
    forall k, va | 0 <= k < |less| && Canonical(va) && PageOf(va) == PageOf(less[k].virt) ensures PagesOver(walk, less[..k], va) == None {
      assert less[..k] == pages[..k] && less[k] == pages[k];
    }
  }

  lemma BalancedLess(pool: seq<nat>, tables: set<nat>, pool1: seq<nat>, tables1: set<nat>, frames: seq<nat>, f: nat)
    requires Balanced(pool, tables, pool1, tables1, frames + [f])
    ensures Balanced(pool, tables, [f] + pool1, tables1, frames) && f !in pool1 && f !in tables1 && Aligned(f)
  {
    FL.ElementsSnoc(frames, f);
    var all := frames + [f];
    assert all[|frames|] == f;
    assert f in Elements(all);
    assert forall k :: 0 <= k < |frames| ==> all[k] == frames[k];
    assert forall x :: x in [f] + pool1 <==> x == f || x in pool1;
    assert f !in frames by { assert forall k :: 0 <= k < |frames| ==> all[k] != f; }
  }

  lemma PoolMore(pool: seq<nat>, tree: Tree, f: nat)
    requires PoolOk(pool, tree) && f !in pool && f !in tree.Values && Aligned(f)
    ensures PoolOk([f] + pool, tree)
  {
    var more := [f] + pool;
    assert forall k :: 0 < k < |more| ==> more[k] == pool[k - 1];
  }

  lemma DiscardOk(m0: Mapper, tree0: Tree, m: Mapper, tree: Tree, pages: seq<Page>)
    requires Progress(m0, tree0, m, tree, pages) && pages != []
    ensures Progress(m0, tree0, Discard(m, pages[|pages| - 1].virt), tree, pages[..|pages| - 1])
  {
    var p := pages[|pages| - 1];
    UnmapPageRefines(m, tree, p.virt);
    UnmapKeepsInv(m, tree, p.virt);
    LastShown(m, WalkIn(m0), pages);
    PageLost(m0, tree0, m, tree, pages, UnmapPage(m, p.virt).0);
  }

  lemma LastShown(m: Mapper, walk: nat -> Option<Leaf>, pages: seq<Page>)
    requires pages != [] && Shows(m, walk, pages) && UserPages(pages)
    ensures WalkAt(m, pages[|pages| - 1].virt) == Some(SL.PageLeafOf(pages[|pages| - 1]))
  {
    InUserCanonical(pages[|pages| - 1].virt);
  }

  lemma PageLost(m0: Mapper, tree0: Tree, m: Mapper, tree: Tree, pages: seq<Page>, m1: Mapper)
    requires Progress(m0, tree0, m, tree, pages) && pages != [] && Inv(m1, tree) && m1.root == m.root && m1.pool == m.pool
    requires PageChanged(m, m1, pages[|pages| - 1].virt, None)
    ensures Progress(m0, tree0, m1.(pool := [pages[|pages| - 1].frame] + m1.pool), tree, pages[..|pages| - 1])
  {
    var (p, less) := (pages[|pages| - 1], pages[..|pages| - 1]);
    ShowsLess(m, m1, WalkIn(m0), pages);
    LastPage(pages);
    BalancedLess(m0.pool, tree0.Values, m.pool, tree.Values, FramesOf(less), p.frame);
    PoolMore(m1.pool, tree, p.frame);
    FreedKeeps(m1, tree, p.frame, WalkIn(m0), less);
    Assemble(m0, tree0, m1.(pool := [p.frame] + m1.pool), tree, less);
  }

  lemma InUserCanonical(va: nat)
    requires InUser(va)
    ensures Canonical(va)
  {
  }

  lemma FreedKeeps(m: Mapper, tree: Tree, f: nat, walk: nat -> Option<Leaf>, pages: seq<Page>)
    requires Inv(m, tree) && PoolOk([f] + m.pool, tree) && Shows(m, walk, pages)
    ensures var m' := m.(pool := [f] + m.pool); Inv(m', tree) && Shows(m', walk, pages)
  {
    var m' := m.(pool := [f] + m.pool);
    SameTables(m, m');
    SameKeeps(m, m');
  }

  /** Discarding the pages, last one first, brings every translation back and returns every page. */
  lemma {:induction false} RollbackOk(m0: Mapper, tree0: Tree, m: Mapper, tree: Tree, pages: seq<Page>)
    requires Progress(m0, tree0, m, tree, pages)
    ensures Progress(m0, tree0, Rollback(m, pages), tree, [])
    decreases |pages|
  {
    if pages != [] {
      DiscardOk(m0, tree0, m, tree, pages);
      RollbackOk(m0, tree0, Discard(m, pages[|pages| - 1].virt), tree, pages[..|pages| - 1]);
    }
  }

  // ---- all pages

  /** The pages appended to `done` answer the requests, in order, and are zeroed. */
  ghost predicate Answered(bytes: Bytes, done: seq<Page>, pages: seq<Page>, requests: seq<Request>)
  {
    && |pages| == |done| + |requests| && pages[..|done|] == done
    && (forall i :: |done| <= i < |pages| ==> LP.Answers(pages[i], requests[i - |done|]) && Zeroed(bytes, pages[i].frame))
  }

  predicate Zeroed(bytes: Bytes, f: nat) { f in bytes && bytes[f] == SM.ZeroPage() }

  /** Contents of frames that were not handed out stay. */
  ghost predicate SameBytes(bytes: Bytes, bytes': Bytes, pool: seq<nat>)
  {
    forall f :: f in bytes && f !in pool ==> f in bytes' && bytes'[f] == bytes[f]
  }

  ghost predicate Mapped(
    m0: Mapper, tree0: Tree, pool: seq<nat>, bytes: Bytes, done: seq<Page>, requests: seq<Request>, m': Mapper, bytes': Bytes,
    pages: seq<Page>, failed: Option<BootError>, tree': Tree)
  {
    && Progress(m0, tree0, m', tree', pages) && SameBytes(bytes, bytes', pool) && Elements(m'.pool) <= Elements(pool)
    && (failed.None? ==> Answered(bytes', done, pages, requests))
    && (failed.Some? ==> failed.value.TargetPageAlreadyMapped? || failed.value.MappingFailed?)
  }

  lemma {:induction false} MapPagesOk(m0: Mapper, tree0: Tree, m: Mapper, tree: Tree, bytes: Bytes, done: seq<Page>, requests: seq<Request>)
    returns (tree': Tree)
    requires Progress(m0, tree0, m, tree, done) && forall k :: 0 <= k < |requests| ==> LP.RequestOk(requests[k])
    ensures var (m', bytes', pages, failed) := MapPages(m, bytes, done, requests);
            Mapped(m0, tree0, m.pool, bytes, done, requests, m', bytes', pages, failed, tree')
    decreases |requests|, 2
  {
    tree' := tree;
    if requests == [] {
      MappedNone(m0, tree0, m, tree, bytes, done, requests, None);
    } else if Translate(m.mem, m.root, requests[0].virt).mapped {
      MappedNone(m0, tree0, m, tree, bytes, done, requests, Some(TargetPageAlreadyMapped));
    } else {
      tree' := MapPagesNext(m0, tree0, m, tree, bytes, done, requests);
    }
  }

  lemma MapPagesNext(m0: Mapper, tree0: Tree, m: Mapper, tree: Tree, bytes: Bytes, done: seq<Page>, requests: seq<Request>) returns (tree': Tree)
    requires Progress(m0, tree0, m, tree, done) && forall k :: 0 <= k < |requests| ==> LP.RequestOk(requests[k])
    requires requests != [] && !Translate(m.mem, m.root, requests[0].virt).mapped
    ensures var (m', bytes', pages, failed) := MapPages(m, bytes, done, requests);
            Mapped(m0, tree0, m.pool, bytes, done, requests, m', bytes', pages, failed, tree')
    decreases |requests|, 1
  {
    var q := requests[0];
    tree' := MapPageProgress(m0, tree0, m, tree, done, q);
    NewPagePool(m, tree, q);
    MapPagesShape(m, bytes, done, requests);
    tree' := Continued(m0, tree0, m.pool, tree', bytes, done, requests, MapNewPage(m, q.virt, SM.UserFlags(q.writable, q.executable), UserPage));
  }

  /** The rest of the loop after one attempt to map. */
  function Continue(bytes: Bytes, done: seq<Page>, requests: seq<Request>, attempt: (Mapper, Result<nat, MapError>))
    : (Mapper, Bytes, seq<Page>, Option<BootError>)
    requires requests != []
  {
    if attempt.1.Err? then (attempt.0, bytes, done, Some(MappingFailed(attempt.1.error)))
    else
      MapPages(attempt.0, bytes[attempt.1.value := SM.ZeroPage()],
               done + [SM.MappedPage(requests[0].virt, attempt.1.value, requests[0].writable, requests[0].executable)], requests[1..])
  }

  lemma MapPagesShape(m: Mapper, bytes: Bytes, done: seq<Page>, requests: seq<Request>)
    requires requests != [] && !Translate(m.mem, m.root, requests[0].virt).mapped
    ensures MapPages(m, bytes, done, requests)
            == Continue(bytes, done, requests,
                        MapNewPage(m, requests[0].virt, SM.UserFlags(requests[0].writable, requests[0].executable), UserPage))
  {
  }

  lemma Continued(
    m0: Mapper, tree0: Tree, pool: seq<nat>, tree1: Tree, bytes: Bytes, done: seq<Page>, requests: seq<Request>,
    attempt: (Mapper, Result<nat, MapError>)) returns (tree': Tree)
    requires requests != [] && forall k :: 0 <= k < |requests| ==> LP.RequestOk(requests[k])
    requires attempt.1.Err? ==> Progress(m0, tree0, attempt.0, tree1, done)
    requires attempt.1.Ok? ==>
               && attempt.1.value in Elements(pool) && attempt.1.value !in attempt.0.pool
               && Progress(m0, tree0, attempt.0, tree1,
                           done + [SM.MappedPage(requests[0].virt, attempt.1.value, requests[0].writable, requests[0].executable)])
    requires Elements(attempt.0.pool) <= Elements(pool)
    ensures var (m', bytes', pages, failed) := Continue(bytes, done, requests, attempt);
            Mapped(m0, tree0, pool, bytes, done, requests, m', bytes', pages, failed, tree')
    decreases |requests|, 0
  {
    var (q, m1, r) := (requests[0], attempt.0, attempt.1);
    tree' := tree1;
    if r.Ok? {
      var p := SM.MappedPage(q.virt, r.value, q.writable, q.executable);
      var bytes1 := bytes[r.value := SM.ZeroPage()];
      tree' := MapPagesOk(m0, tree0, m1, tree', bytes1, done + [p], requests[1..]);
      var (m2, bytes2, pages, failed) := MapPages(m1, bytes1, done + [p], requests[1..]);
      MappedMore(m0, tree0, pool, bytes, done, requests, p, m1, bytes1, m2, bytes2, pages, failed, tree');
    } else {
      MappedFailed(m0, tree0, pool, bytes, done, requests, m1, Some(MappingFailed(r.error)), tree');
    }
  }

  lemma MappedFailed(
    m0: Mapper, tree0: Tree, pool: seq<nat>, bytes: Bytes, done: seq<Page>, requests: seq<Request>, m1: Mapper, failed: Option<BootError>, tree': Tree)
    requires Progress(m0, tree0, m1, tree', done) && Elements(m1.pool) <= Elements(pool) && failed.Some? && failed.value.MappingFailed?
    ensures Mapped(m0, tree0, pool, bytes, done, requests, m1, bytes, done, failed, tree')
  {
  }

  lemma MappedNone(
    m0: Mapper, tree0: Tree, m: Mapper, tree: Tree, bytes: Bytes, done: seq<Page>, requests: seq<Request>, failed: Option<BootError>)
    requires Progress(m0, tree0, m, tree, done) && failed == if requests == [] then None else Some(TargetPageAlreadyMapped)
    ensures Mapped(m0, tree0, m.pool, bytes, done, requests, m, bytes, done, failed, tree)
  {
    assert done[..|done|] == done;
  }

  lemma NewPagePool(m: Mapper, tree: Tree, q: Request)
    requires Inv(m, tree)
    ensures var (m1, r) := MapNewPage(m, q.virt, SM.UserFlags(q.writable, q.executable), UserPage);
            && Elements(m1.pool) <= Elements(m.pool)
            && (r.Ok? ==> r.value in Elements(m.pool) && r.value !in m1.pool)
  {
    var flags := SM.UserFlags(q.writable, q.executable);
    var tree', k := MapNewKeepsInv(m, tree, q.virt, flags, UserPage);
    var (m1, r) := MapNewPage(m, q.virt, flags, UserPage);
    if r.Ok? {
      PoolSplit(m.pool, k);
    } else {
      PoolApart(m1.pool, tree');
    }
  }

  lemma MappedMore(
    m0: Mapper, tree0: Tree, pool: seq<nat>, bytes: Bytes, done: seq<Page>, requests: seq<Request>, p: Page, m1: Mapper, bytes1: Bytes,
    m2: Mapper, bytes2: Bytes, pages: seq<Page>, failed: Option<BootError>, tree': Tree)
    requires requests != [] && LP.Answers(p, requests[0]) && bytes1 == bytes[p.frame := SM.ZeroPage()]
    requires p.frame in Elements(pool) && p.frame !in m1.pool && Elements(m1.pool) <= Elements(pool)
    requires Mapped(m0, tree0, m1.pool, bytes1, done + [p], requests[1..], m2, bytes2, pages, failed, tree')
    ensures Mapped(m0, tree0, pool, bytes, done, requests, m2, bytes2, pages, failed, tree')
  {
    forall f | f in bytes && f !in pool ensures f in bytes2 && bytes2[f] == bytes[f] { assert f !in Elements(m1.pool) && f != p.frame; }
    if failed.None? { AnsweredMore(bytes2, done, p, pages, requests); }
  }

  lemma AnsweredMore(bytes: Bytes, done: seq<Page>, p: Page, pages: seq<Page>, requests: seq<Request>)
    requires requests != [] && Answered(bytes, done + [p], pages, requests[1..]) && LP.Answers(p, requests[0]) && Zeroed(bytes, p.frame)
    ensures Answered(bytes, done, pages, requests)
  {
    assert pages[..|done|] == pages[..|done + [p]|][..|done|];
    assert pages[|done|] == pages[..|done + [p]|][|done|];
    forall i | |done| <= i < |pages| ensures LP.Answers(pages[i], requests[i - |done|]) && Zeroed(bytes, pages[i].frame) {
      if i > |done| { assert requests[1..][i - |done + [p]|] == requests[i - |done|]; }
    }
  }

  // ---- contents

  /** A page list as the copying lemmas take it. */
  function Listed(pages: seq<Page>): SM.Space { SM.Space(0, [], pages, true) }

  lemma {:induction false} PagesOverAt(walk: nat -> Option<Leaf>, pages: seq<Page>, k: nat, va: nat)
    requires Stacked(walk, pages) && k < |pages| && Canonical(va) && PageOf(va) == PageOf(pages[k].virt)
    ensures PagesOver(walk, pages, va) == Some(SL.PageLeafOf(pages[k]))
    ensures forall j :: k < j < |pages| ==> PageOf(pages[j].virt) != PageOf(va)
    decreases |pages|
  {
    var (n, less) := (|pages| - 1, pages[..|pages| - 1]);
    if k < n {
      forall i, x | 0 <= i < |less| && Canonical(x) && PageOf(x) == PageOf(less[i].virt) ensures PagesOver(walk, less[..i], x) == None {
        assert less[..i] == pages[..i] && less[i] == pages[i];
      }
      PagesOverAt(walk, less, k, va);
      assert PageOf(pages[n].virt) != PageOf(va);
    }
  }

  lemma SeesPages(m: Mapper, walk: nat -> Option<Leaf>, pages: seq<Page>)
    requires Shows(m, walk, pages) && Stacked(walk, pages) && UserPages(pages)
    ensures LL.Sees(WalkIn(m), Listed(pages))
    ensures forall i, j :: 0 <= i < j < |pages| ==> pages[i].virt != pages[j].virt
  {
    forall k, va: nat | 0 <= k < |pages| && va - va % PAGE == pages[k].virt ensures WalkIn(m)(va) == Some(SL.PageLeafOf(pages[k])) {
      InPage(pages[k].virt, va);
      PagesOverAt(walk, pages, k, va);
    }
    forall i, j | 0 <= i < j < |pages| ensures pages[i].virt != pages[j].virt {
      InUserCanonical(pages[i].virt);
      PagesOverAt(walk, pages, i, pages[i].virt);
    }
  }

  lemma InPage(start: nat, va: nat)
    requires Aligned(start) && InUser(start) && va - va % PAGE == start
    ensures PageOf(va) == PageOf(start) && Canonical(va)
  {
  }

  lemma PagesLaidOut(pages: seq<Page>)
    requires UserPages(pages) && (forall i, j :: 0 <= i < j < |pages| ==> pages[i].virt != pages[j].virt)
    requires FL.Distinct(FramesOf(pages)) && forall k :: 0 <= k < |pages| ==> Aligned(FramesOf(pages)[k])
    ensures LB.Layout(Listed(pages))
  {
    forall i | 0 <= i < |pages| ensures Aligned(pages[i].frame) { assert FramesOf(pages)[i] == pages[i].frame; }
    forall i, j | 0 <= i < j < |pages| ensures pages[i].frame != pages[j].frame { assert FramesOf(pages)[i] != FramesOf(pages)[j]; }
  }

  /** Every byte of every segment page and of the stack is what the image assigns to it. */
  ghost predicate PagesLoaded(walk: nat -> Option<Leaf>, w: SM.World, image: seq<Byte>, segments: seq<E.Segment>)
    requires FileInside(segments, image)
  {
    && (forall i, va: nat :: 0 <= i < |segments| && E.PageStart(segments[i]) <= va < E.PageEnd(segments[i]) ==>
          LL.LoadedAt(walk, w, image, segments[i], va))
    && (forall va: nat :: E.STACK_PAGE <= va < STACK_TOP ==> LL.StackByte(walk, w, va))
  }

  lemma FilledOk(walk: nat -> Option<Leaf>, bytes: Bytes, pages: seq<Page>, image: seq<Byte>, plan: E.Plan)
    requires LL.Sees(walk, Listed(pages)) && LB.Layout(Listed(pages)) && EL.PlanOk(plan, |image|) && FileInside(plan.segments, image)
    requires Answered(bytes, [], pages, LP.AllRequests(plan))
    ensures var (w, ok) := CopyAll(Contents(bytes), PhysOf(walk), image, plan.segments);
            && ok && PagesLoaded(walk, w, image, plan.segments)
            && forall f :: f in bytes && f !in FramesOf(pages) ==> f in w.bytes && w.bytes[f] == bytes[f]
  {
    var (w0, s) := (Contents(bytes), Listed(pages));
    assert LL.Furnished(w0, s, LP.AllRequests(plan));
    LL.SeesPhysOk(walk, s);
    LL.AllReachedOk(PhysOf(walk), w0, s, plan, |image|);
    LB.CopyAllOk(w0, PhysOf(walk), s, image, plan.segments);
    var w := CopyAll(w0, PhysOf(walk), image, plan.segments).0;
    PagesLoadedOk(walk, w0, w, s, image, plan);
    assert SM.PageFrames(s) == FramesOf(pages);
    forall f | f in bytes && f !in FramesOf(pages) ensures f in w.bytes && w.bytes[f] == bytes[f] { assert SL.SameBytes(w0, w, f); }
  }

  lemma PagesLoadedOk(walk: nat -> Option<Leaf>, w: SM.World, w': SM.World, s: SM.Space, image: seq<Byte>, plan: E.Plan)
    requires LL.Sees(walk, s) && EL.PlanOk(plan, |image|) && FileInside(plan.segments, image)
    requires LL.Furnished(w, s, LP.AllRequests(plan)) && LL.Overlaid(w, w', s, image, plan.segments)
    ensures PagesLoaded(walk, w', image, plan.segments)
  {
    forall i, va: nat | 0 <= i < |plan.segments| && E.PageStart(plan.segments[i]) <= va < E.PageEnd(plan.segments[i])
      ensures LL.LoadedAt(walk, w', image, plan.segments[i], va)
    {
      LL.SegmentLoaded(walk, w, w', s, image, plan, i, va);
    }
    forall va: nat | E.STACK_PAGE <= va < STACK_TOP ensures LL.StackByte(walk, w', va) { LL.StackLoaded(walk, w, w', s, image, plan, va); }
  }

  // ---- the whole

  ghost predicate LoadEffect(
    m: Mapper, tree: Tree, bytes: Bytes, image: seq<Byte>, validated: Result<E.Plan, E.LoadError>, m': Mapper, bytes': Bytes, tree': Tree,
    r: Result<seq<Page>, BootError>)
  {
    && SameBytes(bytes, bytes', m.pool)
    && match r
       case Ok(pages) =>
         && validated.Ok? && FileInside(validated.value.segments, image) && Progress(m, tree, m', tree', pages)
         && PagesLoaded(WalkIn(m'), Contents(bytes'), image, validated.value.segments)
         && |pages| == |LP.AllRequests(validated.value)|
       case Err(e) =>
         Progress(m, tree, m', tree', []) && (e.Rejected? <==> validated.Err?) && (validated.Err? ==> e == Rejected(validated.error)) && e != Lost && (e.Rejected? ==> m' == m && bytes' == bytes)
  }

  /**
   Loading into the boot address space either puts every byte of the image in place or brings every
   translation back. After a failure the frames of all pages are free again; what stays in use is
   exactly the new page tables, and contents of frames that were not free never change.
   */
  lemma LoadImageOk(m: Mapper, tree: Tree, bytes: Bytes, image: seq<Byte>) returns (tree': Tree)
    requires Inv(m, tree)
    ensures var (m', bytes', r) := LoadImage(m, bytes, image);
            LoadEffect(m, tree, bytes, image, E.Validate(image), m', bytes', tree', r)
  {
    PlansInside(image);
    if E.Validate(image).Ok? { EL.ValidateSound(image); }
    tree' := LoadPlanOk(E.Validate(image), m, tree, bytes, image);
  }

  lemma LoadPlanOk(validated: Result<E.Plan, E.LoadError>, m: Mapper, tree: Tree, bytes: Bytes, image: seq<Byte>) returns (tree': Tree)
    requires Inv(m, tree)
    requires validated.Ok? ==> FileInside(validated.value.segments, image) && EL.PlanOk(validated.value, |image|)
    ensures var (m', bytes', r) := LoadPlan(validated, m, bytes, image); LoadEffect(m, tree, bytes, image, validated, m', bytes', tree', r)
  {
    NoProgress(m, tree);
    tree' := tree;
    if validated.Ok? {
      var plan := validated.value;
      LP.AllRequestsOk(plan, |image|);
      tree' := MapPagesOk(m, tree, m, tree, bytes, [], LP.AllRequests(plan));
      var (m1, bytes1, pages, failed) := MapPages(m, bytes, [], LP.AllRequests(plan));
      if failed.Some? {
        RollbackOk(m, tree, m1, tree', pages);
      } else {
        FillPagesOk(m, tree, bytes, m1, tree', bytes1, pages, image, plan);
      }
    }
  }

  lemma FillPagesOk(
    m: Mapper, tree: Tree, bytes: Bytes, m1: Mapper, tree1: Tree, bytes1: Bytes, pages: seq<Page>, image: seq<Byte>, plan: E.Plan)
    requires Progress(m, tree, m1, tree1, pages) && Answered(bytes1, [], pages, LP.AllRequests(plan)) && SameBytes(bytes, bytes1, m.pool)
    requires EL.PlanOk(plan, |image|) && FileInside(plan.segments, image) && PoolOk(m.pool, tree)
    ensures var (m', bytes', r) := FillPages(m1, bytes1, pages, image, plan); LoadEffect(m, tree, bytes, image, Ok(plan), m', bytes', tree1, r)
  {
    SeesPages(m1, WalkIn(m), pages);
    PagesLaidOut(pages);
    FilledOk(WalkIn(m1), bytes1, pages, image, plan);
    var w := CopyAll(Contents(bytes1), PhysOf(WalkIn(m1)), image, plan.segments).0;
    FromPool(m, tree, m1, tree1, pages);
    forall f | f in bytes && f !in m.pool ensures f in w.bytes && w.bytes[f] == bytes[f] { assert f in FramesOf(pages) ==> f in Elements(m.pool); }
    SameContents(WalkIn(m1), w, image, plan.segments);
  }

  lemma FromPool(m: Mapper, tree: Tree, m1: Mapper, tree1: Tree, pages: seq<Page>)
    requires Balanced(m.pool, tree.Values, m1.pool, tree1.Values, FramesOf(pages))
    ensures Elements(FramesOf(pages)) <= Elements(m.pool)
  {
    forall f | f in Elements(FramesOf(pages)) ensures f in Elements(m.pool) { assert f !in tree.Values; }
  }

  lemma SameContents(walk: nat -> Option<Leaf>, w: SM.World, image: seq<Byte>, segments: seq<E.Segment>)
    requires FileInside(segments, image) && PagesLoaded(walk, w, image, segments)
    ensures PagesLoaded(walk, Contents(w.bytes), image, segments)
  {
    forall f ensures FrameBytes(Contents(w.bytes), f) == FrameBytes(w, f) {}
    forall i, va: nat | 0 <= i < |segments| && E.PageStart(segments[i]) <= va < E.PageEnd(segments[i])
      ensures LL.LoadedAt(walk, Contents(w.bytes), image, segments[i], va)
    {
      assert LL.LoadedAt(walk, w, image, segments[i], va);
    }
    forall va: nat | E.STACK_PAGE <= va < STACK_TOP ensures LL.StackByte(walk, Contents(w.bytes), va) { assert LL.StackByte(walk, w, va); }
  }
}
