/** When a load into the boot address space succeeds: how many frames it needs, read off its requests. */
module LoaderNeeds {
  import opened Common
  import opened PagingModel
  import opened PagingTree
  import opened PagingLaws
  import opened PagingRefine
  import opened PagingRuns
  import opened PagingEdits
  import opened LoaderBoot
  import LM = LoaderModel
  import SM = SpaceModel
  import LP = LoaderPages
  import E = ElfModel
  import EL = ElfLaws
  import FL = PhysmemLaws

  // ---- the tables on the way to pages

  /** The tables below the root on the way to an address. */
  function Way(va: nat): set<seq<nat>> { {Path(va)[..1], Path(va)[..2], Path(va)[..3]} }

  function Ways(requests: seq<LM.Request>): set<seq<nat>>
  {
    if requests == [] then {} else Way(requests[0].virt) + Ways(requests[1..])
  }

  /** One frame for each page and one for each table on the ways that is not there yet. */
  function Needed(tree: Tree, requests: seq<LM.Request>): nat { |requests| + |Ways(requests) - tree.Keys| }

  ghost predicate Unmapped(m: Mapper, requests: seq<LM.Request>)
  {
    forall k :: 0 <= k < |requests| ==> WalkAt(m, requests[k].virt).None?
  }

  lemma WayMissing(mem: Memory, root: nat, tree: Tree, va: nat)
    requires TreeOk(mem, root, tree)
    ensures TablesMissing(mem, root, Path(va)) == |Way(va) - tree.Keys|
  {
    assert Path(va)[..0] == [] && Path(va)[0..] == Path(va);
    MissingIsIn(mem, root, tree, va, 0);
    WayClosed(mem, root, tree, Path(va));
    WayCount(tree, Path(va));
  }

  lemma WayClosed(mem: Memory, root: nat, tree: Tree, q: seq<nat>)
    requires TreeOk(mem, root, tree) && |q| == 4
    ensures (q[..3] in tree ==> q[..2] in tree) && (q[..2] in tree ==> q[..1] in tree)
  {
    assert q[..3][..|q[..3]| - 1] == q[..2] && q[..2][..|q[..2]| - 1] == q[..1];
  }

  lemma WayCount(tree: Tree, q: seq<nat>)
    requires |q| == 4 && (q[..3] in tree ==> q[..2] in tree) && (q[..2] in tree ==> q[..1] in tree)
    ensures MissingIn(tree, q, 0) == |{q[..1], q[..2], q[..3]} - tree.Keys|
  {
    assert |q[..1]| == 1 && |q[..2]| == 2 && |q[..3]| == 3;
    MissingFrom(tree.Keys, q[..1], q[..2], q[..3]);
  }

  lemma MissingFrom(keys: set<seq<nat>>, a: seq<nat>, b: seq<nat>, c: seq<nat>)
    requires a != b && b != c && a != c && (c in keys ==> b in keys) && (b in keys ==> a in keys)
    ensures |{a, b, c} - keys| == if c in keys then 0 else if b in keys then 1 else if a in keys then 2 else 3
  {
    if c in keys {
      assert {a, b, c} - keys == {};
    } else if b in keys {
      assert {a, b, c} - keys == {c};
    } else if a in keys {
      assert {a, b, c} - keys == {b, c};
    } else {
      assert {a, b, c} - keys == {a, b, c};
    }
  }

  // ---- after one page

  lemma {:induction false} TablesCount(tree: Tree)
    requires forall p, q :: p in tree && q in tree && tree[p] == tree[q] ==> p == q
    ensures |tree.Values| == |tree.Keys|
    decreases |tree|
  {
    if tree.Keys != {} {
      var p :| p in tree;
      var rest := tree - {p};
      TablesCount(rest);
      assert tree.Keys == rest.Keys + {p};
      forall v ensures v in tree.Values <==> v in rest.Values || v == tree[p] {
        if v in tree.Values && v != tree[p] {
          var q :| q in tree && tree[q] == v;
          assert rest[q] == v;
        }
      }
      assert tree.Values == rest.Values + {tree[p]};
    }
  }

  /** The tables after a page was mapped: those before, and those on its way. */
  lemma KeysAfter(mem: Memory, root: nat, tree: Tree, tree': Tree, va: nat)
    requires [] in tree && TreeOk(mem, root, tree') && TreeEdited(tree, tree', Path(va))
    requires LeafAt(mem, tree', Path(va)).Some? && !LeafAt(mem, tree', Path(va)).value.huge
    ensures tree'.Keys == tree.Keys + Way(va)
  {
    var q := Path(va);
    assert q[..3] in tree';
    assert q[..3][..2] == q[..2] && q[..2][..1] == q[..1];
    forall p | p in tree'.Keys ensures p in tree.Keys + Way(va) {
      if p !in tree { assert p == q[..|p|] && |p| <= 3 && p != []; }
    }
  }

  lemma DrawnCount(tree: Tree, tree': Tree, way: set<seq<nat>>, taken: seq<nat>)
    requires forall p, q :: p in tree && q in tree && tree[p] == tree[q] ==> p == q
    requires forall p, q :: p in tree' && q in tree' && tree'[p] == tree'[q] ==> p == q
    requires tree'.Keys == tree.Keys + way && tree'.Values == tree.Values + Elements(taken) && FL.Distinct(taken) && Elements(taken) !! tree.Values
    ensures |taken| == |way - tree.Keys|
  {
    TablesCount(tree);
    TablesCount(tree');
    FL.DistinctSize(taken);
    AddedCount(tree.Keys, way, tree'.Keys);
    AddedValues(tree.Values, Elements(taken), tree'.Values);
  }

  lemma AddedCount(keys: set<seq<nat>>, way: set<seq<nat>>, keys': set<seq<nat>>)
    requires keys' == keys + way
    ensures |keys'| == |keys| + |way - keys|
  {
    assert keys' == keys + (way - keys);
  }

  lemma AddedValues(values: set<nat>, taken: set<nat>, values': set<nat>)
    requires values' == values + taken && taken !! values
    ensures |values'| == |values| + |taken|
  {
  }

  /** A page that was mapped drew exactly the tables missing on its way. */
  lemma DrewMissing(m: Mapper, tree: Tree, q: LM.Request, m1: Mapper, f: nat, tree1: Tree, k: nat)
    requires Inv(m, tree) && Inv(m1, tree1) && m1.root == m.root && InUser(q.virt) && TreeEdited(tree, tree1, Path(q.virt))
    requires NewPageEffect(m, tree, m1, tree1, k, q.virt, SM.UserFlags(q.writable, q.executable), Ok(f))
    ensures tree1.Keys == tree.Keys + Way(q.virt) && k == |Way(q.virt) - tree.Keys|
  {
    WalkRoot(m1.mem, m1.root, tree1, q.virt);
    InUserCanonical(q.virt);
    KeysAfter(m1.mem, m1.root, tree, tree1, q.virt);
    PoolApart(m.pool, tree);
    TakenApart(m.pool, tree.Values, k);
    DrawnCount(tree, tree1, Way(q.virt), m.pool[1..][..k]);
  }

  lemma TakenApart(pool: seq<nat>, tables: set<nat>, k: nat)
    requires k < |pool| && FL.Distinct(pool) && Elements(pool) !! tables
    ensures FL.Distinct(pool[1..][..k]) && Elements(pool[1..][..k]) !! tables && |pool[1..][..k]| == k
  {
    var taken := pool[1..][..k];
    assert forall i :: 0 <= i < k ==> taken[i] == pool[i + 1];
    forall x | x in Elements(taken) ensures x in Elements(pool) {}
  }

  // ---- all pages

  lemma NeededNext(keys: set<seq<nat>>, way: set<seq<nat>>, rest: set<seq<nat>>)
    ensures |(way + rest) - keys| == |way - keys| + |rest - (keys + way)|
  {
    assert (way + rest) - keys == (way - keys) + (rest - (keys + way));
  }

  lemma SuppliesBoth(pool: seq<nat>, k: nat, n: nat)
    ensures Supplies(pool, 1 + k + n) <==> Supplies(pool, 1 + k) && Supplies(pool[1..][k..], n)
    ensures Supplies(pool, 1 + k + n) ==> Supplies(pool, 1 + k)
  {
    if Supplies(pool, 1 + k) {
      assert pool[1..][k..] == pool[1 + k..];
      forall i | 0 <= i < |pool| - 1 - k ensures pool[1..][k..][i] == pool[1 + k + i] {}
      if Supplies(pool[1..][k..], n) {
        forall i | 0 <= i < 1 + k + n ensures pool[i] < IDENTITY_BYTES { if i > k { assert pool[i] == pool[1..][k..][i - 1 - k]; } }
      }
    }
  }

  /** Mapping one page leaves the others unmapped if they were. */
  lemma UnmappedRest(m: Mapper, m1: Mapper, requests: seq<LM.Request>, leaf: Leaf)
    requires LP.RequestsOk(requests) && requests != [] && PageChanged(m, m1, requests[0].virt, Some(leaf)) && WalkAt(m, requests[0].virt).None?
    ensures Unmapped(m1, requests[1..]) <==> Unmapped(m, requests)
  {
    var rest := requests[1..];
    forall k | 0 <= k < |rest| ensures WalkAt(m1, rest[k].virt) == WalkAt(m, rest[k].virt) {
      assert rest[k] == requests[k + 1];
      InUserCanonical(rest[k].virt);
      OtherPage(requests[0].virt, rest[k].virt);
    }
    forall k | 0 < k < |requests| ensures requests[k] == rest[k - 1] {}
  }

  lemma OtherPage(a: nat, b: nat)
    requires Aligned(a) && Aligned(b) && a != b
    ensures PageOf(a) != PageOf(b)
  {
  }

  /** The loop succeeds exactly if no page is mapped and the pool supplies pages and missing tables. */
  lemma {:induction false} MapPagesIff(m: Mapper, tree: Tree, bytes: Bytes, done: seq<Page>, requests: seq<LM.Request>)
    requires Inv(m, tree) && LP.RequestsOk(requests)
    ensures MapPages(m, bytes, done, requests).3.None? <==> Unmapped(m, requests) && Supplies(m.pool, Needed(tree, requests))
    decreases |requests|, 1
  {
    if requests == [] {
      assert Ways(requests) - tree.Keys == {};
    } else if Translate(m.mem, m.root, requests[0].virt).mapped {
      assert !Unmapped(m, requests);
    } else {
      var q := requests[0];
      var flags := SM.UserFlags(q.writable, q.executable);
      var tree1, k := MapNewKeepsInv(m, tree, q.virt, flags, UserPage);
      NewPageEdits(m, tree, q.virt, flags, UserPage, tree1);
      MapPagesShape(m, bytes, done, requests);
      WayMissing(m.mem, m.root, tree, q.virt);
      NextIff(m, tree, bytes, done, requests, MapNewPage(m, q.virt, flags, UserPage), tree1, k);
    }
  }

  lemma NextIff(
    m: Mapper, tree: Tree, bytes: Bytes, done: seq<Page>, requests: seq<LM.Request>, attempt: (Mapper, Result<nat, MapError>), tree1: Tree, k: nat)
    requires Inv(m, tree) && LP.RequestsOk(requests) && requests != [] && WalkAt(m, requests[0].virt).None?
    requires Inv(attempt.0, tree1) && attempt.0.root == m.root && TreeEdited(tree, tree1, Path(requests[0].virt))
    requires NewPageEffect(m, tree, attempt.0, tree1, k, requests[0].virt, SM.UserFlags(requests[0].writable, requests[0].executable), attempt.1)
    requires attempt.1.Ok? <==> Supplies(m.pool, |Way(requests[0].virt) - tree.Keys| + 1)
    ensures LoaderBoot.Continue(bytes, done, requests, attempt).3.None? <==> Unmapped(m, requests) && Supplies(m.pool, Needed(tree, requests))
    decreases |requests|, 0
  {
    NeededSplit(m.pool, tree, requests);
    if attempt.1.Ok? {
      DrewMissing(m, tree, requests[0], attempt.0, attempt.1.value, tree1, k);
      ContinueIff(m, tree, bytes, done, requests, attempt.0, attempt.1.value, tree1, k);
    }
  }

  lemma ContinueIff(m: Mapper, tree: Tree, bytes: Bytes, done: seq<Page>, requests: seq<LM.Request>, m1: Mapper, f: nat, tree1: Tree, k: nat)
    requires LP.RequestsOk(requests) && requests != [] && WalkAt(m, requests[0].virt).None? && Inv(m1, tree1)
    requires PageChanged(m, m1, requests[0].virt, Some(LeafOf(f, SM.UserFlags(requests[0].writable, requests[0].executable))))
    requires tree1.Keys == tree.Keys + Way(requests[0].virt) && k == |Way(requests[0].virt) - tree.Keys|
    requires Supplies(m.pool, k + 1) && m1.pool == m.pool[1..][k..]
    ensures LoaderBoot.Continue(bytes, done, requests, (m1, Ok(f))).3.None? <==> Unmapped(m, requests) && Supplies(m.pool, Needed(tree, requests))
    decreases |requests| - 1, 3
  {
    var q := requests[0];
    var (leaf, p) := (LeafOf(f, SM.UserFlags(q.writable, q.executable)), SM.MappedPage(q.virt, f, q.writable, q.executable));
    RestIff(m, tree, bytes[f := SM.ZeroPage()], done + [p], requests, m1, tree1, leaf, k);
  }

  lemma RestIff(m: Mapper, tree: Tree, bytes: Bytes, done: seq<Page>, requests: seq<LM.Request>, m1: Mapper, tree1: Tree, leaf: Leaf, k: nat)
    requires LP.RequestsOk(requests) && requests != [] && WalkAt(m, requests[0].virt).None? && Inv(m1, tree1)
    requires PageChanged(m, m1, requests[0].virt, Some(leaf))
    requires tree1.Keys == tree.Keys + Way(requests[0].virt) && k == |Way(requests[0].virt) - tree.Keys|
    requires Supplies(m.pool, k + 1) && m1.pool == m.pool[1..][k..]
    ensures MapPages(m1, bytes, done, requests[1..]).3.None? <==> Unmapped(m, requests) && Supplies(m.pool, Needed(tree, requests))
    decreases |requests| - 1, 2
  {
    UnmappedRest(m, m1, requests, leaf);
    RestOk(requests);
    NeededAfter(m.pool, tree, requests, tree1, k);
    MapPagesIff(m1, tree1, bytes, done, requests[1..]);
  }

  lemma NeededSplit(pool: seq<nat>, tree: Tree, requests: seq<LM.Request>)
    requires requests != []
    ensures Supplies(pool, Needed(tree, requests)) ==> Supplies(pool, |Way(requests[0].virt) - tree.Keys| + 1)
  {
    var (way, rest) := (Way(requests[0].virt), requests[1..]);
    NeededNext(tree.Keys, way, Ways(rest));
    SuppliesBoth(pool, |way - tree.Keys|, |rest| + |Ways(rest) - (tree.Keys + way)|);
  }

  lemma NeededAfter(pool: seq<nat>, tree: Tree, requests: seq<LM.Request>, tree1: Tree, k: nat)
    requires requests != [] && tree1.Keys == tree.Keys + Way(requests[0].virt) && k == |Way(requests[0].virt) - tree.Keys| && Supplies(pool, k + 1)
    ensures Supplies(pool, Needed(tree, requests)) <==> Supplies(pool[1..][k..], Needed(tree1, requests[1..]))
  {
    var (way, rest) := (Way(requests[0].virt), requests[1..]);
    NeededNext(tree.Keys, way, Ways(rest));
    SuppliesBoth(pool, k, |rest| + |Ways(rest) - (tree.Keys + way)|);
  }

  lemma RestOk(requests: seq<LM.Request>)
    requires LP.RequestsOk(requests) && requests != []
    ensures LP.RequestsOk(requests[1..])
  {
    var rest := requests[1..];
    assert forall k :: 0 <= k < |rest| ==> rest[k] == requests[k + 1];
  }

  /** A load succeeds exactly if the image is accepted, none of its pages is mapped, and the pool supplies pages and missing tables. */
  lemma LoadIff(m: Mapper, tree: Tree, bytes: Bytes, image: seq<Byte>)
    requires Inv(m, tree)
    ensures LoadImage(m, bytes, image).2.Ok? <==>
              && E.Validate(image).Ok? && Unmapped(m, LP.AllRequests(E.Validate(image).value))
              && Supplies(m.pool, Needed(tree, LP.AllRequests(E.Validate(image).value)))
  {
    LM.PlansInside(image);
    if E.Validate(image).Ok? {
      EL.ValidateSound(image);
      var plan := E.Validate(image).value;
      LP.AllRequestsOk(plan, |image|);
      MapPagesIff(m, tree, bytes, [], LP.AllRequests(plan));
      var tree' := LoadImageOk(m, tree, bytes, image);
      OkIfMapped(m, bytes, image, plan);
    }
  }

  /** Once all pages are mapped only a lost mapping could stop the load. */
  lemma OkIfMapped(m: Mapper, bytes: Bytes, image: seq<Byte>, plan: E.Plan)
    requires LM.FileInside(plan.segments, image)
    ensures var r := LoadPlan(Ok(plan), m, bytes, image).2;
            && (r.Ok? ==> MapPages(m, bytes, [], LP.AllRequests(plan)).3.None?)
            && (MapPages(m, bytes, [], LP.AllRequests(plan)).3.None? ==> r.Ok? || r == Err(Lost))
  {
  }
}
