/** Address spaces refine flat maps of user pages and account for every frame they take. */
module SpaceLaws {
  import opened Common
  import opened PagingModel
  import opened PagingTree
  import opened PagingLaws
  import opened SpaceModel
  import opened SpaceFrames
  import opened SpaceTree
  import F = PhysmemModel
  import FL = PhysmemLaws

  // ---- the invariant

  predicate Opens(e: Entry) { e.writable && e.user }

  const USER_PATH: seq<nat> := [0, USER_P3_INDEX]

  /** Last-level tables in the user area, by index. */
  ghost function UserTables(tree: Tree): set<nat> { set k: nat | k < 8 && Child(USER_PATH, k) in tree }

  /** The path to the user area is open for user pages. */
  ghost predicate SpineOpen(mem: Memory, tree: Tree)
  {
    && [] in tree && [0] in tree && USER_PATH in tree
    && Opens(EntryAt(mem, tree[[]], 0)) && Opens(EntryAt(mem, tree[[0]], USER_P3_INDEX))
    && (forall k: nat :: Child(USER_PATH, k) in tree ==> k < 8 && Opens(EntryAt(mem, tree[USER_PATH], k)))
  }

  /** The space owns the tables of its user area, and they are counted. */
  ghost predicate SpineTables(s: Space, tree: Tree)
  {
    && USER_PATH in tree && tree[USER_PATH] in s.tables && |s.tables| == 3 + |UserTables(tree)|
    && [] in tree && s.tables[0] == tree[[]] && [0] in tree && s.tables[1] == tree[[0]]
    && (forall k: nat :: Child(USER_PATH, k) in tree ==> tree[Child(USER_PATH, k)] in s.tables)
  }

  ghost predicate Spine(mem: Memory, s: Space, tree: Tree) { SpineOpen(mem, tree) && SpineTables(s, tree) }

  function PageLeafOf(p: MappedPage): Leaf { Leaf(p.frame, false, true, p.writable, p.executable) }

  ghost predicate Listed(pages: seq<MappedPage>, page: nat) { exists k :: 0 <= k < |pages| && PageOf(pages[k].virt) == page }

  /** The page list is exactly what the user gigabyte maps. */
  ghost predicate PagesOk(mem: Memory, s: Space, tree: Tree)
  {
    && |s.pages| <= MAX_PAGES
    && (forall k :: 0 <= k < |s.pages| ==>
          Aligned(s.pages[k].virt) && InUser(s.pages[k].virt) && LeafAt(mem, tree, Path(s.pages[k].virt)) == Some(PageLeafOf(s.pages[k])))
    && (forall k, l :: 0 <= k < l < |s.pages| ==> s.pages[k].virt != s.pages[l].virt)
    && (forall va :: Canonical(va) && UserPath(Path(va)) && LeafAt(mem, tree, Path(va)).Some? ==> Listed(s.pages, PageOf(va)))
  }

  ghost function Own(s: Space): seq<nat> { s.tables + PageFrames(s) }

  /** Every frame of the space is in use, appears once, and is a table or a page but not both. */
  ghost predicate Owned(w: World, s: Space, tree: Tree)
  {
    && FL.Distinct(Own(s)) && Elements(Own(s)) <= F.InUse(w.frames)
    && (forall k :: 0 <= k < |s.pages| ==> s.pages[k].frame !in tree.Values)
  }

  ghost predicate SpaceInv(w: World, s: Space, tree: Tree)
  {
    && s.active && s.root != 0 && Aligned(s.root)
    && FL.Inv(w.frames) && w.frames.protectedUntil > 0
    && TreeOk(w.mem, s.root, tree) && PoolOk(F.Pool(w.frames), tree)
    && Spine(w.mem, s, tree) && PagesOk(w.mem, s, tree) && Owned(w, s, tree)
  }

  /** All frames of the space could be returned right now. */
  predicate Undoable(w: World, s: Space) { FL.CanUndo(w.frames, |s.tables| + |s.pages|) }

  // ---- user addresses

  lemma UserIndices(virt: nat)
    requires InUser(virt)
    ensures Index(virt, 0) == 0 && Index(virt, 1) == USER_P3_INDEX && Index(virt, 2) < 8
    ensures Canonical(virt) && Path(virt)[..2] == USER_PATH && UserPath(Path(virt))
    ensures Path(virt)[..3] == Child(USER_PATH, Index(virt, 2)) && Path(virt) == Child(Path(virt)[..3], Index(virt, 3))
  {
    assert virt / Span(0) == 0 && virt / Span(1) == 1 && 512 <= virt / Span(2) < 520;
  }

  /** The kernel's walk to the user area follows the tree. */
  lemma SpineWalk(w: World, s: Space, tree: Tree)
    requires SpaceInv(w, s, tree)
    ensures EntryAt(w.mem, s.root, 0).addr == tree[[0]] < IDENTITY_BYTES
    ensures EntryAt(w.mem, tree[[0]], USER_P3_INDEX).addr == tree[USER_PATH] < IDENTITY_BYTES
  {
    assert EntryOk(w.mem, tree, [], 0) && EntryOk(w.mem, tree, [0], USER_P3_INDEX);
    assert Child([], 0) == [0] && Child([0], USER_P3_INDEX) == USER_PATH;
  }

  lemma {:induction false} BelowBound(s: set<nat>, n: nat)
    requires forall k :: k in s ==> k < n
    ensures |s| <= n
  {
    if n > 0 {
      BelowBound(s - {n - 1}, n - 1);
      SubsetSize(s, (s - {n - 1}) + {n - 1});
    } else {
      assert s == {};
    }
  }

  /** There is always room for another last-level table. */
  lemma RoomForTable(s: Space, tree: Tree, k: nat, f: nat)
    requires |s.tables| == 3 + |UserTables(tree)| && k < 8 && Child(USER_PATH, k) !in tree
    ensures |s.tables| < MAX_TABLES && k !in UserTables(tree)
    ensures UserTables(tree[Child(USER_PATH, k) := f]) == UserTables(tree) + {k}
  {
    BelowBound(UserTables(tree), 8);
    forall j: nat | j < 8 ensures Child(USER_PATH, j) in tree[Child(USER_PATH, k) := f] <==> Child(USER_PATH, j) in tree || j == k {
      ChildParts(USER_PATH, j);
      ChildParts(USER_PATH, k);
    }
  }

  // ---- the frames of the space

  /** The pool after a frame was taken, whether it becomes a table at `c` or a page. */
  lemma TakenPool(a: F.Allocator, b: F.Allocator, f: nat, tree: Tree, c: seq<nat>)
    requires Taken(a, b, f) && PoolOk(F.Pool(a), tree) && c !in tree
    ensures f !in tree.Values && PoolOk(F.Pool(b), tree) && PoolOk(F.Pool(b), tree[c := f])
  {
    var (p, q) := (F.Pool(a), F.Pool(b));
    assert p[0] == f && p[1..] == q;
    assert forall k :: 0 <= k < |q| ==> q[k] == p[k + 1];
    GrownPool(p, tree, c);
  }

  lemma InsertDistinct(x: seq<nat>, y: seq<nat>, f: nat)
    requires FL.Distinct(x + y) && f !in x + y
    ensures FL.Distinct(x + [f] + y) && Elements(x + [f] + y) == Elements(x + y) + {f}
  {
    var (o, n) := (x + y, x + [f] + y);
    forall k | 0 <= k < |n| && k != |x| ensures n[k] == o[if k < |x| then k else k - 1] {}
    forall v | v in o ensures v in n {
      var k :| 0 <= k < |o| && o[k] == v;
      assert n[if k < |x| then k else k + 1] == v;
    }
    assert n[|x|] == f;
  }

  /** A frame just taken joins the space's own frames, as a table or as a page. */
  lemma OwnMore(w: World, b: F.Allocator, s: Space, s': Space, f: nat)
    requires FL.Distinct(Own(s)) && Elements(Own(s)) <= F.InUse(w.frames) && Taken(w.frames, b, f)
    requires (s'.tables == s.tables + [f] && s'.pages == s.pages) || (s'.tables == s.tables && PageFrames(s') == PageFrames(s) + [f])
    ensures FL.Distinct(Own(s')) && Elements(Own(s')) <= F.InUse(b)
  {
    assert f !in Own(s) by { assert f !in Elements(Own(s)); }
    if s'.tables == s.tables {
      InsertDistinct(Own(s), [], f);
      assert Own(s) + [] == Own(s) && Own(s') == Own(s) + [f] + [];
    } else {
      assert PageFrames(s') == PageFrames(s);
      InsertDistinct(s.tables, PageFrames(s), f);
    }
  }

  // ---- the last-level table

  /** Only frames of the space itself were written. */
  ghost predicate WroteOwn(w: World, w': World, s': Space)
  {
    forall f :: f in w.mem && f !in Own(s') ==> f in w'.mem && w'.mem[f] == w.mem[f]
  }

  ghost predicate SameBytes(w: World, w': World, f: nat) { f in w.bytes ==> f in w'.bytes && w'.bytes[f] == w.bytes[f] }

  /** Frame `f` holds what it held. */
  ghost predicate SameFrame(w: World, w': World, f: nat)
  {
    SameBytes(w, w', f) && (f in w.mem ==> f in w'.mem && w'.mem[f] == w.mem[f])
  }

  ghost predicate WroteOnly(w: World, w': World, frames: set<nat>) { forall f :: f !in frames ==> SameFrame(w, w', f) }

  /** A new last-level table keeps the page list right. */
  lemma SamePages(mem: Memory, tree: Tree, mem': Memory, tree': Tree, s: Space, s': Space)
    requires PagesOk(mem, s, tree) && s'.pages == s.pages && SameLeaves(mem, tree, mem', tree')
    ensures PagesOk(mem', s', tree')
  {
  }

  /** The entries on the way to the user area, after a table was hooked in at index `k`. */
  lemma LinkedEntries(mem: Memory, s: Space, tree: Tree, k: nat, f: nat, j: nat)
    requires TreeOk(mem, s.root, tree) && Spine(mem, s, tree) && k < 8 && f !in tree.Values
    ensures var mem' := SetEntry(mem[f := ZeroTable()], tree[USER_PATH], k, OpenEntry(f));
            && Opens(EntryAt(mem', tree[[]], 0)) && Opens(EntryAt(mem', tree[[0]], USER_P3_INDEX))
            && (j == k || Opens(EntryAt(mem, tree[USER_PATH], j)) ==> Opens(EntryAt(mem', tree[USER_PATH], j)))
  {
    var m0 := mem[f := ZeroTable()];
    forall p | p in tree ensures tree[p] != f { assert tree[p] in tree.Values; }
    assert [] != USER_PATH && [0] != USER_PATH;
    ReadBack(m0, tree[USER_PATH], k, OpenEntry(f), tree[[]], 0);
    ReadBack(m0, tree[USER_PATH], k, OpenEntry(f), tree[[0]], USER_P3_INDEX);
    ReadBack(m0, tree[USER_PATH], k, OpenEntry(f), tree[USER_PATH], j);
  }

  lemma LinkedOpen(mem: Memory, s: Space, tree: Tree, k: nat, f: nat)
    requires TreeOk(mem, s.root, tree) && Spine(mem, s, tree) && k < 8 && f !in tree.Values
    ensures SpineOpen(SetEntry(mem[f := ZeroTable()], tree[USER_PATH], k, OpenEntry(f)), tree[Child(USER_PATH, k) := f])
  {
    var (mem', t) := (SetEntry(mem[f := ZeroTable()], tree[USER_PATH], k, OpenEntry(f)), tree[Child(USER_PATH, k) := f]);
    LinkedEntries(mem, s, tree, k, f, k);
    assert |Child(USER_PATH, k)| == 3;
    forall j: nat | Child(USER_PATH, j) in t ensures j < 8 && Opens(EntryAt(mem', t[USER_PATH], j)) {
      assert Child(USER_PATH, j)[2] == j && Child(USER_PATH, k)[2] == k;
      LinkedEntries(mem, s, tree, k, f, j);
    }
  }

  lemma LinkedTables(s: Space, tree: Tree, k: nat, f: nat, s': Space)
    requires SpineTables(s, tree) && k < 8 && Child(USER_PATH, k) !in tree && s'.tables == s.tables + [f]
    ensures SpineTables(s', tree[Child(USER_PATH, k) := f])
  {
    var t := tree[Child(USER_PATH, k) := f];
    RoomForTable(s, tree, k, f);
    assert |Child(USER_PATH, k)| == 3;
    assert s'.tables[|s.tables|] == f;
    forall x | x in s.tables ensures x in s'.tables {}
    forall j: nat | Child(USER_PATH, j) in t ensures t[Child(USER_PATH, j)] in s'.tables {
      assert Child(USER_PATH, j) in tree ==> tree[Child(USER_PATH, j)] in s.tables;
    }
  }

  /** What adding the table for index `k` of the user area does. */
  lemma TableAdded(w: World, s: Space, tree: Tree, k: nat, f: nat, frames: F.Allocator) returns (tree': Tree)
    requires SpaceInv(w, s, tree) && k < 8 && !EntryAt(w.mem, tree[USER_PATH], k).present
    requires Taken(w.frames, frames, f)
    ensures var w' := World(SetEntry(w.mem[f := ZeroTable()], tree[USER_PATH], k, OpenEntry(f)), w.bytes[f := ZeroPage()], frames);
            var s' := s.(tables := s.tables + [f]);
            && SpaceInv(w', s', tree') && SameLeaves(w.mem, tree, w'.mem, tree') && WroteOwn(w, w', s')
            && tree' == tree[Child(USER_PATH, k) := f] && f in Own(s')
  {
    var c := Child(USER_PATH, k);
    var mem' := SetEntry(w.mem[f := ZeroTable()], tree[USER_PATH], k, OpenEntry(f));
    var s' := s.(tables := s.tables + [f]);
    assert EntryOk(w.mem, tree, USER_PATH, k);
    tree' := tree[c := f];
    TakenPool(w.frames, frames, f, tree, c);
    UserCovers(w.mem, s, tree);
    LinkOk(w.mem, s.root, tree, USER_PATH, k, f, Flags(true, true, false));
    LinkedOpen(w.mem, s, tree, k, f);
    LinkedTables(s, tree, k, f, s');
    SamePages(w.mem, tree, mem', tree', s, s');
    OwnMore(w, frames, s, s', f);
    assert F.Pool(w.frames)[0] == f;
    TableOwned(w, s, tree, c, f);
    assert Own(s')[|s.tables|] == f;
    TableWrote(w, s, tree, k, f);
  }

  /** The path to the user area already grants what a user page may ask for. */
  lemma UserCovers(mem: Memory, s: Space, tree: Tree)
    requires Spine(mem, s, tree)
    ensures forall flags :: Covers(mem, tree, USER_PATH, flags)
    ensures forall k: nat, flags :: Child(USER_PATH, k) in tree ==> Covers(mem, tree, Child(USER_PATH, k), flags)
  {
    assert USER_PATH[..1] == [0];
    forall k: nat, flags | Child(USER_PATH, k) in tree ensures Covers(mem, tree, Child(USER_PATH, k), flags) { ChildParts(USER_PATH, k); }
  }

  lemma TableOwned(w: World, s: Space, tree: Tree, c: seq<nat>, f: nat)
    requires Owned(w, s, tree) && f !in F.InUse(w.frames)
    ensures forall k :: 0 <= k < |s.pages| ==> s.pages[k].frame !in tree[c := f].Values
  {
    forall k | 0 <= k < |s.pages| ensures s.pages[k].frame !in tree[c := f].Values {
      assert Own(s)[|s.tables| + k] == s.pages[k].frame;
      assert s.pages[k].frame in Elements(Own(s));
      var t := tree[c := f];
      forall x | x in t ensures t[x] != s.pages[k].frame { assert x != c ==> tree[x] in tree.Values; }
    }
  }

  lemma TableWrote(w: World, s: Space, tree: Tree, k: nat, f: nat)
    requires USER_PATH in tree && tree[USER_PATH] in s.tables
    ensures var mem' := SetEntry(w.mem[f := ZeroTable()], tree[USER_PATH], k, OpenEntry(f));
            forall g :: g in w.mem && g !in Own(s.(tables := s.tables + [f])) ==> g in mem' && mem'[g] == w.mem[g]
  {
    var own := Own(s.(tables := s.tables + [f]));
    assert f in own && tree[USER_PATH] in own by {
      assert own[|s.tables|] == f;
      var j :| 0 <= j < |s.tables| && s.tables[j] == tree[USER_PATH];
      assert own[j] == tree[USER_PATH];
    }
  }
}
