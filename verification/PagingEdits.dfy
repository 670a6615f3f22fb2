/** Which tables and which entries a mapping attempt touches, and why the tree is never in doubt. */
module PagingEdits {
  import opened Common
  import opened PagingModel
  import opened PagingTree
  import opened PagingLaws
  import opened PagingRefine
  import opened PagingRuns

  // ---- the tree is a function of memory

  lemma {:induction false} SamePath(mem: Memory, root: nat, t: Tree, u: Tree, p: seq<nat>)
    requires TreeOk(mem, root, t) && TreeOk(mem, root, u) && p in t
    ensures p in u && u[p] == t[p]
    decreases |p|
  {
    if p != [] {
      var (up, i) := (p[..|p| - 1], p[|p| - 1]);
      SamePath(mem, root, t, u, up);
      assert Child(up, i) == p;
      assert EntryOk(mem, t, up, i) && EntryOk(mem, u, up, i);
    }
  }

  /** Memory and root determine where every table is. */
  lemma TreeUnique(mem: Memory, root: nat, t: Tree, u: Tree)
    requires TreeOk(mem, root, t) && TreeOk(mem, root, u)
    ensures t == u
  {
    forall p | p in t ensures p in u && u[p] == t[p] { SamePath(mem, root, t, u, p); }
    forall p | p in u ensures p in t { SamePath(mem, root, u, t, p); }
  }

  // ---- what changed

  /** Entry `i` of the table at `p` lies on the way to `path`. */
  predicate OnWay(path: seq<nat>, p: seq<nat>, i: nat) { |p| < |path| && p == path[..|p|] && i == path[|p|] }

  /** Tables stay where they were; new ones lie on the way. */
  ghost predicate TreeEdited(tree: Tree, tree': Tree, path: seq<nat>)
  {
    && (forall p :: p in tree ==> p in tree' && tree'[p] == tree[p])
    && (forall p :: p in tree' && p !in tree ==> |p| <= |path| && p == path[..|p|])
  }

  /** Frames that hold no table keep their contents, and entries off the way are as they were. */
  ghost predicate MemEdited(mem: Memory, tree: Tree, mem': Memory, tree': Tree, path: seq<nat>)
  {
    && (forall f :: f in mem && f !in tree'.Values ==> f in mem' && mem'[f] == mem[f])
    && (forall p, i: nat :: p in tree && !OnWay(path, p, i) ==> EntryAt(mem', tree[p], i) == EntryAt(mem, tree[p], i))
  }

  /** Entries on the way that led to a table still do, as they were or opened up for `flags`. */
  ghost predicate WayEdited(mem: Memory, tree: Tree, mem': Memory, path: seq<nat>, flags: Flags)
  {
    forall p, i: nat :: p in tree && OnWay(path, p, i) && Child(p, i) in tree ==>
      EntryAt(mem', tree[p], i) == EntryAt(mem, tree[p], i) || EntryAt(mem', tree[p], i) == Widen(EntryAt(mem, tree[p], i), flags)
  }

  predicate Grants(e: Entry, flags: Flags) { (flags.writable ==> e.writable) && (flags.user ==> e.user) }

  /** Entries that lead to new tables grant what was asked for. */
  ghost predicate NewLinks(tree: Tree, mem': Memory, tree': Tree, flags: Flags)
  {
    forall p, i: nat :: p in tree' && Child(p, i) in tree' && Child(p, i) !in tree ==> Grants(EntryAt(mem', tree'[p], i), flags)
  }

  ghost predicate Edited(mem: Memory, tree: Tree, mem': Memory, tree': Tree, path: seq<nat>, flags: Flags)
  {
    && TreeEdited(tree, tree', path) && MemEdited(mem, tree, mem', tree', path) && WayEdited(mem, tree, mem', path, flags)
    && NewLinks(tree, mem', tree', flags)
  }

  lemma Unedited(mem: Memory, tree: Tree, path: seq<nat>, flags: Flags)
    ensures Edited(mem, tree, mem, tree, path, flags)
  {
  }

  lemma EditedTwice(
    mem: Memory, tree: Tree, mem1: Memory, root: nat, tree1: Tree, mem2: Memory, tree2: Tree, path: seq<nat>, flags: Flags)
    requires TreeOk(mem1, root, tree1)
    requires Edited(mem, tree, mem1, tree1, path, flags) && Edited(mem1, tree1, mem2, tree2, path, flags)
    ensures Edited(mem, tree, mem2, tree2, path, flags)
  {
    TreeTwice(tree, tree1, tree2, path);
    MemTwice(mem, tree, mem1, tree1, mem2, tree2, path);
    WayTwice(mem, tree, mem1, tree1, mem2, path, flags);
    forall p, i: nat | p in tree2 && Child(p, i) in tree2 && Child(p, i) !in tree ensures Grants(EntryAt(mem2, tree2[p], i), flags) {
      if Child(p, i) in tree1 { LinkStays(tree, mem1, root, tree1, mem2, tree2, path, flags, p, i); }
    }
  }

  lemma TreeTwice(tree: Tree, tree1: Tree, tree2: Tree, path: seq<nat>)
    requires TreeEdited(tree, tree1, path) && TreeEdited(tree1, tree2, path)
    ensures TreeEdited(tree, tree2, path)
  {
  }

  lemma MemTwice(mem: Memory, tree: Tree, mem1: Memory, tree1: Tree, mem2: Memory, tree2: Tree, path: seq<nat>)
    requires TreeEdited(tree, tree1, path) && TreeEdited(tree1, tree2, path)
    requires MemEdited(mem, tree, mem1, tree1, path) && MemEdited(mem1, tree1, mem2, tree2, path)
    ensures MemEdited(mem, tree, mem2, tree2, path)
  {
    forall f | f in tree1.Values ensures f in tree2.Values { var p :| p in tree1 && tree1[p] == f; }
    forall p, i: nat | p in tree && !OnWay(path, p, i) ensures EntryAt(mem2, tree[p], i) == EntryAt(mem, tree[p], i) {
      assert EntryAt(mem2, tree1[p], i) == EntryAt(mem1, tree1[p], i);
    }
  }

  lemma WayTwice(mem: Memory, tree: Tree, mem1: Memory, tree1: Tree, mem2: Memory, path: seq<nat>, flags: Flags)
    requires TreeEdited(tree, tree1, path) && WayEdited(mem, tree, mem1, path, flags) && WayEdited(mem1, tree1, mem2, path, flags)
    ensures WayEdited(mem, tree, mem2, path, flags)
  {
    forall p, i: nat | p in tree && OnWay(path, p, i) && Child(p, i) in tree
      ensures EntryAt(mem2, tree[p], i) == EntryAt(mem, tree[p], i) || EntryAt(mem2, tree[p], i) == Widen(EntryAt(mem, tree[p], i), flags)
    {
      assert tree1[p] == tree[p] && Child(p, i) in tree1;
    }
  }

  lemma LinkStays(
    tree: Tree, mem1: Memory, root: nat, tree1: Tree, mem2: Memory, tree2: Tree, path: seq<nat>, flags: Flags, p: seq<nat>, i: nat)
    requires TreeOk(mem1, root, tree1) && TreeEdited(tree, tree1, path) && NewLinks(tree, mem1, tree1, flags)
    requires TreeEdited(tree1, tree2, path) && WayEdited(mem1, tree1, mem2, path, flags)
    requires Child(p, i) in tree1 && Child(p, i) !in tree && p in tree2
    ensures Grants(EntryAt(mem2, tree2[p], i), flags)
  {
    ChildParts(p, i);
    assert p in tree1 && tree2[p] == tree1[p];
    assert Child(p, i) == path[..|p| + 1];
    assert path[..|p| + 1][..|p|] == path[..|p|] && path[..|p| + 1][|p|] == path[|p|];
    assert OnWay(path, p, i);
  }

  /** One written entry on the way. */
  lemma EntryEdited(mem: Memory, root: nat, tree: Tree, p: seq<nat>, i: nat, e: Entry, path: seq<nat>, flags: Flags)
    requires TreeOk(mem, root, tree) && p in tree && i < TABLE_ENTRIES && OnWay(path, p, i)
    requires Child(p, i) in tree ==> e == Widen(EntryAt(mem, tree[p], i), flags)
    ensures Edited(mem, tree, SetEntry(mem, tree[p], i, e), tree, path, flags)
  {
    var mem' := SetEntry(mem, tree[p], i, e);
    assert tree[p] in tree.Values;
    forall q, j: nat | q in tree
      ensures EntryAt(mem', tree[q], j) == if q == p && j == i then e else EntryAt(mem, tree[q], j)
    {
      ReadBack(mem, tree[p], i, e, tree[q], j);
    }
  }

  /** A new table hooked in on the way. */
  lemma LinkEdited(mem: Memory, root: nat, tree: Tree, p: seq<nat>, i: nat, f: nat, e: Entry, path: seq<nat>, flags: Flags)
    requires TreeOk(mem, root, tree) && p in tree && |p| < 3 && i < TABLE_ENTRIES && Child(p, i) !in tree && f !in tree.Values
    requires OnWay(path, p, i) && Grants(e, flags)
    ensures Edited(mem, tree, SetEntry(mem[f := ZeroTable()], tree[p], i, e), tree[Child(p, i) := f], path, flags)
  {
    var (m0, tree') := (mem[f := ZeroTable()], tree[Child(p, i) := f]);
    FreshOk(mem, root, tree, f);
    assert tree[p] in tree.Values;
    assert tree'[Child(p, i)] == f && tree'[p] == tree[p];
    assert path[..|p| + 1] == Child(p, i);
    forall q, j: nat | q in tree
      ensures EntryAt(SetEntry(m0, tree[p], i, e), tree[q], j) == if q == p && j == i then e else EntryAt(mem, tree[q], j)
    {
      ReadBack(m0, tree[p], i, e, tree[q], j);
      assert tree[q] in tree.Values;
    }
    forall q, j: nat | q in tree' && Child(q, j) in tree' && Child(q, j) !in tree ensures q == p && j == i {
      ChildParts(q, j);
      ChildParts(p, i);
    }
    forall g | g in mem && g !in tree'.Values ensures g != f && g != tree[p] {
      assert tree'[Child(p, i)] in tree'.Values && tree'[p] in tree'.Values;
    }
  }

  lemma EnsureEdits(m: Mapper, tree: Tree, virt: nat, level: nat, flags: Flags) returns (tree1: Tree)
    requires MapperOk(m, tree) && level < 3 && Path(virt)[..level] in tree && Covers(m.mem, tree, Path(virt)[..level], flags)
    requires !EntryAt(m.mem, tree[Path(virt)[..level]], Index(virt, level)).huge
    ensures var (m1, r1) := EnsureNext(m, tree[Path(virt)[..level]], Index(virt, level), flags);
            && MapperOk(m1, tree1) && m1.root == m.root && Edited(m.mem, tree, m1.mem, tree1, Path(virt), flags)
            && (r1.Ok? ==> Path(virt)[..level + 1] in tree1 && r1.value == tree1[Path(virt)[..level + 1]]
                           && Covers(m1.mem, tree1, Path(virt)[..level + 1], flags))
  {
    var k;
    tree1, k := EnsureStep(m, tree, virt, level, flags);
    EnsuredEdits(m, tree, virt, level, flags, tree1);
  }

  lemma EnsuredEdits(m: Mapper, tree: Tree, virt: nat, level: nat, flags: Flags, tree1: Tree)
    requires MapperOk(m, tree) && level < 3 && Path(virt)[..level] in tree
    requires !EntryAt(m.mem, tree[Path(virt)[..level]], Index(virt, level)).huge
    requires TreeOk(EnsureNext(m, tree[Path(virt)[..level]], Index(virt, level), flags).0.mem, m.root, tree1)
    requires Covers(m.mem, tree, Path(virt)[..level], flags)
    ensures Edited(m.mem, tree, EnsureNext(m, tree[Path(virt)[..level]], Index(virt, level), flags).0.mem, tree1, Path(virt), flags)
  {
    var (p, i) := (Path(virt)[..level], Index(virt, level));
    PathStep(virt, level);
    var e := EntryAt(m.mem, tree[p], i);
    assert EntryOk(m.mem, tree, p, i);
    if e.present {
      WidenOk(m.mem, m.root, tree, p, i, flags);
      TreeUnique(SetEntry(m.mem, tree[p], i, Widen(e, flags)), m.root, tree, tree1);
      EntryEdited(m.mem, m.root, tree, p, i, Widen(e, flags), Path(virt), flags);
    } else if m.pool == [] || m.pool[0] >= IDENTITY_BYTES {
      TreeUnique(m.mem, m.root, tree, tree1);
      Unedited(m.mem, tree, Path(virt), flags);
    } else {
      var f := m.pool[0];
      LinkOk(m.mem, m.root, tree, p, i, f, flags);
      var mem' := SetEntry(m.mem[f := ZeroTable()], tree[p], i, Entry(f, true, flags.writable, flags.user, false, false));
      TreeUnique(mem', m.root, tree[Child(p, i) := f], tree1);
      LinkEdited(m.mem, m.root, tree, p, i, f, Entry(f, true, flags.writable, flags.user, false, false), Path(virt), flags);
    }
  }

  /** The whole descent. */
  lemma {:induction false} MapFromEdits(m: Mapper, tree: Tree, virt: nat, level: nat, phys: nat, flags: Flags) returns (tree': Tree)
    requires MapperOk(m, tree) && level <= 3 && Path(virt)[..level] in tree && Covers(m.mem, tree, Path(virt)[..level], flags)
    ensures var m' := MapFrom(m, tree[Path(virt)[..level]], Path(virt)[level..], phys, flags).0;
            TreeOk(m'.mem, m.root, tree') && Edited(m.mem, tree, m'.mem, tree', Path(virt), flags)
    decreases 3 - level
  {
    var (p, i) := (Path(virt)[..level], Index(virt, level));
    PathStep(virt, level);
    var frame := tree[p];
    tree' := tree;
    if level == 3 {
      LastEdits(m, tree, virt, phys, flags);
    } else if EntryAt(m.mem, frame, i).huge {
      assert EntryOk(m.mem, tree, p, i);
      Unedited(m.mem, tree, Path(virt), flags);
    } else {
      var tree1 := EnsureEdits(m, tree, virt, level, flags);
      var (m1, r1) := EnsureNext(m, frame, i, flags);
      MapFromStep(m, frame, Path(virt)[level..], phys, flags);
      tree' := tree1;
      if r1.Ok? {
        tree' := MapFromEdits(m1, tree1, virt, level + 1, phys, flags);
        EditedTwice(m.mem, tree, m1.mem, m.root, tree1,
                    MapFrom(m1, r1.value, Path(virt)[level + 1..], phys, flags).0.mem, tree', Path(virt), flags);
      }
    }
  }

  lemma LastEdits(m: Mapper, tree: Tree, virt: nat, phys: nat, flags: Flags)
    requires MapperOk(m, tree) && Path(virt)[..3] in tree && Covers(m.mem, tree, Path(virt)[..3], flags)
    ensures var m' := MapFrom(m, tree[Path(virt)[..3]], Path(virt)[3..], phys, flags).0;
            TreeOk(m'.mem, m.root, tree) && Edited(m.mem, tree, m'.mem, tree, Path(virt), flags)
  {
    var (p, i) := (Path(virt)[..3], Index(virt, 3));
    PathStep(virt, 3);
    assert EntryOk(m.mem, tree, p, i);
    if EntryAt(m.mem, tree[p], i).present {
      Unedited(m.mem, tree, Path(virt), flags);
    } else {
      FitsAbove(m.mem, m.root, tree, p, i, flags);
      LeafOk(m.mem, m.root, tree, p, i, LeafEntry(phys, flags));
      EntryEdited(m.mem, m.root, tree, p, i, LeafEntry(phys, flags), Path(virt), flags);
    }
  }

  /** One mapping attempt, whatever it returns. */
  lemma MapEdits(m: Mapper, tree: Tree, virt: nat, phys: nat, flags: Flags, owner: Owner, tree': Tree)
    requires MapperOk(m, tree) && TreeOk(MapPage(m, virt, phys, flags, owner).0.mem, m.root, tree')
    ensures Edited(m.mem, tree, MapPage(m, virt, phys, flags, owner).0.mem, tree', Path(virt), flags)
  {
    if Acceptable(virt, phys, flags) {
      assert Path(virt)[..0] == [] && Path(virt)[0..] == Path(virt);
      var attempt := MapFrom(m, m.root, Path(virt), phys, flags);
      var tree1 := MapFromEdits(m, tree, virt, 0, phys, flags);
      WithRecordShape(attempt, virt, phys, flags, owner);
      TreeUnique(attempt.0.mem, m.root, tree1, tree');
    } else {
      TreeUnique(m.mem, m.root, tree, tree');
      Unedited(m.mem, tree, Path(virt), flags);
    }
  }

  /** A new page, mapped or not. */
  lemma NewPageEdits(m: Mapper, tree: Tree, virt: nat, flags: Flags, owner: Owner, tree': Tree)
    requires Inv(m, tree) && TreeOk(MapNewPage(m, virt, flags, owner).0.mem, m.root, tree')
    ensures Edited(m.mem, tree, MapNewPage(m, virt, flags, owner).0.mem, tree', Path(virt), flags)
  {
    NewPageShape(m, virt, flags, owner);
    if MapNewPage(m, virt, flags, owner).0.mem == m.mem {
      TreeUnique(m.mem, m.root, tree, tree');
      Unedited(m.mem, tree, Path(virt), flags);
    } else {
      TakeFirst(m, tree);
      MapEdits(m.(pool := m.pool[1..]), tree, virt, m.pool[0], flags, owner, tree');
    }
  }

  lemma NewPageShape(m: Mapper, virt: nat, flags: Flags, owner: Owner)
    ensures || MapNewPage(m, virt, flags, owner).0.mem == m.mem
            || (m.pool != [] && MapNewPage(m, virt, flags, owner).0.mem == MapPage(m.(pool := m.pool[1..]), virt, m.pool[0], flags, owner).0.mem)
  {
  }

  lemma UnmapEdits(m: Mapper, tree: Tree, virt: nat, flags: Flags)
    requires Inv(m, tree)
    ensures Edited(m.mem, tree, UnmapPage(m, virt).0.mem, tree, Path(virt), flags)
  {
    if UnmapPage(m, virt).1.Ok? {
      FoundTable(m, tree, virt);
      ForgettingKeeps(Cleared(m, tree[Path(virt)[..3]], virt), virt);
      assert Path(virt)[..3] == Path(virt)[..|Path(virt)[..3]|];
      EntryEdited(m.mem, m.root, tree, Path(virt)[..3], Index(virt, 3), NONE_ENTRY, Path(virt), flags);
    } else {
      UnmapPageRefines(m, tree, virt);
      Unedited(m.mem, tree, Path(virt), flags);
    }
  }
}
