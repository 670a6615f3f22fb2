/** The radix tree: no table is reached by two paths, and no page is freer than the entries above it. */
module PagingTree {
  import opened Common
  import opened PagingModel

  /** The frame of the table at each path from the root. */
  type Tree = map<seq<nat>, nat>

  function Child(p: seq<nat>, i: nat): seq<nat> { p + [i] }

  /** Entry `e` grants nothing that `above` withholds. */
  predicate Under(e: Entry, above: Entry)
  {
    e.present ==> (e.writable ==> above.writable) && (e.user ==> above.user)
  }

  ghost predicate TablesOk(mem: Memory, tree: Tree)
  {
    && (forall p :: p in tree ==> |p| <= 3 && tree[p] in mem && |mem[tree[p]]| == TABLE_ENTRIES && tree[p] < IDENTITY_BYTES)
    && (forall p, q :: p in tree && q in tree && tree[p] == tree[q] ==> p == q)
  }

  ghost predicate EntryOk(mem: Memory, tree: Tree, p: seq<nat>, i: nat)
    requires p in tree
  {
    var e := EntryAt(mem, tree[p], i);
    && (!e.present ==> e == NONE_ENTRY)
    && (|p| != 2 ==> !e.huge)
    && (Child(p, i) in tree <==> |p| < 3 && e.present && !e.huge)
    && (Child(p, i) in tree ==> e.addr == tree[Child(p, i)] && !e.noExecute)
  }

  ghost predicate Monotone(mem: Memory, tree: Tree, p: seq<nat>, i: nat)
    requires p in tree
  {
    Child(p, i) in tree ==>
      forall j :: 0 <= j < TABLE_ENTRIES ==> Under(EntryAt(mem, tree[Child(p, i)], j), EntryAt(mem, tree[p], i))
  }

  ghost predicate TreeOk(mem: Memory, root: nat, tree: Tree)
  {
    && [] in tree && tree[[]] == root
    && TablesOk(mem, tree)
    && (forall p :: p in tree && p != [] ==> p[..|p| - 1] in tree && p[|p| - 1] < TABLE_ENTRIES)
    && (forall p, i: nat :: p in tree && i < TABLE_ENTRIES ==> EntryOk(mem, tree, p, i))
    && (forall p, i: nat :: p in tree && i < TABLE_ENTRIES ==> Monotone(mem, tree, p, i))
  }

  /** What a walk along `q` finds, read off the tree: a page entry, a huge entry, or nothing. */
  ghost function LeafAt(mem: Memory, tree: Tree, q: seq<nat>): Option<Leaf>
    requires |q| == 4
  {
    if q[..3] in tree then
      var e := EntryAt(mem, tree[q[..3]], q[3]);
      if e.present then Some(PageLeaf(e)) else None
    else if q[..2] in tree then
      var e := EntryAt(mem, tree[q[..2]], q[2]);
      if e.present && e.huge then Some(HugeLeaf(e)) else None
    else None
  }

  // ---- walking

  lemma PathStep(va: nat, level: nat)
    requires level < 4
    ensures |Path(va)| == 4 && Path(va)[level] == Index(va, level)
    ensures Path(va)[..level + 1] == Child(Path(va)[..level], Index(va, level))
    ensures |Path(va)[level..]| == 4 - level && Path(va)[level..][0] == Index(va, level)
    ensures Path(va)[level..][1..] == Path(va)[level + 1..]
  {
  }

  /** Below a table, absent entries end every path. */
  lemma NoDeeper(mem: Memory, root: nat, tree: Tree, va: nat, level: nat)
    requires TreeOk(mem, root, tree) && level < 3 && Path(va)[..level + 1] !in tree
    ensures Path(va)[..3] !in tree && (level < 2 ==> Path(va)[..2] !in tree)
  {
    var q := Path(va);
    assert q[..3][..2] == q[..2] && q[..2][..1] == q[..1];
  }

  /** Under the tree invariant intermediate entries take nothing away: the page's own bits decide. */
  lemma {:induction false} WalkIsLeafAt(mem: Memory, root: nat, tree: Tree, va: nat, level: nat)
    requires TreeOk(mem, root, tree) && level <= 3 && Path(va)[..level] in tree
    ensures Walk(mem, tree[Path(va)[..level]], Path(va)[level..]) == LeafAt(mem, tree, Path(va))
    ensures LeafAt(mem, tree, Path(va)).Some? ==>
              var e := EntryAt(mem, tree[Path(va)[..level]], Index(va, level));
              var l := LeafAt(mem, tree, Path(va)).value;
              (l.writable ==> e.writable) && (l.user ==> e.user)
    decreases 3 - level
  {
    var q, i := Path(va), Index(va, level);
    var p := q[..level];
    PathStep(va, level);
    assert EntryOk(mem, tree, p, i);
    if level == 3 {
      WalkLast(mem, tree[p], q[level..]);
    } else if Child(p, i) in tree {
      WalkIsLeafAt(mem, root, tree, va, level + 1);
      assert Monotone(mem, tree, p, i);
      WalkThrough(mem, tree[p], q[level..], LeafAt(mem, tree, q));
    } else {
      NoDeeper(mem, root, tree, va, level);
      WalkStops(mem, tree[p], q[level..]);
    }
  }

  lemma WalkLast(mem: Memory, frame: nat, path: seq<nat>)
    requires |path| == 1
    ensures var e := EntryAt(mem, frame, path[0]); Walk(mem, frame, path) == if e.present then Some(PageLeaf(e)) else None
  {
  }

  /** An entry that withholds nothing the table below grants passes the result on. */
  lemma WalkThrough(mem: Memory, frame: nat, path: seq<nat>, below: Option<Leaf>)
    requires |path| >= 2
    requires var e := EntryAt(mem, frame, path[0]);
             && e.present && !e.huge && !e.noExecute && e.addr < IDENTITY_BYTES && Walk(mem, e.addr, path[1..]) == below
             && (below.Some? ==> (below.value.writable ==> e.writable) && (below.value.user ==> e.user))
    ensures Walk(mem, frame, path) == below
  {
  }

  lemma WalkStops(mem: Memory, frame: nat, path: seq<nat>)
    requires |path| >= 2
    requires var e := EntryAt(mem, frame, path[0]); e.present ==> |path| == 2 && e.huge
    ensures var e := EntryAt(mem, frame, path[0]); Walk(mem, frame, path) == if e.present then Some(HugeLeaf(e)) else None
  {
  }

  lemma WalkRoot(mem: Memory, root: nat, tree: Tree, va: nat)
    requires TreeOk(mem, root, tree)
    ensures Walk(mem, root, Path(va)) == LeafAt(mem, tree, Path(va))
  {
    assert Path(va)[..0] == [] && Path(va)[0..] == Path(va);
    WalkIsLeafAt(mem, root, tree, va, 0);
  }

  // ---- edits

  lemma ReadBack(mem: Memory, f: nat, i: nat, e: Entry, g: nat, j: nat)
    requires f in mem && i < |mem[f]|
    ensures EntryAt(SetEntry(mem, f, i, e), g, j) == if g == f && j == i then e else EntryAt(mem, g, j)
    ensures SetEntry(mem, f, i, e).Keys == mem.Keys
    ensures forall h :: h in mem ==> |SetEntry(mem, f, i, e)[h]| == |mem[h]|
  {
  }

  /** The entry that leads to the table at `p` already grants `flags`. */
  ghost predicate Covers(mem: Memory, tree: Tree, p: seq<nat>, flags: Flags)
  {
    p != [] && p[..|p| - 1] in tree ==>
      var above := EntryAt(mem, tree[p[..|p| - 1]], p[|p| - 1]);
      (flags.writable ==> above.writable) && (flags.user ==> above.user)
  }

  /** An entry replaced by one that grants no more than the entry above it. */
  ghost predicate Fits(mem: Memory, tree: Tree, p: seq<nat>, e: Entry)
  {
    p != [] && p[..|p| - 1] in tree ==> Under(e, EntryAt(mem, tree[p[..|p| - 1]], p[|p| - 1]))
  }

  lemma ChildParts(p: seq<nat>, i: nat)
    ensures Child(p, i) != [] && Child(p, i)[..|Child(p, i)| - 1] == p && Child(p, i)[|Child(p, i)| - 1] == i
  {
  }

  lemma MonotoneEdit(mem: Memory, root: nat, tree: Tree, p: seq<nat>, i: nat, e: Entry, q: seq<nat>, j: nat)
    requires TreeOk(mem, root, tree) && p in tree && i < TABLE_ENTRIES && Fits(mem, tree, p, e)
    requires q in tree && j < TABLE_ENTRIES
    requires Child(p, i) in tree ==> EntryAt(mem, tree[p], i).writable ==> e.writable
    requires Child(p, i) in tree ==> EntryAt(mem, tree[p], i).user ==> e.user
    ensures Monotone(SetEntry(mem, tree[p], i, e), tree, q, j)
  {
    var mem' := SetEntry(mem, tree[p], i, e);
    var c := Child(q, j);
    assert Monotone(mem, tree, q, j);
    ChildParts(q, j);
    ReadBack(mem, tree[p], i, e, tree[q], j);
    if c in tree {
      forall k | 0 <= k < TABLE_ENTRIES ensures Under(EntryAt(mem', tree[c], k), EntryAt(mem', tree[q], j)) {
        ReadBack(mem, tree[p], i, e, tree[c], k);
      }
    }
  }

  /** Opening up an intermediate entry keeps the tree and every translation. */
  lemma WidenOk(mem: Memory, root: nat, tree: Tree, p: seq<nat>, i: nat, flags: Flags)
    requires TreeOk(mem, root, tree) && p in tree && i < TABLE_ENTRIES && Child(p, i) in tree && Covers(mem, tree, p, flags)
    ensures var mem' := SetEntry(mem, tree[p], i, Widen(EntryAt(mem, tree[p], i), flags));
            && TreeOk(mem', root, tree) && Covers(mem', tree, Child(p, i), flags)
            && forall q :: |q| == 4 ==> LeafAt(mem', tree, q) == LeafAt(mem, tree, q)
  {
    var e := EntryAt(mem, tree[p], i);
    var mem' := SetEntry(mem, tree[p], i, Widen(e, flags));
    ReadBack(mem, tree[p], i, Widen(e, flags), tree[p], i);
    assert EntryOk(mem, tree, p, i);
    ChildParts(p, i);
    FitsAbove(mem, root, tree, p, i, flags);
    forall q, j: nat | q in tree && j < TABLE_ENTRIES ensures EntryOk(mem', tree, q, j) && Monotone(mem', tree, q, j) {
      assert EntryOk(mem, tree, q, j);
      ReadBack(mem, tree[p], i, Widen(e, flags), tree[q], j);
      MonotoneEdit(mem, root, tree, p, i, Widen(e, flags), q, j);
    }
    forall q | |q| == 4 ensures LeafAt(mem', tree, q) == LeafAt(mem, tree, q) {
      if q[..3] in tree { ReadBack(mem, tree[p], i, Widen(e, flags), tree[q[..3]], q[3]); }
      if q[..2] in tree { ReadBack(mem, tree[p], i, Widen(e, flags), tree[q[..2]], q[2]); }
    }
  }

  lemma FitsAbove(mem: Memory, root: nat, tree: Tree, p: seq<nat>, i: nat, flags: Flags)
    requires TreeOk(mem, root, tree) && p in tree && i < TABLE_ENTRIES && Covers(mem, tree, p, flags)
    ensures Fits(mem, tree, p, Widen(EntryAt(mem, tree[p], i), flags)) || !EntryAt(mem, tree[p], i).present
    ensures Fits(mem, tree, p, LeafEntry(0, flags))
  {
    if p != [] {
      var up, k := p[..|p| - 1], p[|p| - 1];
      assert Child(up, k) == p;
      assert Monotone(mem, tree, up, k);
    }
  }

  /** Hooking an empty table under an absent entry keeps the tree and every translation. */
  lemma LinkOk(mem: Memory, root: nat, tree: Tree, p: seq<nat>, i: nat, f: nat, flags: Flags)
    requires TreeOk(mem, root, tree) && p in tree && |p| < 3 && i < TABLE_ENTRIES && !EntryAt(mem, tree[p], i).present
    requires f !in tree.Values && f < IDENTITY_BYTES && Covers(mem, tree, p, flags)
    ensures var e := Entry(f, true, flags.writable, flags.user, false, false);
            var (mem', tree') := (SetEntry(mem[f := ZeroTable()], tree[p], i, e), tree[Child(p, i) := f]);
            && TreeOk(mem', root, tree') && Covers(mem', tree', Child(p, i), flags)
            && forall q :: |q| == 4 ==> LeafAt(mem', tree', q) == LeafAt(mem, tree, q)
  {
    assert EntryOk(mem, tree, p, i);
    FreshOk(mem, root, tree, f);
    HookOk(mem[f := ZeroTable()], root, tree, p, i, f, flags);
  }

  /** A frame outside the tree may be overwritten. */
  lemma FreshOk(mem: Memory, root: nat, tree: Tree, f: nat)
    requires TreeOk(mem, root, tree) && f !in tree.Values
    ensures TreeOk(mem[f := ZeroTable()], root, tree)
    ensures forall q :: |q| == 4 ==> LeafAt(mem[f := ZeroTable()], tree, q) == LeafAt(mem, tree, q)
    ensures forall p, i: nat :: p in tree ==> EntryAt(mem[f := ZeroTable()], tree[p], i) == EntryAt(mem, tree[p], i)
  {
    var mem' := mem[f := ZeroTable()];
    forall p | p in tree ensures tree[p] != f { assert tree[p] in tree.Values; }
    forall p, i: nat | p in tree ensures EntryAt(mem', tree[p], i) == EntryAt(mem, tree[p], i) {}
    forall p, i: nat | p in tree && i < TABLE_ENTRIES ensures EntryOk(mem', tree, p, i) { assert EntryOk(mem, tree, p, i); }
    forall p, i: nat | p in tree && i < TABLE_ENTRIES ensures Monotone(mem', tree, p, i) { assert Monotone(mem, tree, p, i); }
  }

  lemma HookOk(mem: Memory, root: nat, tree: Tree, p: seq<nat>, i: nat, f: nat, flags: Flags)
    requires TreeOk(mem, root, tree) && p in tree && |p| < 3 && i < TABLE_ENTRIES && EntryAt(mem, tree[p], i) == NONE_ENTRY
    requires f in mem && mem[f] == ZeroTable() && f !in tree.Values && f < IDENTITY_BYTES && Covers(mem, tree, p, flags)
    ensures var e := Entry(f, true, flags.writable, flags.user, false, false);
            var (mem', tree') := (SetEntry(mem, tree[p], i, e), tree[Child(p, i) := f]);
            && TreeOk(mem', root, tree') && Covers(mem', tree', Child(p, i), flags)
            && forall q :: |q| == 4 ==> LeafAt(mem', tree', q) == LeafAt(mem, tree, q)
  {
    var e := Entry(f, true, flags.writable, flags.user, false, false);
    var (mem', tree', c) := (SetEntry(mem, tree[p], i, e), tree[Child(p, i) := f], Child(p, i));
    assert EntryOk(mem, tree, p, i);
    ChildParts(p, i);
    FitsAbove(mem, root, tree, p, i, flags);
    forall q, j: nat | q in tree' && j < TABLE_ENTRIES ensures EntryOk(mem', tree', q, j) && Monotone(mem', tree', q, j) {
      HookedEntry(mem, root, tree, p, i, f, e, q, j);
    }
    ReadBack(mem, tree[p], i, e, tree[p], i);
    forall q | |q| == 4 ensures LeafAt(mem', tree', q) == LeafAt(mem, tree, q) { HookedLeaf(mem, root, tree, p, i, f, e, q); }
  }

  lemma HookedEntry(mem: Memory, root: nat, tree: Tree, p: seq<nat>, i: nat, f: nat, e: Entry, q: seq<nat>, j: nat)
    requires TreeOk(mem, root, tree) && p in tree && |p| < 3 && i < TABLE_ENTRIES && Child(p, i) !in tree
    requires f in mem && mem[f] == ZeroTable() && f !in tree.Values && Fits(mem, tree, p, e)
    requires e.present && !e.huge && !e.noExecute && e.addr == f
    requires q in tree[Child(p, i) := f] && j < TABLE_ENTRIES
    ensures var (mem', tree') := (SetEntry(mem, tree[p], i, e), tree[Child(p, i) := f]);
            EntryOk(mem', tree', q, j) && Monotone(mem', tree', q, j)
  {
    var (mem', tree', c) := (SetEntry(mem, tree[p], i, e), tree[Child(p, i) := f], Child(p, i));
    ChildParts(p, i);
    ChildParts(q, j);
    ReadBack(mem, tree[p], i, e, tree'[q], j);
    if q == c {
      assert Child(q, j) !in tree';
    } else {
      assert EntryOk(mem, tree, q, j);
      if Child(q, j) == c {
        forall k | 0 <= k < TABLE_ENTRIES ensures Under(EntryAt(mem', f, k), e) { ReadBack(mem, tree[p], i, e, f, k); }
      } else {
        MonotoneEdit(mem, root, tree, p, i, e, q, j);
      }
    }
  }

  lemma HookedLeaf(mem: Memory, root: nat, tree: Tree, p: seq<nat>, i: nat, f: nat, e: Entry, q: seq<nat>)
    requires TreeOk(mem, root, tree) && p in tree && |p| < 3 && i < TABLE_ENTRIES && EntryAt(mem, tree[p], i) == NONE_ENTRY
    requires Child(p, i) !in tree && f in mem && mem[f] == ZeroTable() && f !in tree.Values && !e.huge && |q| == 4
    ensures LeafAt(SetEntry(mem, tree[p], i, e), tree[Child(p, i) := f], q) == LeafAt(mem, tree, q)
  {
    var (mem', tree', c) := (SetEntry(mem, tree[p], i, e), tree[Child(p, i) := f], Child(p, i));
    assert q[..3][..2] == q[..2] && q[..3] == Child(q[..2], q[2]);
    ChildParts(p, i);
    if q[..3] in tree' { ReadBack(mem, tree[p], i, e, tree'[q[..3]], q[3]); }
    if q[..2] in tree' { ReadBack(mem, tree[p], i, e, tree'[q[..2]], q[2]); }
  }

  /** Writing a page entry changes the translation along its own path and no other. */
  lemma LeafOk(mem: Memory, root: nat, tree: Tree, p: seq<nat>, i: nat, e: Entry)
    requires TreeOk(mem, root, tree) && p in tree && |p| == 3 && i < TABLE_ENTRIES && Fits(mem, tree, p, e)
    requires !e.huge && (!e.present ==> e == NONE_ENTRY)
    ensures var mem' := SetEntry(mem, tree[p], i, e);
            && TreeOk(mem', root, tree)
            && forall q :: |q| == 4 ==>
                 LeafAt(mem', tree, q) == if q == Child(p, i) then (if e.present then Some(PageLeaf(e)) else None) else LeafAt(mem, tree, q)
  {
    var mem' := SetEntry(mem, tree[p], i, e);
    assert EntryOk(mem, tree, p, i);
    forall q, j: nat | q in tree && j < TABLE_ENTRIES ensures EntryOk(mem', tree, q, j) && Monotone(mem', tree, q, j) {
      assert EntryOk(mem, tree, q, j);
      ReadBack(mem, tree[p], i, e, tree[q], j);
      MonotoneEdit(mem, root, tree, p, i, e, q, j);
    }
    forall q | |q| == 4
      ensures LeafAt(mem', tree, q) == if q == Child(p, i) then (if e.present then Some(PageLeaf(e)) else None) else LeafAt(mem, tree, q)
    {
      assert q == Child(q[..3], q[3]);
      ChildParts(p, i);
      if q[..3] in tree { ReadBack(mem, tree[p], i, e, tree[q[..3]], q[3]); }
      if q[..2] in tree { ReadBack(mem, tree[p], i, e, tree[q[..2]], q[2]); }
    }
  }

  /** Writes outside a tree leave it alone. */
  lemma OutsideOk(mem: Memory, mem': Memory, root: nat, tree: Tree)
    requires TreeOk(mem, root, tree) && forall p :: p in tree ==> tree[p] in mem' && mem'[tree[p]] == mem[tree[p]]
    ensures TreeOk(mem', root, tree)
    ensures forall q :: |q| == 4 ==> LeafAt(mem', tree, q) == LeafAt(mem, tree, q)
  {
    forall p, i: nat | p in tree ensures EntryAt(mem', tree[p], i) == EntryAt(mem, tree[p], i) {}
    forall p, i: nat | p in tree && i < TABLE_ENTRIES ensures EntryOk(mem', tree, p, i) { assert EntryOk(mem, tree, p, i); }
    forall p, i: nat | p in tree && i < TABLE_ENTRIES ensures Monotone(mem', tree, p, i) { assert Monotone(mem, tree, p, i); }
  }
}
