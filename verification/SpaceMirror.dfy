/**
 Address spaces share the kernel's tables below their root and low table. When the kernel's mapper
 changes its tables, the tree of every existing space changes with them.
 */
module SpaceMirror {
  import opened Common
  import opened PagingModel
  import opened PagingTree
  import opened PagingLaws
  import opened PagingEdits
  import opened SpaceModel
  import opened SpaceTree
  import opened SpaceLaws

  /** The shared table nearest to the root: entered from the space's own root or low table. */
  function Top(p: seq<nat>): seq<nat>
    requires Shared(p)
  {
    if p[0] != 0 then p[..1] else p[..2]
  }

  /** Below its tops the space has exactly the kernel's tables. */
  ghost predicate SharesTables(bt: Tree, tree: Tree)
  {
    forall p :: Shared(p) ==> (p in tree <==> p in bt && Top(p) in tree) && (p in tree ==> tree[p] == bt[p])
  }

  /** The entries that lead to the tops are copies of the kernel's. */
  ghost predicate SharesEntries(mem: Memory, boot: nat, bt: Tree, tree: Tree)
  {
    && [] in tree && [0] in tree && [0] in bt
    && (forall i: nat :: i != 0 && [i] in tree ==> EntryAt(mem, tree[[]], i) == EntryAt(mem, boot, i))
    && (forall j: nat :: j != USER_P3_INDEX && [0, j] in tree ==> EntryAt(mem, tree[[0]], j) == EntryAt(mem, bt[[0]], j))
  }

  ghost predicate Mirrors(mem: Memory, boot: nat, bt: Tree, tree: Tree) { SharesTables(bt, tree) && SharesEntries(mem, boot, bt, tree) }

  // ---- following the kernel

  /** The tree of the space when the kernel's tree is `bt'`. */
  ghost function Followed(bt': Tree, tree: Tree): Tree
  {
    map p | p in bt'.Keys + tree.Keys && (if Shared(p) then p in bt' && Top(p) in tree else p in tree)
      :: if Shared(p) then bt'[p] else tree[p]
  }

  lemma FollowedAt(bt': Tree, tree: Tree, p: seq<nat>)
    ensures p in Followed(bt', tree) <==> if Shared(p) then p in bt' && Top(p) in tree else p in tree
    ensures p in Followed(bt', tree) ==> Followed(bt', tree)[p] == if Shared(p) then bt'[p] else tree[p]
  {
  }

  /** The kernel's tables grew, but the entries above the tops and the space's own tables are as they were. */
  ghost predicate KernelMoved(mem: Memory, boot: nat, bt: Tree, mem': Memory, bt': Tree, tree: Tree)
  {
    && TreeOk(mem', boot, bt') && (forall p :: p in bt ==> p in bt' && bt'[p] == bt[p])
    && SharesEntries(mem', boot, bt, tree)
    && (forall p :: p in tree && !Shared(p) ==> tree[p] in mem && tree[p] in mem' && mem'[tree[p]] == mem[tree[p]] && tree[p] !in bt'.Values)
  }

  lemma SharedChild(p: seq<nat>, i: nat)
    ensures Shared(p) ==> Shared(Child(p, i)) && Top(Child(p, i)) == Top(p)
    ensures !Shared(p) && Shared(Child(p, i)) ==> (p == [] && i != 0) || (p == [0] && i != USER_P3_INDEX)
    ensures !Shared(p) && Shared(Child(p, i)) ==> Top(Child(p, i)) == Child(p, i)
  {
    var c := Child(p, i);
    assert |c| == |p| + 1 && c[|p|] == i && forall k :: 0 <= k < |p| ==> c[k] == p[k];
    assert p == [] ==> c == [i];
    assert p == [0] ==> c == [0, i];
    if Shared(p) {
      assert p[0] != 0 ==> c[..1] == p[..1];
      assert p[0] == 0 ==> |p| >= 2 && c[..2] == p[..2];
    }
  }

  /** A child of a followed table is followed exactly if it was there before, or is shared and below a shared table. */
  lemma FollowedChild(bt: Tree, bt': Tree, tree: Tree, p: seq<nat>, i: nat)
    requires SharesTables(bt, tree) && (forall q :: q in bt ==> q in bt' && bt'[q] == bt[q]) && p in Followed(bt', tree)
    ensures var t := Followed(bt', tree);
            && (Shared(p) ==> (Child(p, i) in t <==> Child(p, i) in bt'))
            && (!Shared(p) ==> (Child(p, i) in t <==> Child(p, i) in tree))
            && (!Shared(p) && Child(p, i) in tree ==> t[Child(p, i)] == tree[Child(p, i)])
            && (Child(p, i) in t && Shared(Child(p, i)) ==> t[Child(p, i)] == bt'[Child(p, i)])
  {
    FollowedAt(bt', tree, p);
    FollowedAt(bt', tree, Child(p, i));
    SharedChild(p, i);
  }

  lemma FollowedEntryOk(mem: Memory, boot: nat, bt: Tree, mem': Memory, bt': Tree, root: nat, tree: Tree, p: seq<nat>, i: nat)
    requires TreeOk(mem, root, tree) && SharesTables(bt, tree) && KernelMoved(mem, boot, bt, mem', bt', tree)
    requires p in Followed(bt', tree) && i < TABLE_ENTRIES
    ensures EntryOk(mem', Followed(bt', tree), p, i)
  {
    FollowedAt(bt', tree, p);
    FollowedChild(bt, bt', tree, p, i);
    SharedChild(p, i);
    if Shared(p) { assert EntryOk(mem', bt', p, i); } else { assert EntryOk(mem, tree, p, i); }
  }

  /** What lies in a table below a top is under the space's own entry for it, which is the kernel's. */
  lemma TopMonotone(mem: Memory, boot: nat, bt: Tree, mem': Memory, bt': Tree, root: nat, tree: Tree, p: seq<nat>, i: nat)
    requires TreeOk(mem, root, tree) && TreeOk(mem, boot, bt) && SharesTables(bt, tree) && KernelMoved(mem, boot, bt, mem', bt', tree)
    requires p in tree && !Shared(p) && Shared(Child(p, i)) && Child(p, i) in tree && i < TABLE_ENTRIES
    ensures forall j :: 0 <= j < TABLE_ENTRIES ==> Under(EntryAt(mem', bt'[Child(p, i)], j), EntryAt(mem', tree[p], i))
  {
    SharedChild(p, i);
    assert p == [] ==> Child(p, i) == [i];
    assert p == [0] ==> Child(p, i) == [0, i];
    assert p in bt' && bt'[p] == bt[p] by { assert bt[[]] == boot; }
    assert EntryAt(mem', tree[p], i) == EntryAt(mem', bt'[p], i);
    assert Monotone(mem', bt', p, i);
  }

  /** Between the space's own tables nothing changed. */
  lemma OwnMonotone(mem: Memory, boot: nat, bt: Tree, mem': Memory, bt': Tree, root: nat, tree: Tree, p: seq<nat>, i: nat)
    requires TreeOk(mem, root, tree) && KernelMoved(mem, boot, bt, mem', bt', tree)
    requires p in tree && !Shared(p) && !Shared(Child(p, i)) && Child(p, i) in tree && i < TABLE_ENTRIES
    ensures forall j :: 0 <= j < TABLE_ENTRIES ==> Under(EntryAt(mem', tree[Child(p, i)], j), EntryAt(mem', tree[p], i))
  {
    assert Monotone(mem, tree, p, i);
    var c := Child(p, i);
    assert EntryAt(mem', tree[p], i) == EntryAt(mem, tree[p], i);
    forall j | 0 <= j < TABLE_ENTRIES ensures Under(EntryAt(mem', tree[c], j), EntryAt(mem', tree[p], i)) {
      assert EntryAt(mem', tree[c], j) == EntryAt(mem, tree[c], j);
    }
  }

  lemma FollowedMonotone(mem: Memory, boot: nat, bt: Tree, mem': Memory, bt': Tree, root: nat, tree: Tree, p: seq<nat>, i: nat)
    requires TreeOk(mem, root, tree) && TreeOk(mem, boot, bt) && SharesTables(bt, tree) && KernelMoved(mem, boot, bt, mem', bt', tree)
    requires p in Followed(bt', tree) && i < TABLE_ENTRIES
    ensures Monotone(mem', Followed(bt', tree), p, i)
  {
    var (t, c) := (Followed(bt', tree), Child(p, i));
    FollowedAt(bt', tree, p);
    FollowedChild(bt, bt', tree, p, i);
    SharedChild(p, i);
    if c in t {
      if Shared(p) {
        assert Monotone(mem', bt', p, i);
      } else if Shared(c) {
        TopMonotone(mem, boot, bt, mem', bt', root, tree, p, i);
      } else {
        OwnMonotone(mem, boot, bt, mem', bt', root, tree, p, i);
      }
    }
  }

  lemma FollowedTables(mem: Memory, boot: nat, bt: Tree, mem': Memory, bt': Tree, root: nat, tree: Tree)
    requires TreeOk(mem, root, tree) && KernelMoved(mem, boot, bt, mem', bt', tree)
    ensures TablesOk(mem', Followed(bt', tree))
  {
    var t := Followed(bt', tree);
    forall p | p in t ensures |p| <= 3 && t[p] in mem' && |mem'[t[p]]| == TABLE_ENTRIES && t[p] < IDENTITY_BYTES { FollowedAt(bt', tree, p); }
    forall p, q | p in t && q in t && t[p] == t[q] ensures p == q {
      FollowedAt(bt', tree, p);
      FollowedAt(bt', tree, q);
      assert Shared(p) ==> bt'[p] in bt'.Values;
      assert Shared(q) ==> bt'[q] in bt'.Values;
    }
  }

  lemma FollowedPrefix(mem: Memory, boot: nat, mem': Memory, bt': Tree, root: nat, tree: Tree, p: seq<nat>)
    requires TreeOk(mem, root, tree) && TreeOk(mem', boot, bt') && p in Followed(bt', tree) && p != [] && [0] in tree
    ensures p[..|p| - 1] in Followed(bt', tree) && p[|p| - 1] < TABLE_ENTRIES
  {
    var (up, i) := (p[..|p| - 1], p[|p| - 1]);
    assert p == Child(up, i);
    FollowedAt(bt', tree, p);
    FollowedAt(bt', tree, up);
    SharedChild(up, i);
  }

  /** The space's tree follows the kernel's and stays a tree. */
  lemma FollowOk(mem: Memory, boot: nat, bt: Tree, mem': Memory, bt': Tree, root: nat, tree: Tree)
    requires TreeOk(mem, root, tree) && TreeOk(mem, boot, bt) && SharesTables(bt, tree) && KernelMoved(mem, boot, bt, mem', bt', tree)
    ensures TreeOk(mem', root, Followed(bt', tree))
  {
    var t := Followed(bt', tree);
    FollowedAt(bt', tree, []);
    FollowedTables(mem, boot, bt, mem', bt', root, tree);
    forall p | p in t && p != [] ensures p[..|p| - 1] in t && p[|p| - 1] < TABLE_ENTRIES { FollowedPrefix(mem, boot, mem', bt', root, tree, p); }
    forall p, i: nat | p in t && i < TABLE_ENTRIES ensures EntryOk(mem', t, p, i) { FollowedEntryOk(mem, boot, bt, mem', bt', root, tree, p, i); }
    forall p, i: nat | p in t && i < TABLE_ENTRIES ensures Monotone(mem', t, p, i) { FollowedMonotone(mem, boot, bt, mem', bt', root, tree, p, i); }
  }

  lemma FollowedMirrors(mem: Memory, boot: nat, bt: Tree, mem': Memory, bt': Tree, tree: Tree)
    requires SharesTables(bt, tree) && KernelMoved(mem, boot, bt, mem', bt', tree)
    ensures Mirrors(mem', boot, bt', Followed(bt', tree))
  {
    FollowedShares(bt, bt', tree);
    FollowedAt(bt', tree, []);
    FollowedAt(bt', tree, [0]);
    forall i: nat ensures i != 0 && [i] in Followed(bt', tree) ==> [i] in tree { OneTop(bt', tree, [i]); }
    forall j: nat ensures j != USER_P3_INDEX && [0, j] in Followed(bt', tree) ==> [0, j] in tree { OneTop(bt', tree, [0, j]); }
  }

  lemma OneTop(bt': Tree, tree: Tree, p: seq<nat>)
    requires |p| <= 2
    ensures Shared(p) && (|p| == 1 || p[0] == 0) && p in Followed(bt', tree) ==> p in tree
  {
    FollowedAt(bt', tree, p);
    if Shared(p) && (|p| == 1 || p[0] == 0) { assert Top(p) == p; }
  }

  lemma TopTop(p: seq<nat>)
    requires Shared(p)
    ensures Shared(Top(p)) && Top(Top(p)) == Top(p)
  {
    if p[0] != 0 { assert p[..1][..1] == p[..1] && p[..1][0] == p[0]; } else { assert p[..2][..2] == p[..2] && p[..2][0] == 0 && p[..2][1] == p[1]; }
  }

  lemma FollowedShares(bt: Tree, bt': Tree, tree: Tree)
    requires SharesTables(bt, tree) && forall p :: p in bt ==> p in bt' && bt'[p] == bt[p]
    ensures SharesTables(bt', Followed(bt', tree))
  {
    var t := Followed(bt', tree);
    forall p | Shared(p) ensures (p in t <==> p in bt' && Top(p) in t) && (p in t ==> t[p] == bt'[p]) {
      TopTop(p);
      FollowedAt(bt', tree, p);
      FollowedAt(bt', tree, Top(p));
      assert Top(p) in tree ==> Top(p) in bt;
    }
  }

  // ---- what the space sees

  /** Outside the user gigabyte: what the kernel sees, below a top of the space, and nothing elsewhere. */
  lemma MirrorLeaf(mem: Memory, boot: nat, bt: Tree, root: nat, tree: Tree, q: seq<nat>)
    requires TreeOk(mem, root, tree) && TreeOk(mem, boot, bt) && SharesTables(bt, tree) && |q| == 4 && !UserPath(q)
    ensures LeafAt(mem, tree, q) == if Top(q) in tree then LeafAt(mem, bt, q) else None
  {
    assert Shared(q) && Shared(q[..3]) && Shared(q[..2]);
    assert q[..3][..1] == q[..1] && q[..2][..1] == q[..1] && q[..3][..2] == q[..2];
    assert Top(q[..3]) == Top(q) && Top(q[..2]) == Top(q);
  }

  lemma FollowedUserLeaf(mem: Memory, boot: nat, bt: Tree, mem': Memory, bt': Tree, tree: Tree, q: seq<nat>)
    requires KernelMoved(mem, boot, bt, mem', bt', tree) && |q| == 4 && UserPath(q)
    ensures LeafAt(mem', Followed(bt', tree), q) == LeafAt(mem, tree, q)
  {
    assert UserPath(q[..3]) && UserPath(q[..2]);
    FollowedAt(bt', tree, q[..3]);
    FollowedAt(bt', tree, q[..2]);
  }
}
