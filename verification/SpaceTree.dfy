/** A new address space: the kernel's translations outside the user gigabyte, nothing inside it. */
module SpaceTree {
  import opened Common
  import opened PagingModel
  import opened PagingTree
  import opened SpaceModel

  /** Tables a new space shares with the kernel: all but the root, the low table and the user area. */
  predicate Shared(p: seq<nat>)
  {
    p != [] && p != [0] && !UserPath(p)
  }

  predicate UserPath(p: seq<nat>) { |p| >= 2 && p[0] == 0 && p[1] == USER_P3_INDEX }

  function TreeOf(bt: Tree, root: nat, low: nat, user: nat): Tree
  {
    (map p | p in bt && Shared(p) :: bt[p])[[] := root][[0] := low][[0, USER_P3_INDEX] := user]
  }

  /** The three new frames are distinct and none of them is a kernel table. */
  ghost predicate NewFrames(bt: Tree, root: nat, low: nat, user: nat)
  {
    && root != low && low != user && root != user && root < IDENTITY_BYTES && low < IDENTITY_BYTES && user < IDENTITY_BYTES
    && root !in bt.Values && low !in bt.Values && user !in bt.Values
  }

  ghost predicate Setup(mem: Memory, boot: nat, bt: Tree, root: nat, low: nat, user: nat)
  {
    && TreeOk(mem, boot, bt) && [0] in bt && NewFrames(bt, root, low, user)
    && user in mem && mem[user] == ZeroTable()
  }

  /** What each table of the new tree holds. */
  lemma FilledEntries(mem: Memory, boot: nat, bt: Tree, root: nat, low: nat, user: nat, p: seq<nat>, i: nat)
    requires Setup(mem, boot, bt, root, low, user) && p in TreeOf(bt, root, low, user) && i < TABLE_ENTRIES
    ensures var e := EntryAt(FillTables(mem, boot, root, low, user), TreeOf(bt, root, low, user)[p], i);
            e == if p == [] then (if i == 0 then OpenEntry(low) else EntryAt(mem, boot, i))
                 else if p == [0] then (if i == USER_P3_INDEX then OpenEntry(user) else EntryAt(mem, bt[[0]], i))
                 else if p == [0, USER_P3_INDEX] then NONE_ENTRY
                 else EntryAt(mem, bt[p], i)
  {
    assert EntryOk(mem, bt, [], 0);
    assert Child([], 0) == [0];
    assert EntryAt(mem, boot, 0).addr == bt[[0]];
    if Shared(p) { assert bt[p] in bt.Values; }
  }

  /** Inside the new tree, below each path lies what lay there in the kernel's tree. */
  lemma FilledPaths(bt: Tree, root: nat, low: nat, user: nat, p: seq<nat>, i: nat)
    requires p in TreeOf(bt, root, low, user)
    ensures var t := TreeOf(bt, root, low, user);
            && (p == [] && i == 0 ==> Child(p, i) == [0] && t[Child(p, i)] == low)
            && (p == [0] && i == USER_P3_INDEX ==> Child(p, i) == [0, USER_P3_INDEX] && t[Child(p, i)] == user)
            && (p == [0, USER_P3_INDEX] ==> Child(p, i) !in t)
            && (p == [] && i != 0 ==> (Child(p, i) in t <==> Child(p, i) in bt) && Shared(Child(p, i)))
            && (p == [0] && i != USER_P3_INDEX ==> (Child(p, i) in t <==> Child(p, i) in bt) && Shared(Child(p, i)))
            && (p != [] && p != [0] && p != [0, USER_P3_INDEX] ==>
                  (Child(p, i) in t <==> Child(p, i) in bt) && Shared(Child(p, i)))
            && (Child(p, i) in t && Shared(Child(p, i)) ==> t[Child(p, i)] == bt[Child(p, i)])
  {
    var c := Child(p, i);
    assert |c| == |p| + 1 && c[|p|] == i && (forall k :: 0 <= k < |p| ==> c[k] == p[k]);
  }

  lemma FilledEntryOk(mem: Memory, boot: nat, bt: Tree, root: nat, low: nat, user: nat, p: seq<nat>, i: nat)
    requires Setup(mem, boot, bt, root, low, user) && p in TreeOf(bt, root, low, user) && i < TABLE_ENTRIES
    ensures EntryOk(FillTables(mem, boot, root, low, user), TreeOf(bt, root, low, user), p, i)
  {
    FilledEntries(mem, boot, bt, root, low, user, p, i);
    FilledPaths(bt, root, low, user, p, i);
    assert p == [] ==> EntryOk(mem, bt, [], i);
    assert p == [0] ==> EntryOk(mem, bt, [0], i);
    assert Shared(p) ==> EntryOk(mem, bt, p, i);
  }

  lemma FilledMonotone(mem: Memory, boot: nat, bt: Tree, root: nat, low: nat, user: nat, p: seq<nat>, i: nat)
    requires Setup(mem, boot, bt, root, low, user) && p in TreeOf(bt, root, low, user) && i < TABLE_ENTRIES
    ensures Monotone(FillTables(mem, boot, root, low, user), TreeOf(bt, root, low, user), p, i)
  {
    var (mem', t, c) := (FillTables(mem, boot, root, low, user), TreeOf(bt, root, low, user), Child(p, i));
    FilledEntries(mem, boot, bt, root, low, user, p, i);
    FilledPaths(bt, root, low, user, p, i);
    assert p == [] ==> Monotone(mem, bt, [], i);
    assert p == [0] ==> Monotone(mem, bt, [0], i);
    assert Shared(p) ==> Monotone(mem, bt, p, i);
    if c in t {
      forall j | 0 <= j < TABLE_ENTRIES ensures Under(EntryAt(mem', t[c], j), EntryAt(mem', t[p], i)) {
        FilledEntries(mem, boot, bt, root, low, user, c, j);
      }
    }
  }

  lemma TreeOfAt(bt: Tree, root: nat, low: nat, user: nat, p: seq<nat>)
    requires p in TreeOf(bt, root, low, user)
    ensures TreeOf(bt, root, low, user)[p]
            == if p == [] then root else if p == [0] then low else if p == [0, USER_P3_INDEX] then user else bt[p]
    ensures p == [] || p == [0] || p == [0, USER_P3_INDEX] || (p in bt && Shared(p) && bt[p] in bt.Values)
  {
  }

  lemma FilledTable(mem: Memory, boot: nat, bt: Tree, root: nat, low: nat, user: nat, p: seq<nat>)
    requires Setup(mem, boot, bt, root, low, user) && p in TreeOf(bt, root, low, user)
    ensures var (mem', f) := (FillTables(mem, boot, root, low, user), TreeOf(bt, root, low, user)[p]);
            |p| <= 3 && f in mem' && |mem'[f]| == TABLE_ENTRIES && f < IDENTITY_BYTES
  {
    TreeOfAt(bt, root, low, user, p);
  }

  lemma FilledDistinct(mem: Memory, boot: nat, bt: Tree, root: nat, low: nat, user: nat, p: seq<nat>, q: seq<nat>)
    requires Setup(mem, boot, bt, root, low, user) && p in TreeOf(bt, root, low, user) && q in TreeOf(bt, root, low, user)
    requires TreeOf(bt, root, low, user)[p] == TreeOf(bt, root, low, user)[q]
    ensures p == q
  {
    TreeOfAt(bt, root, low, user, p);
    TreeOfAt(bt, root, low, user, q);
  }

  lemma FilledTables(mem: Memory, boot: nat, bt: Tree, root: nat, low: nat, user: nat)
    requires Setup(mem, boot, bt, root, low, user)
    ensures TablesOk(FillTables(mem, boot, root, low, user), TreeOf(bt, root, low, user))
  {
    var (mem', t) := (FillTables(mem, boot, root, low, user), TreeOf(bt, root, low, user));
    forall p | p in t ensures |p| <= 3 && t[p] in mem' && |mem'[t[p]]| == TABLE_ENTRIES && t[p] < IDENTITY_BYTES {
      FilledTable(mem, boot, bt, root, low, user, p);
    }
    forall p, q | p in t && q in t && t[p] == t[q] ensures p == q { FilledDistinct(mem, boot, bt, root, low, user, p, q); }
  }

  lemma FilledTree(mem: Memory, boot: nat, bt: Tree, root: nat, low: nat, user: nat)
    requires Setup(mem, boot, bt, root, low, user)
    ensures TreeOk(FillTables(mem, boot, root, low, user), root, TreeOf(bt, root, low, user))
  {
    var (mem', t) := (FillTables(mem, boot, root, low, user), TreeOf(bt, root, low, user));
    FilledTables(mem, boot, bt, root, low, user);
    forall p | p in t && p != [] ensures p[..|p| - 1] in t && p[|p| - 1] < TABLE_ENTRIES { FilledPrefix(mem, boot, bt, root, low, user, p); }
    forall p, i: nat | p in t && i < TABLE_ENTRIES ensures EntryOk(mem', t, p, i) { FilledEntryOk(mem, boot, bt, root, low, user, p, i); }
    forall p, i: nat | p in t && i < TABLE_ENTRIES ensures Monotone(mem', t, p, i) { FilledMonotone(mem, boot, bt, root, low, user, p, i); }
    assert t[[]] == root;
  }

  lemma FilledPrefix(mem: Memory, boot: nat, bt: Tree, root: nat, low: nat, user: nat, p: seq<nat>)
    requires Setup(mem, boot, bt, root, low, user) && p in TreeOf(bt, root, low, user) && p != []
    ensures p[..|p| - 1] in TreeOf(bt, root, low, user) && p[|p| - 1] < TABLE_ENTRIES
  {
    var up := p[..|p| - 1];
    if Shared(p) {
      assert up in bt;
      assert UserPath(up) ==> UserPath(p);
    } else {
      assert p == [0] ==> up == [];
      assert p == [0, USER_P3_INDEX] ==> up == [0];
    }
  }

  /** Translations of the new space. */
  lemma FilledLeaf(mem: Memory, boot: nat, bt: Tree, root: nat, low: nat, user: nat, q: seq<nat>)
    requires Setup(mem, boot, bt, root, low, user) && |q| == 4 && q[2] < TABLE_ENTRIES && q[3] < TABLE_ENTRIES
    ensures LeafAt(FillTables(mem, boot, root, low, user), TreeOf(bt, root, low, user), q)
            == if UserPath(q) then None else LeafAt(mem, bt, q)
  {
    var t := TreeOf(bt, root, low, user);
    assert q[..3][..2] == q[..2] && q[..2][0] == q[0] && q[..2][1] == q[1] && q[..3][0] == q[0] && q[..3][1] == q[1];
    assert |q[..3]| == 3 && |q[..2]| == 2;
    if q[..3] in t { FilledEntries(mem, boot, bt, root, low, user, q[..3], q[3]); }
    if q[..2] in t { FilledEntries(mem, boot, bt, root, low, user, q[..2], q[2]); }
  }
}
