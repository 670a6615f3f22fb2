/** Mapping and unmapping on the tree refine update and removal in a flat map of pages. */
module PagingLaws {
  import opened Common
  import opened PagingModel
  import opened PagingTree

  // ---- addresses and paths

  /** Page number of an address modulo 2^36, rebuilt from its four indices. */
  lemma PathNumber(va: nat)
    ensures PageOf(va) % 0x10_0000_0000
            == Index(va, 0) * 0x800_0000 + Index(va, 1) * 0x4_0000 + Index(va, 2) * 0x200 + Index(va, 3)
  {
    var n := PageOf(va);
    assert va / Span(2) == n / 0x200;
    assert va / Span(1) == n / 0x200 / 0x200;
    assert va / Span(0) == n / 0x200 / 0x200 / 0x200;
    Digits(n);
  }

  lemma Digits(n: nat)
    ensures n % 0x10_0000_0000
            == n / 0x200 / 0x200 / 0x200 % 0x200 * 0x800_0000 + n / 0x200 / 0x200 % 0x200 * 0x4_0000 + n / 0x200 % 0x200 * 0x200 + n % 0x200
  {
  }

  /** A canonical page number is determined by its low 36 bits. */
  lemma CanonicalPage(va: nat)
    requires Canonical(va)
    ensures var low := PageOf(va) % 0x10_0000_0000;
            PageOf(va) == if low < 0x8_0000_0000 then low else low + 0xffff * 0x10_0000_0000
  {
    if va >= KERNEL_BASE {
      assert KERNEL_BASE / PAGE == 0xffff * 0x10_0000_0000 + 0x8_0000_0000;
      assert PageOf(va) / 0x10_0000_0000 == 0xffff;
    }
  }

  /** Canonical addresses have the same path exactly when they lie in the same page. */
  lemma PathIsPage(va: nat, vb: nat)
    requires Canonical(va) && Canonical(vb)
    ensures Path(va) == Path(vb) <==> PageOf(va) == PageOf(vb)
  {
    if PageOf(va) == PageOf(vb) {
      SamePagePath(va, vb);
    } else if Path(va) == Path(vb) {
      SamePathNumber(va, vb);
      CanonicalPage(va);
      CanonicalPage(vb);
    }
  }

  lemma SamePathNumber(va: nat, vb: nat)
    requires Path(va) == Path(vb)
    ensures PageOf(va) % 0x10_0000_0000 == PageOf(vb) % 0x10_0000_0000
  {
    PathNumber(va);
    PathNumber(vb);
    var p, q := Path(va), Path(vb);
    assert p[0] == q[0] && p[1] == q[1] && p[2] == q[2] && p[3] == q[3];
  }

  lemma SamePagePath(va: nat, vb: nat)
    requires PageOf(va) == PageOf(vb)
    ensures Path(va) == Path(vb)
  {
    var n := PageOf(va);
    assert va / Span(2) == n / 0x200 == vb / Span(2);
    assert va / Span(1) == n / 0x200 / 0x200 == vb / Span(1);
    assert va / Span(0) == n / 0x200 / 0x200 / 0x200 == vb / Span(0);
  }

  // ---- growing the tree

  /** Frames the allocator may hand out: aligned, all different, and none of them a table. */
  ghost predicate PoolOk(pool: seq<nat>, tree: Tree)
  {
    && (forall k :: 0 <= k < |pool| ==> pool[k] !in tree.Values && Aligned(pool[k]))
    && (forall k, l :: 0 <= k < l < |pool| ==> pool[k] != pool[l])
  }

  ghost predicate MapperOk(m: Mapper, tree: Tree) { TreeOk(m.mem, m.root, tree) && PoolOk(m.pool, tree) }

  /** Between the two states only tables were added, from the first `k` frames of the pool. */
  ghost predicate Grown(m: Mapper, tree: Tree, m': Mapper, tree': Tree, k: nat)
  {
    && MapperOk(m', tree') && m'.root == m.root && m'.records == m.records
    && m'.overflows == m.overflows && m'.misses == m.misses && m'.mapped == m.mapped && m'.unmapped == m.unmapped
    && m'.tableFrames == m.tableFrames + k
    && k <= |m.pool| && m'.pool == m.pool[k..] && tree'.Values == tree.Values + Elements(m.pool[..k])
  }

  ghost predicate SameLeaves(mem: Memory, tree: Tree, mem': Memory, tree': Tree)
  {
    forall q :: |q| == 4 ==> LeafAt(mem', tree', q) == LeafAt(mem, tree, q)
  }

  lemma EnsureOk(m: Mapper, tree: Tree, p: seq<nat>, i: nat, flags: Flags) returns (tree': Tree, k: nat)
    requires MapperOk(m, tree) && p in tree && |p| < 3 && i < TABLE_ENTRIES && Covers(m.mem, tree, p, flags)
    ensures var (m', r) := EnsureNext(m, tree[p], i, flags);
            && Grown(m, tree, m', tree', k) && SameLeaves(m.mem, tree, m'.mem, tree')
            && (r.Ok? ==> Child(p, i) in tree' && r.value == tree'[Child(p, i)] && Covers(m'.mem, tree', Child(p, i), flags))
    ensures Child(p, i) in tree ==> EnsureNext(m, tree[p], i, flags).1.Ok? && k == 0 && tree' == tree
    ensures Child(p, i) !in tree && !EntryAt(m.mem, tree[p], i).present ==>
              var (m', r) := EnsureNext(m, tree[p], i, flags);
              && (r.Ok? <==> m.pool != [] && m.pool[0] < IDENTITY_BYTES)
              && (r.Ok? ==> k == 1 && tree' == tree[Child(p, i) := m.pool[0]])
              && (r.Err? ==> r.error.OutOfFrames? || r.error.PhysicalNotIdentityMapped?)
  {
    assert EntryOk(m.mem, tree, p, i);
    var e := EntryAt(m.mem, tree[p], i);
    tree', k := tree, 0;
    assert Elements(m.pool[..0]) == {};
    if e.present && !e.huge {
      WidenOk(m.mem, m.root, tree, p, i, flags);
    } else if !e.present && m.pool != [] && m.pool[0] < IDENTITY_BYTES {
      LinkOk(m.mem, m.root, tree, p, i, m.pool[0], flags);
      tree', k := tree[Child(p, i) := m.pool[0]], 1;
      GrownPool(m.pool, tree, Child(p, i));
    }
  }

  lemma GrownPool(pool: seq<nat>, tree: Tree, c: seq<nat>)
    requires pool != [] && PoolOk(pool, tree) && c !in tree
    ensures var tree' := tree[c := pool[0]];
            PoolOk(pool[1..], tree') && tree'.Values == tree.Values + Elements(pool[..1])
  {
    var tree' := tree[c := pool[0]];
    assert Elements(pool[..1]) == {pool[0]};
    forall v | v in tree.Values ensures v in tree'.Values {
      var q :| q in tree && tree[q] == v;
      assert q in tree' && tree'[q] == v;
    }
    assert tree'[c] in tree'.Values;
  }

  // ---- mapping

  ghost function MissingIn(tree: Tree, q: seq<nat>, level: nat): nat
    requires |q| == 4
    decreases 3 - level
  {
    if level >= 3 then 0 else if q[..level + 1] in tree then MissingIn(tree, q, level + 1) else 3 - level
  }

  lemma {:induction false} MissingIsIn(mem: Memory, root: nat, tree: Tree, va: nat, level: nat)
    requires TreeOk(mem, root, tree) && level <= 3 && Path(va)[..level] in tree
    ensures TablesMissing(mem, tree[Path(va)[..level]], Path(va)[level..]) == MissingIn(tree, Path(va), level)
    decreases 3 - level
  {
    if level < 3 {
      PathStep(va, level);
      assert EntryOk(mem, tree, Path(va)[..level], Index(va, level));
      if Path(va)[..level + 1] in tree { MissingIsIn(mem, root, tree, va, level + 1); }
    }
  }

  /** Creating one table on the path leaves one fewer to create. */
  lemma MissingAfterLink(mem: Memory, root: nat, tree: Tree, va: nat, level: nat, f: nat)
    requires TreeOk(mem, root, tree) && level < 3 && Path(va)[..level + 1] !in tree
    ensures MissingIn(tree[Path(va)[..level + 1] := f], Path(va), level + 1) == 2 - level
    ensures MissingIn(tree, Path(va), level) == 3 - level
  {
    NoDeeper(mem, root, tree, va, level);
    assert level < 2 ==> |Path(va)[..level + 2]| == level + 2;
    assert |Path(va)[..level + 1]| == level + 1;
  }

  lemma SuppliesStep(pool: seq<nat>, n: nat)
    ensures Supplies(pool, n + 1) <==> pool != [] && pool[0] < IDENTITY_BYTES && Supplies(pool[1..], n)
  {
    if pool != [] && pool[0] < IDENTITY_BYTES && Supplies(pool[1..], n) {
      forall k | 0 <= k < n + 1 ensures pool[k] < IDENTITY_BYTES { if k > 0 { assert pool[k] == pool[1..][k - 1]; } }
    }
  }

  /** The outcome of a mapping attempt, read off the leaves. */
  ghost predicate MapOutcome(m: Mapper, tree: Tree, m': Mapper, tree': Tree, virt: nat, phys: nat, flags: Flags, r: Result<(), MapError>)
  {
    if r.Err? then SameLeaves(m.mem, tree, m'.mem, tree')
    else forall q :: |q| == 4 ==>
      LeafAt(m'.mem, tree', q) == if q == Path(virt) then Some(PageLeaf(LeafEntry(phys, flags))) else LeafAt(m.mem, tree, q)
  }

  /** Whether the next `n` frames can be had: all of them, none left before that, or one out of the kernel's reach first. */
  datatype Supply = Enough | RunsOut | OutOfReach

  function SupplyFor(pool: seq<nat>, n: nat): (r: Supply)
    ensures r.Enough? <==> Supplies(pool, n)
  {
    if Supplies(pool, n) then Enough else if |pool| < n && (forall k :: 0 <= k < |pool| ==> pool[k] < IDENTITY_BYTES) then RunsOut else OutOfReach
  }

  lemma SupplyStep(pool: seq<nat>, n: nat)
    ensures SupplyFor(pool, n + 1)
            == if pool == [] then RunsOut else if pool[0] >= IDENTITY_BYTES then OutOfReach else SupplyFor(pool[1..], n)
  {
    SuppliesStep(pool, n);
    if pool != [] {
      forall k | 1 <= k < |pool| ensures pool[k] == pool[1..][k - 1] {}
      forall k | 0 <= k < |pool| - 1 ensures pool[1..][k] == pool[k + 1] {}
    }
  }

  /** What was mapped there before and what the pool can supply decide the answer. */
  ghost predicate MapResult(before: Option<Leaf>, supply: Supply, r: Result<(), MapError>)
  {
    && (r.Ok? <==> before.None? && supply.Enough?)
    && (r == Err(OutOfFrames) <==> before.None? && supply.RunsOut?)
    && (r == Err(PhysicalNotIdentityMapped) <==> before.None? && supply.OutOfReach?)
    && (r == Err(AlreadyMapped) <==> before.Some? && !before.value.huge)
    && (r == Err(HugePageConflict) <==> before.Some? && before.value.huge)
  }

  lemma GrownTwice(m: Mapper, tree: Tree, m1: Mapper, tree1: Tree, k1: nat, m2: Mapper, tree2: Tree, k2: nat)
    requires Grown(m, tree, m1, tree1, k1) && Grown(m1, tree1, m2, tree2, k2)
    ensures Grown(m, tree, m2, tree2, k1 + k2)
  {
    assert m.pool[k1..][k2..] == m.pool[k1 + k2..];
    assert m.pool[..k1] + m.pool[k1..][..k2] == m.pool[..k1 + k2];
    forall x ensures x in Elements(m.pool[..k1 + k2]) <==> x in Elements(m.pool[..k1]) || x in Elements(m.pool[k1..][..k2]) {
      assert x in m.pool[..k1 + k2] <==> x in m.pool[..k1] || x in m.pool[k1..][..k2];
    }
  }

  lemma {:induction false} MapFromOk(m: Mapper, tree: Tree, virt: nat, level: nat, phys: nat, flags: Flags)
    returns (tree': Tree, k: nat)
    requires MapperOk(m, tree) && level <= 3 && Path(virt)[..level] in tree && Covers(m.mem, tree, Path(virt)[..level], flags)
    ensures var (m', r) := MapFrom(m, tree[Path(virt)[..level]], Path(virt)[level..], phys, flags);
            && Grown(m, tree, m', tree', k) && MapOutcome(m, tree, m', tree', virt, phys, flags, r)
            && MapResult(LeafAt(m.mem, tree, Path(virt)), SupplyFor(m.pool, MissingIn(tree, Path(virt), level)), r)
    decreases 3 - level, 1
  {
    var p, i := Path(virt)[..level], Index(virt, level);
    PathStep(virt, level);
    assert EntryOk(m.mem, tree, p, i);
    tree', k := tree, 0;
    assert Elements(m.pool[..0]) == {};
    if level == 3 {
      FitsAbove(m.mem, m.root, tree, p, i, flags);
      LeafOk(m.mem, m.root, tree, p, i, LeafEntry(phys, flags));
    } else if EntryAt(m.mem, tree[p], i).huge {
      NoDeeper(m.mem, m.root, tree, virt, level);
    } else {
      tree', k := MapBelow(m, tree, virt, level, phys, flags);
    }
  }

  lemma MapBelow(m: Mapper, tree: Tree, virt: nat, level: nat, phys: nat, flags: Flags)
    returns (tree': Tree, k: nat)
    requires MapperOk(m, tree) && level < 3 && Path(virt)[..level] in tree && Covers(m.mem, tree, Path(virt)[..level], flags)
    requires !EntryAt(m.mem, tree[Path(virt)[..level]], Index(virt, level)).huge
    ensures var (m', r) := MapFrom(m, tree[Path(virt)[..level]], Path(virt)[level..], phys, flags);
            && Grown(m, tree, m', tree', k) && MapOutcome(m, tree, m', tree', virt, phys, flags, r)
            && MapResult(LeafAt(m.mem, tree, Path(virt)), SupplyFor(m.pool, MissingIn(tree, Path(virt), level)), r)
    decreases 3 - level, 0
  {
    var frame, i := tree[Path(virt)[..level]], Index(virt, level);
    PathStep(virt, level);
    MapFromStep(m, frame, Path(virt)[level..], phys, flags);
    var tree1, k1 := EnsureStep(m, tree, virt, level, flags);
    tree', k := tree1, k1;
    if EnsureNext(m, frame, i, flags).1.Ok? {
      tree', k := MapNext(m, tree, EnsureNext(m, frame, i, flags).0, virt, level, phys, flags, tree1, k1);
    }
  }

  /** One level of the descent. */
  lemma MapFromStep(m: Mapper, frame: nat, path: seq<nat>, phys: nat, flags: Flags)
    requires |path| > 1 && !EntryAt(m.mem, frame, path[0]).huge
    ensures var (m1, r) := EnsureNext(m, frame, path[0], flags);
            MapFrom(m, frame, path, phys, flags) == if r.Err? then (m1, Err(r.error)) else MapFrom(m1, r.value, path[1..], phys, flags)
  {
  }

  lemma MapNext(m: Mapper, tree: Tree, m1: Mapper, virt: nat, level: nat, phys: nat, flags: Flags, tree1: Tree, k1: nat)
    returns (tree': Tree, k: nat)
    requires level < 3 && Grown(m, tree, m1, tree1, k1) && SameLeaves(m.mem, tree, m1.mem, tree1)
    requires Path(virt)[..level + 1] in tree1 && Covers(m1.mem, tree1, Path(virt)[..level + 1], flags)
    ensures var (m', r) := MapFrom(m1, tree1[Path(virt)[..level + 1]], Path(virt)[level + 1..], phys, flags);
            && Grown(m, tree, m', tree', k) && MapOutcome(m, tree, m', tree', virt, phys, flags, r)
            && MapResult(LeafAt(m1.mem, tree1, Path(virt)), SupplyFor(m1.pool, MissingIn(tree1, Path(virt), level + 1)), r)
    decreases 3 - level - 1, 2
  {
    var k2;
    tree', k2 := MapFromOk(m1, tree1, virt, level + 1, phys, flags);
    var (m', r) := MapFrom(m1, tree1[Path(virt)[..level + 1]], Path(virt)[level + 1..], phys, flags);
    MapChained(m, tree, m1, tree1, k1, m', tree', k2, virt, phys, flags, r);
    k := k1 + k2;
  }

  /** One level of table creation along the path of `virt`. */
  lemma EnsureStep(m: Mapper, tree: Tree, virt: nat, level: nat, flags: Flags) returns (tree1: Tree, k1: nat)
    requires MapperOk(m, tree) && level < 3 && Path(virt)[..level] in tree && Covers(m.mem, tree, Path(virt)[..level], flags)
    requires !EntryAt(m.mem, tree[Path(virt)[..level]], Index(virt, level)).huge
    ensures var (m1, r1) := EnsureNext(m, tree[Path(virt)[..level]], Index(virt, level), flags);
            && Grown(m, tree, m1, tree1, k1) && SameLeaves(m.mem, tree, m1.mem, tree1)
            && if r1.Ok? then
                 && Path(virt)[..level + 1] in tree1 && r1.value == tree1[Path(virt)[..level + 1]]
                 && Covers(m1.mem, tree1, Path(virt)[..level + 1], flags)
                 && SupplyFor(m1.pool, MissingIn(tree1, Path(virt), level + 1)) == SupplyFor(m.pool, MissingIn(tree, Path(virt), level))
                 && LeafAt(m1.mem, tree1, Path(virt)) == LeafAt(m.mem, tree, Path(virt))
               else MapResult(LeafAt(m.mem, tree, Path(virt)), SupplyFor(m.pool, MissingIn(tree, Path(virt), level)), Err(r1.error))
  {
    var p, i := Path(virt)[..level], Index(virt, level);
    PathStep(virt, level);
    assert EntryOk(m.mem, tree, p, i);
    tree1, k1 := EnsureOk(m, tree, p, i, flags);
    EnsureSupply(m, tree, virt, level, flags, tree1);
  }

  lemma MapChained(
    m: Mapper, tree: Tree, m1: Mapper, tree1: Tree, k1: nat, m': Mapper, tree': Tree, k2: nat,
    virt: nat, phys: nat, flags: Flags, r: Result<(), MapError>)
    requires Grown(m, tree, m1, tree1, k1) && SameLeaves(m.mem, tree, m1.mem, tree1)
    requires Grown(m1, tree1, m', tree', k2) && MapOutcome(m1, tree1, m', tree', virt, phys, flags, r)
    ensures Grown(m, tree, m', tree', k1 + k2) && MapOutcome(m, tree, m', tree', virt, phys, flags, r)
  {
    GrownTwice(m, tree, m1, tree1, k1, m', tree', k2);
  }

  /** One level down, what is still to be supplied is what was to be supplied before. */
  lemma EnsureSupply(m: Mapper, tree: Tree, virt: nat, level: nat, flags: Flags, tree1: Tree)
    requires MapperOk(m, tree) && level < 3 && Path(virt)[..level] in tree
    requires !EntryAt(m.mem, tree[Path(virt)[..level]], Index(virt, level)).huge
    requires var (p, i) := (Path(virt)[..level], Index(virt, level));
             var (m1, r1) := EnsureNext(m, tree[p], i, flags);
             && (Child(p, i) in tree ==> r1.Ok? && tree1 == tree && m1.pool == m.pool)
             && (Child(p, i) !in tree && r1.Ok? ==> m.pool != [] && tree1 == tree[Child(p, i) := m.pool[0]] && m1.pool == m.pool[1..])
             && (r1.Ok? ==> SameLeaves(m.mem, tree, m1.mem, tree1))
    ensures var (m1, r1) := EnsureNext(m, tree[Path(virt)[..level]], Index(virt, level), flags);
            if r1.Ok? then
              && SupplyFor(m1.pool, MissingIn(tree1, Path(virt), level + 1)) == SupplyFor(m.pool, MissingIn(tree, Path(virt), level))
              && LeafAt(m1.mem, tree1, Path(virt)) == LeafAt(m.mem, tree, Path(virt))
            else MapResult(LeafAt(m.mem, tree, Path(virt)), SupplyFor(m.pool, MissingIn(tree, Path(virt), level)), Err(r1.error))
  {
    var (p, i) := (Path(virt)[..level], Index(virt, level));
    PathStep(virt, level);
    assert EntryOk(m.mem, tree, p, i);
    if Child(p, i) !in tree {
      NoDeeper(m.mem, m.root, tree, virt, level);
      MissingAfterLink(m.mem, m.root, tree, virt, level, if m.pool == [] then 0 else m.pool[0]);
      SupplyStep(m.pool, 2 - level);
    }
  }
}
