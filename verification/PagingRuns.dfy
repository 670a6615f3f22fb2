/** Every run of the mapper from boot behaves as a flat map of pages, and every audit agrees. */
module PagingRuns {
  import opened Common
  import opened PagingModel
  import opened PagingTree
  import opened PagingLaws
  import opened PagingRefine

  // ---- the invariant is kept

  lemma GuardPages(va: nat)
    ensures PageOf(va) == PageOf(HEAP_GUARD_LOW) ==> IsGuard(va)
    ensures PageOf(va) == PageOf(HEAP_GUARD_HIGH) ==> IsGuard(va)
    ensures IsGuard(va) ==> InManaged(va) && !InUser(va)
    ensures Canonical(HEAP_GUARD_LOW) && Canonical(HEAP_GUARD_HIGH)
  {
    assert HEAP_GUARD_LOW % PAGE == 0 && HEAP_GUARD_HIGH % PAGE == 0;
  }

  lemma MapKeepsGuards(m: Mapper, m': Mapper, virt: nat, flags: Flags, leaf: Leaf)
    requires GuardsClear(m) && Mappable(virt, flags) && PageChanged(m, m', virt, Some(leaf))
    ensures GuardsClear(m')
  {
    GuardPages(virt);
  }

  lemma SameKeeps(m: Mapper, m': Mapper)
    requires RecordsOk(m) && GuardsClear(m) && SameWalks(m, m') && m'.records == m.records && m'.overflows == m.overflows
    ensures RecordsOk(m') && GuardsClear(m')
  {
    forall i | 0 <= i < |m'.records| && m'.records[i].active ensures RecordOk(m', m'.records[i]) { assert RecordOk(m, m.records[i]); }
  }

  lemma MapKeepsInv(m: Mapper, tree: Tree, virt: nat, phys: nat, flags: Flags, owner: Owner) returns (tree': Tree, k: nat)
    requires Inv(m, tree) && (owner.UserPage? <==> flags.user)
    ensures var (m', r) := MapPage(m, virt, phys, flags, owner);
            Inv(m', tree') && MapEffect(m, tree, m', tree', k, virt, LeafOf(phys, flags), r)
  {
    tree', k := MapPageRefines(m, tree, virt, phys, flags, owner);
    var (m', r) := MapPage(m, virt, phys, flags, owner);
    if r.Ok? {
      MapKeepsGuards(m, m', virt, flags, LeafOf(phys, flags));
      MapKeepsRecords(m, tree, virt, phys, flags, owner);
    } else {
      SameKeeps(m, m');
    }
  }

  lemma MapKeepsRecords(m: Mapper, tree: Tree, virt: nat, phys: nat, flags: Flags, owner: Owner)
    requires Inv(m, tree) && (owner.UserPage? <==> flags.user) && Acceptable(virt, phys, flags)
    requires MapPage(m, virt, phys, flags, owner).1.Ok?
    ensures RecordsOk(MapPage(m, virt, phys, flags, owner).0)
  {
    MappableCanonical(virt, flags);
    var tree', k := MapTree(m, tree, virt, phys, flags);
    var attempt := MapFrom(m, m.root, Path(virt), phys, flags);
    assert MapPage(m, virt, phys, flags, owner) == WithRecord(attempt, virt, phys, flags, owner);
    RecordsWith(m, attempt, virt, phys, flags, owner);
  }

  lemma RecordsWith(m: Mapper, attempt: (Mapper, Result<(), MapError>), virt: nat, phys: nat, flags: Flags, owner: Owner)
    requires RecordsOk(m) && (owner.UserPage? <==> flags.user) && Aligned(virt) && Mappable(virt, flags) && WalkAt(m, virt).None?
    requires attempt.1.Ok? && attempt.0.records == m.records && attempt.0.overflows == m.overflows
    requires PageChanged(m, attempt.0, virt, Some(LeafOf(phys, flags)))
    ensures RecordsOk(WithRecord(attempt, virt, phys, flags, owner).0)
  {
    var m1 := attempt.0.(mapped := attempt.0.mapped + 1);
    SameTables(attempt.0, m1);
    RecordsAfterMap(m, m1, virt, phys, flags, owner);
  }

  /** Mapping a new page takes its frame from the pool and gives it back when the mapping fails. */
  ghost predicate NewPageEffect(m: Mapper, tree: Tree, m': Mapper, tree': Tree, k: nat, virt: nat, flags: Flags, r: Result<nat, MapError>)
  {
    if r.Ok? then
      && k < |m.pool| && r.value == m.pool[0] && m'.pool == m.pool[1..][k..]
      && tree'.Values == tree.Values + Elements(m.pool[1..][..k])
      && PageChanged(m, m', virt, Some(LeafOf(r.value, flags)))
    else
      && SameWalks(m, m') && tree.Values <= tree'.Values
      && Elements(m'.pool) + tree'.Values == Elements(m.pool) + tree.Values && |m'.pool| + k == |m.pool|
  }

  lemma TakeFirst(m: Mapper, tree: Tree)
    requires Inv(m, tree) && m.pool != []
    ensures Inv(m.(pool := m.pool[1..]), tree) && SameWalks(m, m.(pool := m.pool[1..]))
  {
    SameTables(m, m.(pool := m.pool[1..]));
    SameKeeps(m, m.(pool := m.pool[1..]));
  }

  lemma GiveBack(pool: seq<nat>, tree: Tree, tree1: Tree, k: nat)
    requires pool != [] && PoolOk(pool, tree) && k < |pool|
    requires tree1.Values == tree.Values + Elements(pool[1..][..k]) && PoolOk(pool[1..][k..], tree1)
    ensures PoolOk([pool[0]] + pool[1..][k..], tree1)
    ensures Elements([pool[0]] + pool[1..][k..]) + tree1.Values == Elements(pool) + tree.Values
  {
    var (rest, left) := (pool[1..], pool[1..][k..]);
    var now := [pool[0]] + left;
    assert forall i :: 0 <= i < |rest| ==> rest[i] == pool[i + 1];
    assert forall i :: 0 <= i < |left| ==> left[i] == pool[i + k + 1];
    assert pool[0] !in rest[..k] && pool[0] !in left;
    assert forall i :: 0 < i < |now| ==> now[i] == left[i - 1];
    assert pool == [pool[0]] + rest[..k] + left;
    assert forall x :: x in pool <==> x == pool[0] || x in rest[..k] || x in left;
    assert forall x :: x in now <==> x == pool[0] || x in left;
  }

  lemma MapNewKeepsInv(m: Mapper, tree: Tree, virt: nat, flags: Flags, owner: Owner) returns (tree': Tree, k: nat)
    requires Inv(m, tree) && (owner.UserPage? <==> flags.user)
    ensures var (m', r) := MapNewPage(m, virt, flags, owner);
            && Inv(m', tree') && m'.root == m.root && NewPageEffect(m, tree, m', tree', k, virt, flags, r)
            && (r.Ok? <==> && Aligned(virt) && Mappable(virt, flags) && WalkAt(m, virt).None?
                           && Supplies(m.pool, TablesMissing(m.mem, m.root, Path(virt)) + 1))
  {
    tree', k := tree, 0;
    if Aligned(virt) && Mappable(virt, flags) && WalkAt(m, virt).None? {
      SuppliesStep(m.pool, TablesMissing(m.mem, m.root, Path(virt)));
      if m.pool != [] && m.pool[0] < IDENTITY_BYTES { tree', k := MapNewTaken(m, tree, virt, flags, owner); }
    }
  }

  lemma MapNewTaken(m: Mapper, tree: Tree, virt: nat, flags: Flags, owner: Owner) returns (tree': Tree, k: nat)
    requires Inv(m, tree) && (owner.UserPage? <==> flags.user)
    requires Aligned(virt) && Mappable(virt, flags) && WalkAt(m, virt).None? && m.pool != [] && m.pool[0] < IDENTITY_BYTES
    ensures var (m', r) := Settle(MapPage(m.(pool := m.pool[1..]), virt, m.pool[0], flags, owner), m.pool[0]);
            && Inv(m', tree') && m'.root == m.root && NewPageEffect(m, tree, m', tree', k, virt, flags, r)
            && (r.Ok? <==> Supplies(m.pool[1..], TablesMissing(m.mem, m.root, Path(virt))))
  {
    var m0 := m.(pool := m.pool[1..]);
    TakeFirst(m, tree);
    assert WalkAt(m0, virt).None?;
    tree', k := MapKeepsInv(m0, tree, virt, m.pool[0], flags, owner);
    var attempt := MapPage(m0, virt, m.pool[0], flags, owner);
    Settled(m, tree, attempt, tree', k, virt, flags);
    assert attempt.1.Ok? <==> Supplies(m.pool[1..], TablesMissing(m.mem, m.root, Path(virt))) by {
      var t, l := MapPageRefines(m0, tree, virt, m.pool[0], flags, owner);
    }
  }

  lemma Settled(m: Mapper, tree: Tree, attempt: (Mapper, Result<(), MapError>), tree': Tree, k: nat, virt: nat, flags: Flags)
    requires MapperOk(m, tree) && m.pool != [] && SameWalks(m, m.(pool := m.pool[1..])) && Inv(attempt.0, tree')
    requires MapEffect(m.(pool := m.pool[1..]), tree, attempt.0, tree', k, virt, LeafOf(m.pool[0], flags), attempt.1)
    ensures var (m', r) := Settle(attempt, m.pool[0]);
            Inv(m', tree') && m'.root == m.root && NewPageEffect(m, tree, m', tree', k, virt, flags, r)
  {
    if attempt.1.Err? {
      var m' := attempt.0.(pool := [m.pool[0]] + attempt.0.pool);
      GiveBack(m.pool, tree, tree', k);
      SameTables(attempt.0, m');
      SameKeeps(attempt.0, m');
    }
  }

  lemma UnmapKeepsInv(m: Mapper, tree: Tree, virt: nat)
    requires Inv(m, tree)
    ensures Inv(UnmapPage(m, virt).0, tree)
  {
    UnmapPageRefines(m, tree, virt);
    if UnmapPage(m, virt).1.Ok? {
      GuardPages(virt);
      FoundTable(m, tree, virt);
      ClearedRecords(m, tree, virt);
    }
  }

  lemma FoundTable(m: Mapper, tree: Tree, virt: nat)
    requires MapperOk(m, tree) && UnmapPage(m, virt).1.Ok?
    ensures Path(virt)[..3] in tree && UnmapPage(m, virt).0 == Forget(Cleared(m, tree[Path(virt)[..3]], virt), virt)
  {
    assert Path(virt)[..0] == [] && Path(virt)[0..] == Path(virt);
    FindTableIs(m, tree, virt, 0);
  }

  lemma ClearedRecords(m: Mapper, tree: Tree, virt: nat)
    requires Inv(m, tree) && Aligned(virt) && Canonical(virt) && Path(virt)[..3] in tree
    ensures RecordsOk(Forget(Cleared(m, tree[Path(virt)[..3]], virt), virt))
  {
    UnmapTree(m, tree, virt);
    var m0 := m.(mem := SetEntry(m.mem, tree[Path(virt)[..3]], Index(virt, 3), NONE_ENTRY));
    var m1 := Cleared(m, tree[Path(virt)[..3]], virt);
    SameTables(m0, m1);
    RecordsAfterUnmap(m, m1, virt);
  }
}
