/** What mapping and unmapping do to translations, to the record table and to the frame pool. */
module PagingRefine {
  import opened Common
  import opened PagingModel
  import opened PagingTree
  import opened PagingLaws

  function WalkAt(m: Mapper, va: nat): Option<Leaf> { Walk(m.mem, m.root, Path(va)) }

  function LeafOf(phys: nat, flags: Flags): Leaf { Leaf(phys, false, flags.user, flags.writable, !flags.noExecute) }

  /** The first `k` frames of the pool became tables and nothing else was taken. */
  ghost predicate FramesMoved(m: Mapper, tree: Tree, m': Mapper, tree': Tree, k: nat)
  {
    k <= |m.pool| && m'.pool == m.pool[k..] && tree'.Values == tree.Values + Elements(m.pool[..k])
  }

  predicate Acceptable(virt: nat, phys: nat, flags: Flags)
  {
    Aligned(virt) && Aligned(phys) && Mappable(virt, flags) && phys < IDENTITY_BYTES
  }

  ghost predicate SameWalks(m: Mapper, m': Mapper) { forall va :: WalkAt(m', va) == WalkAt(m, va) }

  /** Exactly the page of `virt` changed, and now translates to `leaf`. */
  ghost predicate PageChanged(m: Mapper, m': Mapper, virt: nat, leaf: Option<Leaf>)
  {
    forall va :: Canonical(va) ==> WalkAt(m', va) == if PageOf(va) == PageOf(virt) then leaf else WalkAt(m, va)
  }

  // ---- mapping

  /** The tree part of a mapping, in terms of translations. */
  lemma MapTree(m: Mapper, tree: Tree, virt: nat, phys: nat, flags: Flags) returns (tree': Tree, k: nat)
    requires MapperOk(m, tree) && Canonical(virt)
    ensures var (m', r) := MapFrom(m, m.root, Path(virt), phys, flags);
            && Grown(m, tree, m', tree', k)
            && (if r.Ok? then PageChanged(m, m', virt, Some(LeafOf(phys, flags))) else SameWalks(m, m'))
            && MapResult(WalkAt(m, virt), SupplyFor(m.pool, TablesMissing(m.mem, m.root, Path(virt))), r)
  {
    assert Path(virt)[..0] == [] && Path(virt)[0..] == Path(virt);
    tree', k := MapFromOk(m, tree, virt, 0, phys, flags);
    var (m', r) := MapFrom(m, m.root, Path(virt), phys, flags);
    MissingIsIn(m.mem, m.root, tree, virt, 0);
    WalkRoot(m.mem, m.root, tree, virt);
    OutcomeWalks(m, tree, m', tree', virt, phys, flags, r);
  }

  lemma OutcomeWalks(m: Mapper, tree: Tree, m': Mapper, tree': Tree, virt: nat, phys: nat, flags: Flags, r: Result<(), MapError>)
    requires MapperOk(m, tree) && MapperOk(m', tree') && m'.root == m.root && Canonical(virt)
    requires MapOutcome(m, tree, m', tree', virt, phys, flags, r)
    ensures if r.Ok? then PageChanged(m, m', virt, Some(LeafOf(phys, flags))) else SameWalks(m, m')
  {
    forall va ensures WalkAt(m, va) == LeafAt(m.mem, tree, Path(va)) && WalkAt(m', va) == LeafAt(m'.mem, tree', Path(va)) {
      WalkRoot(m.mem, m.root, tree, va);
      WalkRoot(m'.mem, m.root, tree', va);
    }
    forall va | Canonical(va) ensures Path(va) == Path(virt) <==> PageOf(va) == PageOf(virt) { PathIsPage(va, virt); }
  }

  lemma RecordingKeeps(m: Mapper, virt: nat, phys: nat, flags: Flags, owner: Owner)
    ensures var m' := RecordMapping(m, virt, phys, flags, owner);
            m'.mem == m.mem && m'.root == m.root && m'.pool == m.pool
  {
  }

  lemma MappableCanonical(virt: nat, flags: Flags)
    requires Mappable(virt, flags)
    ensures Canonical(virt)
  {
  }

  /** The whole effect of one mapping attempt on translations, tables and frames. */
  ghost predicate MapEffect(m: Mapper, tree: Tree, m': Mapper, tree': Tree, k: nat, virt: nat, leaf: Leaf, r: Result<(), MapError>)
  {
    && MapperOk(m', tree') && m'.root == m.root && FramesMoved(m, tree, m', tree', k)
    && (if r.Ok? then PageChanged(m, m', virt, Some(leaf)) else SameWalks(m, m'))
    && (r.Err? ==> m'.records == m.records && m'.overflows == m.overflows)
  }

  /** Translations depend on the tables alone. */
  lemma SameTables(m: Mapper, m': Mapper)
    requires m'.mem == m.mem && m'.root == m.root
    ensures SameWalks(m, m')
  {
  }

  lemma WithRecordShape(attempt: (Mapper, Result<(), MapError>), virt: nat, phys: nat, flags: Flags, owner: Owner)
    ensures var (m', r) := WithRecord(attempt, virt, phys, flags, owner);
            && r == attempt.1 && m'.mem == attempt.0.mem && m'.pool == attempt.0.pool && m'.root == attempt.0.root
            && (r.Err? ==> m' == attempt.0)
  {
    RecordingKeeps(attempt.0.(mapped := attempt.0.mapped + 1), virt, phys, flags, owner);
  }

  lemma MapAcceptable(m: Mapper, tree: Tree, virt: nat, phys: nat, flags: Flags, owner: Owner) returns (tree': Tree, k: nat)
    requires MapperOk(m, tree) && Acceptable(virt, phys, flags)
    ensures var (m', r) := MapPage(m, virt, phys, flags, owner);
            && MapEffect(m, tree, m', tree', k, virt, LeafOf(phys, flags), r)
            && MapResult(WalkAt(m, virt), SupplyFor(m.pool, TablesMissing(m.mem, m.root, Path(virt))), r)
  {
    MappableCanonical(virt, flags);
    tree', k := MapTree(m, tree, virt, phys, flags);
    var attempt := MapFrom(m, m.root, Path(virt), phys, flags);
    WithRecordShape(attempt, virt, phys, flags, owner);
    var (m', r) := WithRecord(attempt, virt, phys, flags, owner);
    SameTables(attempt.0, m');
    CarryEffect(m, tree, attempt.0, m', tree', k, virt, LeafOf(phys, flags), r);
  }

  lemma CarryEffect(m: Mapper, tree: Tree, m1: Mapper, m': Mapper, tree': Tree, k: nat, virt: nat, leaf: Leaf, r: Result<(), MapError>)
    requires Grown(m, tree, m1, tree', k) && (if r.Ok? then PageChanged(m, m1, virt, Some(leaf)) else SameWalks(m, m1))
    requires m'.mem == m1.mem && m'.pool == m1.pool && m'.root == m1.root && SameWalks(m1, m') && (r.Err? ==> m' == m1)
    ensures MapEffect(m, tree, m', tree', k, virt, leaf, r)
  {
  }

  /**
   Mapping a page: on success exactly that page translates to the requested frame and
   permissions; on failure no translation changes. It succeeds exactly when the request is
   acceptable, the page is not mapped, and the allocator can supply the missing tables.
   */
  lemma MapPageRefines(m: Mapper, tree: Tree, virt: nat, phys: nat, flags: Flags, owner: Owner) returns (tree': Tree, k: nat)
    requires MapperOk(m, tree)
    ensures var (m', r) := MapPage(m, virt, phys, flags, owner);
            && MapEffect(m, tree, m', tree', k, virt, LeafOf(phys, flags), r)
            && (r.Ok? ==> Acceptable(virt, phys, flags))
            && (Acceptable(virt, phys, flags) ==>
                  MapResult(WalkAt(m, virt), SupplyFor(m.pool, TablesMissing(m.mem, m.root, Path(virt))), r))
  {
    if Acceptable(virt, phys, flags) {
      tree', k := MapAcceptable(m, tree, virt, phys, flags, owner);
    } else {
      tree', k := tree, 0;
      assert Elements(m.pool[..0]) == {};
    }
  }

  // ---- unmapping

  lemma {:induction false} FindTableIs(m: Mapper, tree: Tree, virt: nat, level: nat)
    requires MapperOk(m, tree) && level <= 3 && Path(virt)[..level] in tree
    ensures var r := FindTable(m.mem, tree[Path(virt)[..level]], Path(virt)[level..]);
            && (Path(virt)[..3] in tree ==> r == Ok(tree[Path(virt)[..3]]))
            && (Path(virt)[..3] !in tree ==>
                  r == Err(if LeafAt(m.mem, tree, Path(virt)).Some? then UnmapHuge else NotMapped))
    decreases 3 - level
  {
    if level < 3 {
      PathStep(virt, level);
      assert EntryOk(m.mem, tree, Path(virt)[..level], Index(virt, level));
      if Path(virt)[..level + 1] in tree {
        FindTableIs(m, tree, virt, level + 1);
      } else {
        NoDeeper(m.mem, m.root, tree, virt, level);
      }
    }
  }

  lemma ForgettingKeeps(m: Mapper, virt: nat)
    ensures Forget(m, virt).mem == m.mem && Forget(m, virt).root == m.root && Forget(m, virt).pool == m.pool
  {
  }

  /**
   Unmapping a page: it succeeds exactly on an aligned, managed address mapped by a 4 KiB page,
   returns that page's frame and makes exactly that page unmapped; a refusal changes nothing.
   */
  lemma UnmapPageRefines(m: Mapper, tree: Tree, virt: nat)
    requires MapperOk(m, tree)
    ensures var (m', r) := UnmapPage(m, virt);
            && MapperOk(m', tree) && m'.root == m.root && m'.pool == m.pool
            && (r.Ok? <==> Aligned(virt) && (InManaged(virt) || InUser(virt)) && WalkAt(m, virt).Some? && !WalkAt(m, virt).value.huge)
            && (r.Ok? ==> r.value == WalkAt(m, virt).value.frame && PageChanged(m, m', virt, None))
            && (r.Err? ==> m' == m && r.error != TableNotReachable)
  {
    if Aligned(virt) && (InManaged(virt) || InUser(virt)) {
      assert Path(virt)[..0] == [] && Path(virt)[0..] == Path(virt);
      FindTableIs(m, tree, virt, 0);
      WalkRoot(m.mem, m.root, tree, virt);
      PathStep(virt, 3);
      if Path(virt)[..3] in tree && EntryAt(m.mem, tree[Path(virt)[..3]], Index(virt, 3)).present { UnmapTree(m, tree, virt); }
    }
  }

  lemma UnmapTree(m: Mapper, tree: Tree, virt: nat)
    requires MapperOk(m, tree) && Canonical(virt) && Path(virt)[..3] in tree
    ensures var mem' := SetEntry(m.mem, tree[Path(virt)[..3]], Index(virt, 3), NONE_ENTRY);
            TreeOk(mem', m.root, tree) && PageChanged(m, m.(mem := mem'), virt, None)
  {
    var p, i := Path(virt)[..3], Index(virt, 3);
    PathStep(virt, 3);
    assert Child(p, i) == Path(virt);
    LeafOk(m.mem, m.root, tree, p, i, NONE_ENTRY);
    var m' := m.(mem := SetEntry(m.mem, tree[p], i, NONE_ENTRY));
    forall va | Canonical(va) ensures WalkAt(m', va) == if PageOf(va) == PageOf(virt) then None else WalkAt(m, va) {
      WalkRoot(m.mem, m.root, tree, va);
      WalkRoot(m'.mem, m.root, tree, va);
      PathIsPage(va, virt);
    }
  }

  // ---- records

  ghost predicate RecordOk(m: Mapper, r: Record)
  {
    && Aligned(r.virt) && Mappable(r.virt, r.flags) && (r.owner.UserPage? <==> r.flags.user)
    && WalkAt(m, r.virt) == Some(LeafOf(r.phys, r.flags))
  }

  ghost predicate Recorded(records: seq<Record>, page: nat)
  {
    exists i :: 0 <= i < |records| && records[i].active && PageOf(records[i].virt) == page
  }

  /** Records describe mapped pages, each page once, and all of them unless the table overflowed. */
  ghost predicate RecordsOk(m: Mapper)
  {
    && |m.records| == MAX_RECORDS
    && (forall i :: 0 <= i < |m.records| && m.records[i].active ==> RecordOk(m, m.records[i]))
    && (forall i, j :: 0 <= i < j < |m.records| && m.records[i].active && m.records[j].active ==> m.records[i].virt != m.records[j].virt)
    && (m.overflows == 0 ==> forall va :: Canonical(va) && WalkAt(m, va).Some? && !WalkAt(m, va).value.huge ==> Recorded(m.records, PageOf(va)))
  }

  ghost predicate GuardsClear(m: Mapper) { WalkAt(m, HEAP_GUARD_LOW).None? && WalkAt(m, HEAP_GUARD_HIGH).None? }

  ghost predicate Inv(m: Mapper, tree: Tree) { MapperOk(m, tree) && RecordsOk(m) && GuardsClear(m) }

  /** Two aligned canonical addresses in one page are equal. */
  lemma AlignedPage(va: nat, vb: nat)
    requires Aligned(va) && Aligned(vb)
    ensures va == vb <==> PageOf(va) == PageOf(vb)
  {
  }

  lemma RecordsAfterMap(m: Mapper, m1: Mapper, virt: nat, phys: nat, flags: Flags, owner: Owner)
    requires RecordsOk(m) && m1.records == m.records && m1.overflows == m.overflows
    requires Aligned(virt) && Mappable(virt, flags) && (owner.UserPage? <==> flags.user) && WalkAt(m, virt).None?
    requires PageChanged(m, m1, virt, Some(LeafOf(phys, flags)))
    ensures RecordsOk(RecordMapping(m1, virt, phys, flags, owner))
  {
    var m' := RecordMapping(m1, virt, phys, flags, owner);
    RecordingKeeps(m1, virt, phys, flags, owner);
    assert RecordOf(m.records, virt).None?;
    forall i | 0 <= i < |m.records| && m.records[i].active ensures RecordOk(m1, m.records[i]) && m.records[i].virt != virt {
      assert RecordOk(m, m.records[i]);
      MappableCanonical(m.records[i].virt, m.records[i].flags);
      AlignedPage(m.records[i].virt, virt);
    }
    MappableCanonical(virt, flags);
    var free := FreeRecord(m.records);
    if free.Some? {
      forall va | Canonical(va) && m.overflows == 0 && WalkAt(m1, va).Some? && !WalkAt(m1, va).value.huge
        ensures Recorded(m'.records, PageOf(va))
      {
        if PageOf(va) == PageOf(virt) {
          assert m'.records[free.value].virt == virt;
        } else {
          var i :| 0 <= i < |m.records| && m.records[i].active && PageOf(m.records[i].virt) == PageOf(va);
          assert m'.records[i] == m.records[i];
        }
      }
    }
  }

  lemma RecordsAfterUnmap(m: Mapper, m1: Mapper, virt: nat)
    requires RecordsOk(m) && m1.records == m.records && m1.overflows == m.overflows && Aligned(virt)
    requires PageChanged(m, m1, virt, None)
    ensures RecordsOk(Forget(m1, virt))
  {
    var m' := Forget(m1, virt);
    ForgettingKeeps(m1, virt);
    forall i | 0 <= i < |m'.records| && m'.records[i].active ensures RecordOk(m', m'.records[i]) {
      assert m'.records[i] == m.records[i] && RecordOk(m, m.records[i]);
      MappableCanonical(m.records[i].virt, m.records[i].flags);
      AlignedPage(m.records[i].virt, virt);
    }
    forall va | Canonical(va) && m.overflows == 0 && WalkAt(m1, va).Some? && !WalkAt(m1, va).value.huge
      ensures Recorded(m'.records, PageOf(va))
    {
      var i :| 0 <= i < |m.records| && m.records[i].active && PageOf(m.records[i].virt) == PageOf(va);
      assert m'.records[i] == m.records[i];
    }
  }

  // ---- the audit

  lemma {:induction false} NoMismatches(m: Mapper, n: nat)
    requires RecordsOk(m) && n <= |m.records|
    ensures Mismatches(m, n) == 0
  {
    if n > 0 {
      NoMismatches(m, n - 1);
      if m.records[n - 1].active { assert RecordOk(m, m.records[n - 1]); }
    }
  }

  /** The audit finds nothing, unless the record table overflowed: then it says exactly that. */
  lemma AuditExact(m: Mapper, tree: Tree)
    requires Inv(m, tree)
    ensures Violations(m) == if m.overflows == 0 then 0 else 1
  {
    NoMismatches(m, |m.records|);
  }
}
