/** What the mapper answers to every request, what it records, and what the audit counts in any state. */
module PagingAnswers {
  import opened Common
  import opened PagingModel
  import opened PagingTree
  import opened PagingLaws
  import opened PagingRefine
  import opened PagingRuns

  // ---- answers

  /** Addresses that may be mapped: 16 MiB of user pages from one gigabyte on, or the kernel's gigabyte without the two heap guards. */
  predicate MayMap(virt: nat, user: bool)
  {
    if user then 0x4000_0000 <= virt < 0x4100_0000
    else
      && 0xffff_8000_0000_0000 <= virt < 0xffff_8000_4000_0000
      && virt / 4096 != 0xffff_8000_0100_0000 / 4096 && virt / 4096 != 0xffff_8000_0101_1000 / 4096
  }

  lemma MayMapIs(virt: nat, flags: Flags)
    ensures Mappable(virt, flags) <==> MayMap(virt, flags.user)
  {
  }

  /** What decides once the addresses are in order: the page that is there, then the frames for missing tables. */
  ghost function Verdict(before: Option<Leaf>, supply: Supply): Option<MapError>
  {
    match before
    case Some(l) => Some(if l.huge then HugePageConflict else AlreadyMapped)
    case None => match supply case Enough => None case RunsOut => Some(OutOfFrames) case OutOfReach => Some(PhysicalNotIdentityMapped)
  }

  ghost function MapVerdict(m: Mapper, virt: nat, phys: nat, user: bool): Option<MapError>
  {
    if virt % 4096 != 0 then Some(VirtualUnaligned)
    else if phys % 4096 != 0 then Some(PhysicalUnaligned)
    else if !MayMap(virt, user) then Some(OutsideManagedRange)
    else if phys >= 0x4000_0000 then Some(PhysicalNotIdentityMapped)
    else Verdict(WalkAt(m, virt), SupplyFor(m.pool, TablesMissing(m.mem, m.root, Path(virt))))
  }

  /** A page is mapped, or refused for the first reason that applies. */
  lemma MapAnswer(m: Mapper, tree: Tree, virt: nat, phys: nat, flags: Flags, owner: Owner)
    requires MapperOk(m, tree)
    ensures MapPage(m, virt, phys, flags, owner).1
            == match MapVerdict(m, virt, phys, flags.user) case None => Ok(()) case Some(e) => Err(e)
  {
    MayMapIs(virt, flags);
    if Acceptable(virt, phys, flags) {
      var tree', k := MapPageRefines(m, tree, virt, phys, flags, owner);
      VerdictIs(WalkAt(m, virt), SupplyFor(m.pool, TablesMissing(m.mem, m.root, Path(virt))), MapPage(m, virt, phys, flags, owner).1);
    } else {
      MapRefused(m, virt, phys, flags, owner);
    }
  }

  lemma VerdictIs(before: Option<Leaf>, supply: Supply, r: Result<(), MapError>)
    requires MapResult(before, supply, r)
    ensures r == match Verdict(before, supply) case None => Ok(()) case Some(e) => Err(e)
  {
    if r.Ok? { assert r.value == (); }
  }

  lemma MapRefused(m: Mapper, virt: nat, phys: nat, flags: Flags, owner: Owner)
    requires !Acceptable(virt, phys, flags)
    ensures MapPage(m, virt, phys, flags, owner)
            == (m, Err(if virt % 4096 != 0 then VirtualUnaligned else if phys % 4096 != 0 then PhysicalUnaligned
                       else if !Mappable(virt, flags) then OutsideManagedRange else PhysicalNotIdentityMapped))
  {
  }

  ghost function NewVerdict(m: Mapper, virt: nat, user: bool): Option<MapError>
  {
    if virt % 4096 != 0 then Some(VirtualUnaligned)
    else if !MayMap(virt, user) then Some(OutsideManagedRange)
    else if WalkAt(m, virt).Some? then Some(AlreadyMapped)
    else Verdict(None, SupplyFor(m.pool, TablesMissing(m.mem, m.root, Path(virt)) + 1))
  }

  /** A new page is the next frame of the pool, or refused for the first reason that applies; the pool must also hold the tables. */
  lemma NewAnswer(m: Mapper, tree: Tree, virt: nat, flags: Flags, owner: Owner)
    requires Inv(m, tree)
    ensures match NewVerdict(m, virt, flags.user)
            case None => m.pool != [] && MapNewPage(m, virt, flags, owner).1 == Ok(m.pool[0])
            case Some(e) => MapNewPage(m, virt, flags, owner).1 == Err(e)
  {
    MayMapIs(virt, flags);
    SupplyStep(m.pool, TablesMissing(m.mem, m.root, Path(virt)));
    if Aligned(virt) && Mappable(virt, flags) && WalkAt(m, virt).None? && m.pool != [] && m.pool[0] < IDENTITY_BYTES {
      var m0 := m.(pool := m.pool[1..]);
      TakeFirst(m, tree);
      assert Aligned(m.pool[0]);
      MapAnswer(m0, tree, virt, m.pool[0], flags, owner);
      NewIsMap(m, virt, flags, owner);
      assert WalkAt(m0, virt) == WalkAt(m, virt);
    }
  }

  lemma NewIsMap(m: Mapper, virt: nat, flags: Flags, owner: Owner)
    requires Aligned(virt) && Mappable(virt, flags) && WalkAt(m, virt).None? && m.pool != [] && m.pool[0] < IDENTITY_BYTES
    ensures var r := MapPage(m.(pool := m.pool[1..]), virt, m.pool[0], flags, owner).1;
            MapNewPage(m, virt, flags, owner).1 == if r.Ok? then Ok(m.pool[0]) else Err(r.error)
  {
  }

  /** Unmapping returns the frame that was mapped, or says why not; huge pages and foreign addresses are never unmapped. */
  lemma UnmapAnswer(m: Mapper, tree: Tree, virt: nat)
    requires MapperOk(m, tree)
    ensures UnmapPage(m, virt).1
            == if virt % 4096 != 0 then Err(UnmapUnaligned)
               else if !(0x4000_0000 <= virt < 0x4100_0000) && !(0xffff_8000_0000_0000 <= virt < 0xffff_8000_4000_0000) then Err(UnmapOutside)
               else match WalkAt(m, virt) case None => Err(NotMapped) case Some(l) => if l.huge then Err(UnmapHuge) else Ok(l.frame)
  {
    UnmapPageRefines(m, tree, virt);
    if Aligned(virt) && (InManaged(virt) || InUser(virt)) {
      assert Path(virt)[..0] == [] && Path(virt)[0..] == Path(virt);
      FindTableIs(m, tree, virt, 0);
      WalkRoot(m.mem, m.root, tree, virt);
    }
  }

  // ---- records

  /** A mapping is written over its old record, else into a free one, else it is only counted as an overflow. */
  lemma RecordAnswer(m: Mapper, virt: nat, phys: nat, flags: Flags, owner: Owner)
    ensures var m' := RecordMapping(m, virt, phys, flags, owner);
            && m' == m.(records := m'.records, overflows := m'.overflows) && |m'.records| == |m.records|
            && (if forall i :: 0 <= i < |m.records| ==> m.records[i].active && m.records[i].virt != virt
                then m'.records == m.records && m'.overflows == m.overflows + 1
                else m'.overflows == m.overflows && RecordPut(m.records, m'.records, virt, Record(virt, phys, flags, owner, true)))
  {
    match RecordOf(m.records, virt)
    case Some(i) => assert PutAt(m.records, RecordMapping(m, virt, phys, flags, owner).records, i, Record(virt, phys, flags, owner, true));
    case None =>
      var free := FreeRecord(m.records);
      if free.Some? { assert PutAt(m.records, RecordMapping(m, virt, phys, flags, owner).records, free.value, Record(virt, phys, flags, owner, true)); }
  }

  ghost predicate PutAt(before: seq<Record>, after: seq<Record>, i: nat, r: Record) { i < |before| && after == before[i := r] }

  /** Exactly one record changes: the one of that page if there is one, else one that was free. */
  ghost predicate RecordPut(before: seq<Record>, after: seq<Record>, virt: nat, r: Record)
  {
    exists i: nat ::
      && PutAt(before, after, i, r)
      && (if exists j :: 0 <= j < |before| && before[j].active && before[j].virt == virt then before[i].active && before[i].virt == virt
          else !before[i].active)
  }

  // ---- the audit

  /** The record tells the truth: frame, size and rights of its page are what the tables say, and the page is on its side. */
  ghost predicate Truthful(m: Mapper, r: Record)
  {
    match WalkAt(m, r.virt)
    case None => false
    case Some(l) =>
      && !l.huge && l.frame + r.virt % 4096 == r.phys
      && l.user == r.flags.user && l.writable == r.flags.writable && l.executable == !r.flags.noExecute
      && (if r.owner == UserPage then 0x4000_0000 <= r.virt < 0x4100_0000 && l.user
          else 0xffff_8000_0000_0000 <= r.virt < 0xffff_8000_4000_0000 && !l.user)
  }

  ghost function Liars(m: Mapper, n: nat): set<int>
    requires n <= |m.records|
  {
    set i | 0 <= i < n && m.records[i].active && !Truthful(m, m.records[i])
  }

  lemma TruthfulIs(m: Mapper, r: Record)
    ensures RecordMatches(r, Translate(m.mem, m.root, r.virt)) <==> Truthful(m, r)
  {
  }

  lemma {:induction false} LiarsCount(m: Mapper, n: nat)
    requires n <= |m.records|
    ensures Mismatches(m, n) == |Liars(m, n)|
  {
    if n > 0 {
      LiarsCount(m, n - 1);
      TruthfulIs(m, m.records[n - 1]);
      assert Liars(m, n)
             == Liars(m, n - 1) + (if m.records[n - 1].active && !Truthful(m, m.records[n - 1]) then {n - 1} else {});
    }
  }

  /** In any state, sound or not: the audit counts the active records that do not tell the truth, one for lost records, one for a mapped guard. */
  lemma AuditAnswer(m: Mapper)
    ensures Violations(m)
            == |Liars(m, |m.records|)| + (if m.overflows > 0 then 1 else 0)
               + (if WalkAt(m, 0xffff_8000_0100_0000).Some? || WalkAt(m, 0xffff_8000_0101_1000).Some? then 1 else 0)
  {
    LiarsCount(m, |m.records|);
  }
}
