/** The mapper as the kernel runs it: tables edited through physical memory, records in an array. */
module Paging {
  import opened Common
  import opened PagingModel

  lemma PathTail(virt: nat)
    ensures Path(virt)[0] == Index(virt, 0) && Path(virt)[1..][0] == Index(virt, 1) && Path(virt)[1..][1..] == Path(virt)[2..]
    ensures |Path(virt)[1..]| == 3 && |Path(virt)[2..]| == 2
    ensures Path(virt)[2..][0] == Index(virt, 2) && Path(virt)[2..][1..] == [Index(virt, 3)]
  {
  }

  class MapperState {
    const root: nat
    const records: array<Record>
    var mem: Memory
    var pool: seq<nat>
    var overflows: nat
    var misses: nat
    var mapped: nat
    var unmapped: nat
    var tableFrames: nat

    ghost predicate Valid()
      reads this, records
    {
      records.Length == MAX_RECORDS
    }

    ghost function Model(): Mapper
      reads this, records
    {
      Mapper(root, mem, pool, records[..], overflows, misses, mapped, unmapped, tableFrames)
    }

    constructor (p4: nat, p3: nat, p2: nat, frames: seq<nat>)
      ensures Valid() && Model() == BootMapper(p4, p3, p2, frames) && fresh(records)
    {
      root, mem, pool := p4, BootMemory(p4, p3, p2), frames;
      records := new Record[MAX_RECORDS](_ => NO_RECORD);
      overflows, misses, mapped, unmapped, tableFrames := 0, 0, 0, 0, 0;
      new;
      assert records[..] == NoRecords();
    }

    // ---- records

    method FindRecord(virt: nat) returns (r: Option<nat>)
      requires Valid()
      ensures r == RecordOf(records[..], virt)
    {
      var i := 0;
      while i < records.Length
        invariant 0 <= i <= records.Length
        invariant forall k :: 0 <= k < i ==> !(records[..][k].active && records[..][k].virt == virt)
      {
        if records[i].active && records[i].virt == virt {
          return Some(i);
        }
        i := i + 1;
      }
      r := None;
    }

    method FindFree() returns (r: Option<nat>)
      requires Valid()
      ensures r == FreeRecord(records[..])
    {
      var i := 0;
      while i < records.Length
        invariant 0 <= i <= records.Length
        invariant forall k :: 0 <= k < i ==> records[..][k].active
      {
        if !records[i].active {
          return Some(i);
        }
        i := i + 1;
      }
      r := None;
    }

    method RecordMapping(virt: nat, phys: nat, flags: Flags, owner: Owner)
      requires Valid()
      modifies this`overflows, records
      ensures Valid() && Model() == PagingModel.RecordMapping(old(Model()), virt, phys, flags, owner)
    {
      var same := FindRecord(virt);
      if same.Some? {
        records[same.value] := records[same.value].(phys := phys, flags := flags, owner := owner);
        return;
      }
      var free := FindFree();
      if free.Some? {
        records[free.value] := Record(virt, phys, flags, owner, true);
        return;
      }
      overflows := overflows + 1;
    }

    method ForgetMapping(virt: nat) returns (removed: Option<Record>)
      requires Valid()
      modifies this`misses, records
      ensures Valid() && Model() == Forget(old(Model()), virt)
      ensures removed == match RecordOf(old(records[..]), virt) case None => None case Some(i) => Some(old(records[..])[i])
    {
      var same := FindRecord(virt);
      if same.Some? {
        removed := Some(records[same.value]);
        records[same.value] := NO_RECORD;
        return;
      }
      misses := misses + 1;
      removed := None;
    }

    // ---- tables

    method EnsureNextTable(frame: nat, i: nat, flags: Flags) returns (r: Result<nat, MapError>)
      requires Valid()
      modifies this`mem, this`pool, this`tableFrames
      ensures Valid() && Model() == EnsureNext(old(Model()), frame, i, flags).0
      ensures r == EnsureNext(old(Model()), frame, i, flags).1
    {
      var entry := EntryAt(mem, frame, i);
      if entry.present {
        if entry.huge {
          return Err(HugePageConflict);
        }
        mem := SetEntry(mem, frame, i, Widen(entry, flags));
        return if entry.addr < IDENTITY_BYTES then Ok(entry.addr) else Err(PhysicalNotIdentityMapped);
      }
      if pool == [] {
        return Err(OutOfFrames);
      }
      var next := pool[0];
      if next >= IDENTITY_BYTES {
        return Err(PhysicalNotIdentityMapped);
      }
      pool := pool[1..];
      mem := mem[next := ZeroTable()];
      mem := SetEntry(mem, frame, i, Entry(next, true, flags.writable, flags.user, false, false));
      tableFrames := tableFrames + 1;
      r := Ok(next);
    }

    /** The table part of a mapping: three levels of tables, then the page entry. */
    method EnterPage(virt: nat, phys: nat, flags: Flags) returns (r: Result<(), MapError>)
      requires Valid()
      modifies this`mem, this`pool, this`tableFrames
      ensures Valid() && Model() == MapFrom(old(Model()), root, Path(virt), phys, flags).0
      ensures r == MapFrom(old(Model()), root, Path(virt), phys, flags).1
    {
      PathTail(virt);
      var p3 := EnsureNextTable(root, Index(virt, 0), flags);
      if p3.Err? {
        return Err(p3.error);
      }
      var p2 := EnsureNextTable(p3.value, Index(virt, 1), flags);
      if p2.Err? {
        return Err(p2.error);
      }
      r := EnterBelow(p2.value, virt, phys, flags);
    }

    method EnterBelow(p2: nat, virt: nat, phys: nat, flags: Flags) returns (r: Result<(), MapError>)
      requires Valid()
      modifies this`mem, this`pool, this`tableFrames
      ensures Valid() && Model() == MapFrom(old(Model()), p2, Path(virt)[2..], phys, flags).0
      ensures r == MapFrom(old(Model()), p2, Path(virt)[2..], phys, flags).1
    {
      PathTail(virt);
      if EntryAt(mem, p2, Index(virt, 2)).huge {
        return Err(HugePageConflict);
      }
      var p1 := EnsureNextTable(p2, Index(virt, 2), flags);
      if p1.Err? {
        return Err(p1.error);
      }
      if EntryAt(mem, p1.value, Index(virt, 3)).present {
        return Err(AlreadyMapped);
      }
      mem := SetEntry(mem, p1.value, Index(virt, 3), LeafEntry(phys, flags));
      r := Ok(());
    }

    method MapPage(virt: nat, phys: nat, flags: Flags, owner: Owner) returns (r: Result<(), MapError>)
      requires Valid()
      modifies this, records
      ensures Valid() && Model() == PagingModel.MapPage(old(Model()), virt, phys, flags, owner).0
      ensures r == PagingModel.MapPage(old(Model()), virt, phys, flags, owner).1
    {
      if !Aligned(virt) {
        return Err(VirtualUnaligned);
      }
      if !Aligned(phys) {
        return Err(PhysicalUnaligned);
      }
      if !Mappable(virt, flags) {
        return Err(OutsideManagedRange);
      }
      if phys >= IDENTITY_BYTES {
        return Err(PhysicalNotIdentityMapped);
      }
      r := EnterPage(virt, phys, flags);
      if r.Ok? {
        mapped := mapped + 1;
        RecordMapping(virt, phys, flags, owner);
      }
    }

    method MapNewPage(virt: nat, flags: Flags, owner: Owner) returns (r: Result<nat, MapError>)
      requires Valid()
      modifies this, records
      ensures Valid() && Model() == PagingModel.MapNewPage(old(Model()), virt, flags, owner).0
      ensures r == PagingModel.MapNewPage(old(Model()), virt, flags, owner).1
    {
      if !Aligned(virt) {
        return Err(VirtualUnaligned);
      }
      if !Mappable(virt, flags) {
        return Err(OutsideManagedRange);
      }
      if Translate(mem, root, virt).mapped {
        return Err(AlreadyMapped);
      }
      if pool == [] {
        return Err(OutOfFrames);
      }
      if pool[0] >= IDENTITY_BYTES {
        return Err(PhysicalNotIdentityMapped);
      }
      var phys := pool[0];
      pool := pool[1..];
      assert Model() == old(Model()).(pool := old(Model()).pool[1..]);
      var attempt := MapPage(virt, phys, flags, owner);
      if attempt.Err? {
        pool := [phys] + pool;
        return Err(attempt.error);
      }
      r := Ok(phys);
    }

    method UnmapPage(virt: nat) returns (r: Result<nat, UnmapError>)
      requires Valid()
      modifies this, records
      ensures Valid() && Model() == PagingModel.UnmapPage(old(Model()), virt).0
      ensures r == PagingModel.UnmapPage(old(Model()), virt).1
    {
      if !Aligned(virt) {
        return Err(UnmapUnaligned);
      }
      if !InManaged(virt) && !InUser(virt) {
        return Err(UnmapOutside);
      }
      var p1 := FindTable(mem, root, Path(virt));
      if p1.Err? {
        return Err(p1.error);
      }
      var entry := EntryAt(mem, p1.value, Index(virt, 3));
      if !entry.present {
        return Err(NotMapped);
      }
      mem := SetEntry(mem, p1.value, Index(virt, 3), NONE_ENTRY);
      unmapped := unmapped + 1;
      var removed := ForgetMapping(virt);
      r := Ok(entry.addr);
    }

    // ---- the audit

    method PermissionAudit() returns (violations: nat)
      requires Valid()
      ensures violations == Violations(Model())
    {
      violations := 0;
      var checked, active := 0, 0;
      var i := 0;
      while i < records.Length
        invariant 0 <= i <= records.Length
        invariant violations == Mismatches(Model(), i) && checked == active
      {
        if records[i].active {
          checked, active := checked + 1, active + 1;
          if !RecordMatches(records[i], Translate(mem, root, records[i].virt)) {
            violations := violations + 1;
          }
        }
        i := i + 1;
      }
      if checked != active || overflows != 0 {
        violations := violations + 1;
      }
      if Translate(mem, root, HEAP_GUARD_LOW).mapped || Translate(mem, root, HEAP_GUARD_HIGH).mapped {
        violations := violations + 1;
      }
    }
  }
}
