/**
 Four-level page tables over physical memory, the mapper that edits them, and its record table.
 A frame that holds a table is a sequence of 512 entries; an entry is a record of the bits the
 kernel uses, and module PageEntry relates that record to the 64-bit word.
 */
module PagingModel {
  import opened Common

  const PAGE: nat := 4096
  const HUGE_PAGE: nat := 0x20_0000
  const IDENTITY_BYTES: nat := 0x4000_0000
  const TABLE_ENTRIES: nat := 512
  const KERNEL_BASE: nat := 0xffff_8000_0000_0000
  const KERNEL_END: nat := KERNEL_BASE + 0x4000_0000
  const HEAP_GUARD_LOW: nat := KERNEL_BASE + 0x0100_0000
  const HEAP_GUARD_HIGH: nat := HEAP_GUARD_LOW + PAGE + 0x1_0000
  const USER_BASE: nat := IDENTITY_BYTES
  const USER_END: nat := USER_BASE + 0x0100_0000
  const MAX_RECORDS: nat := 128

  // ---- entries and tables

  datatype Entry = Entry(addr: nat, present: bool, writable: bool, user: bool, huge: bool, noExecute: bool)

  const NONE_ENTRY := Entry(0, false, false, false, false, false)

  /** The flag bits of a mapping request; the present bit is always among them. */
  datatype Flags = Flags(writable: bool, user: bool, noExecute: bool)

  type Memory = map<nat, seq<Entry>>

  function ZeroTable(): (t: seq<Entry>)
    ensures |t| == TABLE_ENTRIES && forall i :: 0 <= i < TABLE_ENTRIES ==> t[i] == NONE_ENTRY
  {
    seq(TABLE_ENTRIES, _ => NONE_ENTRY)
  }

  function EntryAt(mem: Memory, frame: nat, i: nat): Entry
  {
    if frame in mem && i < |mem[frame]| then mem[frame][i] else NONE_ENTRY
  }

  function SetEntry(mem: Memory, frame: nat, i: nat, e: Entry): Memory
  {
    if frame in mem && i < |mem[frame]| then mem[frame := mem[frame][i := e]] else mem
  }

  // ---- addresses

  /** Size of the region one entry covers at a level; level 0 is the root. */
  function Span(level: nat): (r: nat)
    ensures r > 0
  {
    if level == 0 then 0x80_0000_0000 else if level == 1 then 0x4000_0000 else if level == 2 then HUGE_PAGE else PAGE
  }

  function Index(va: nat, level: nat): (i: nat)
    ensures i < TABLE_ENTRIES
  {
    va / Span(level) % TABLE_ENTRIES
  }

  /** The four indices that select the page of `va`. */
  function Path(va: nat): (path: seq<nat>)
    ensures |path| == 4
  {
    [Index(va, 0), Index(va, 1), Index(va, 2), Index(va, 3)]
  }

  predicate Canonical(va: nat) { va < 0x8000_0000_0000 || KERNEL_BASE <= va < 0x1_0000_0000_0000_0000 }

  function PageOf(va: nat): nat { va / PAGE }

  predicate Aligned(a: nat) { a % PAGE == 0 }

  predicate InManaged(va: nat) { KERNEL_BASE <= va < KERNEL_END }

  predicate InUser(va: nat) { USER_BASE <= va < USER_END }

  predicate InPage(va: nat, start: nat) { start <= va < start + PAGE }

  predicate IsGuard(va: nat) { InPage(va, HEAP_GUARD_LOW) || InPage(va, HEAP_GUARD_HIGH) }

  predicate Mappable(va: nat, flags: Flags)
  {
    if flags.user then InUser(va) else InManaged(va) && !IsGuard(va)
  }

  // ---- translation

  datatype Leaf = Leaf(frame: nat, huge: bool, user: bool, writable: bool, executable: bool)

  function PageLeaf(e: Entry): Leaf { Leaf(e.addr, false, e.user, e.writable, !e.noExecute) }

  function HugeLeaf(e: Entry): Leaf { Leaf(e.addr - e.addr % HUGE_PAGE, true, e.user, e.writable, !e.noExecute) }

  /** A page is only as accessible as every entry on the way to it. */
  function Restrict(l: Leaf, e: Entry): Leaf
  {
    l.(user := l.user && e.user, writable := l.writable && e.writable, executable := l.executable && !e.noExecute)
  }

  /** Follows `path` from the table in `frame`: four indices from the root, fewer further down. */
  function Walk(mem: Memory, frame: nat, path: seq<nat>): Option<Leaf>
    requires path != []
    decreases |path|
  {
    var e := EntryAt(mem, frame, path[0]);
    if !e.present then None
    else if |path| == 1 then Some(PageLeaf(e))
    else if |path| == 2 && e.huge then Some(HugeLeaf(e))
    else if e.addr >= IDENTITY_BYTES then None
    else
      match Walk(mem, e.addr, path[1..])
      case None => None
      case Some(l) => Some(Restrict(l, e))
  }

  datatype Translation = Translation(
    virt: nat, phys: nat, mapped: bool, huge: bool, user: bool, writable: bool, executable: bool, pageSize: nat)

  function Translated(va: nat, leaf: Option<Leaf>): Translation
  {
    match leaf
    case None => Translation(va, 0, false, false, false, false, false, 0)
    case Some(l) =>
      var size := if l.huge then HUGE_PAGE else PAGE;
      Translation(va, l.frame + va % size, true, l.huge, l.user, l.writable, l.executable, size)
  }

  function Translate(mem: Memory, root: nat, va: nat): Translation { Translated(va, Walk(mem, root, Path(va))) }

  // ---- the mapper

  datatype Owner = KernelPage | HeapPage | UserPage | TestPage

  datatype Record = Record(virt: nat, phys: nat, flags: Flags, owner: Owner, active: bool)

  const NO_RECORD := Record(0, 0, Flags(false, false, false), KernelPage, false)

  /** `pool` lists the frames the allocator will hand out, next one first. */
  datatype Mapper = Mapper(
    root: nat, mem: Memory, pool: seq<nat>, records: seq<Record>,
    overflows: nat, misses: nat, mapped: nat, unmapped: nat, tableFrames: nat)

  datatype MapError =
    | VirtualUnaligned | PhysicalUnaligned | OutsideManagedRange | PhysicalNotIdentityMapped
    | AlreadyMapped | HugePageConflict | OutOfFrames

  datatype UnmapError = UnmapUnaligned | UnmapOutside | NotMapped | UnmapHuge | TableNotReachable

  function Widen(e: Entry, flags: Flags): Entry
  {
    e.(writable := e.writable || flags.writable, user := e.user || flags.user)
  }

  /** The table below entry `i` of `frame`, created if absent, with the entry opened up for `flags`. */
  function EnsureNext(m: Mapper, frame: nat, i: nat, flags: Flags): (Mapper, Result<nat, MapError>)
  {
    var e := EntryAt(m.mem, frame, i);
    if e.present then
      if e.huge then (m, Err(HugePageConflict))
      else
        (m.(mem := SetEntry(m.mem, frame, i, Widen(e, flags))),
         if e.addr < IDENTITY_BYTES then Ok(e.addr) else Err(PhysicalNotIdentityMapped))
    else if m.pool == [] then (m, Err(OutOfFrames))
    else if m.pool[0] >= IDENTITY_BYTES then (m, Err(PhysicalNotIdentityMapped))
    else
      (m.(mem := SetEntry(m.mem[m.pool[0] := ZeroTable()], frame, i,
                          Entry(m.pool[0], true, flags.writable, flags.user, false, false)),
          pool := m.pool[1..], tableFrames := m.tableFrames + 1),
       Ok(m.pool[0]))
  }

  function LeafEntry(phys: nat, flags: Flags): Entry
  {
    Entry(phys, true, flags.writable, flags.user, false, flags.noExecute)
  }

  function MapFrom(m: Mapper, frame: nat, path: seq<nat>, phys: nat, flags: Flags): (Mapper, Result<(), MapError>)
    requires path != []
    decreases |path|
  {
    var i := path[0];
    if |path| == 1 then
      if EntryAt(m.mem, frame, i).present then (m, Err(AlreadyMapped))
      else (m.(mem := SetEntry(m.mem, frame, i, LeafEntry(phys, flags))), Ok(()))
    else if |path| == 2 && EntryAt(m.mem, frame, i).huge then (m, Err(HugePageConflict))
    else
      match EnsureNext(m, frame, i, flags)
      case (m1, Err(e)) => (m1, Err(e))
      case (m1, Ok(next)) => MapFrom(m1, next, path[1..], phys, flags)
  }

  function MapPage(m: Mapper, virt: nat, phys: nat, flags: Flags, owner: Owner): (Mapper, Result<(), MapError>)
  {
    if !Aligned(virt) then (m, Err(VirtualUnaligned))
    else if !Aligned(phys) then (m, Err(PhysicalUnaligned))
    else if !Mappable(virt, flags) then (m, Err(OutsideManagedRange))
    else if phys >= IDENTITY_BYTES then (m, Err(PhysicalNotIdentityMapped))
    else WithRecord(MapFrom(m, m.root, Path(virt), phys, flags), virt, phys, flags, owner)
  }

  /** A page just entered in the tables is counted and recorded. */
  function WithRecord(
    attempt: (Mapper, Result<(), MapError>), virt: nat, phys: nat, flags: Flags, owner: Owner): (Mapper, Result<(), MapError>)
  {
    if attempt.1.Err? then attempt
    else (RecordMapping(attempt.0.(mapped := attempt.0.mapped + 1), virt, phys, flags, owner), attempt.1)
  }

  /** Takes a frame from the allocator, maps it, and gives it back if the mapping fails. */
  function MapNewPage(m: Mapper, virt: nat, flags: Flags, owner: Owner): (Mapper, Result<nat, MapError>)
  {
    if !Aligned(virt) then (m, Err(VirtualUnaligned))
    else if !Mappable(virt, flags) then (m, Err(OutsideManagedRange))
    else if Translate(m.mem, m.root, virt).mapped then (m, Err(AlreadyMapped))
    else if m.pool == [] then (m, Err(OutOfFrames))
    else if m.pool[0] >= IDENTITY_BYTES then (m, Err(PhysicalNotIdentityMapped))
    else Settle(MapPage(m.(pool := m.pool[1..]), virt, m.pool[0], flags, owner), m.pool[0])
  }

  /** Reports the new frame, or returns it to the allocator if it could not be mapped. */
  function Settle(attempt: (Mapper, Result<(), MapError>), phys: nat): (Mapper, Result<nat, MapError>)
  {
    if attempt.1.Ok? then (attempt.0, Ok(phys))
    else (attempt.0.(pool := [phys] + attempt.0.pool), Err(attempt.1.error))
  }

  function UnmapPage(m: Mapper, virt: nat): (Mapper, Result<nat, UnmapError>)
  {
    if !Aligned(virt) then (m, Err(UnmapUnaligned))
    else if !InManaged(virt) && !InUser(virt) then (m, Err(UnmapOutside))
    else
      match FindTable(m.mem, m.root, Path(virt))
      case Err(e) => (m, Err(e))
      case Ok(p1) =>
        var e := EntryAt(m.mem, p1, Index(virt, 3));
        if !e.present then (m, Err(NotMapped)) else (Forget(Cleared(m, p1, virt), virt), Ok(e.addr))
  }

  function Cleared(m: Mapper, p1: nat, virt: nat): Mapper
  {
    m.(mem := SetEntry(m.mem, p1, Index(virt, 3), NONE_ENTRY), unmapped := m.unmapped + 1)
  }

  /** The last-level table at the end of `path`. */
  function FindTable(mem: Memory, frame: nat, path: seq<nat>): Result<nat, UnmapError>
    requires path != []
    decreases |path|
  {
    if |path| == 1 then Ok(frame)
    else
      var e := EntryAt(mem, frame, path[0]);
      if |path| == 2 && e.huge then Err(UnmapHuge)
      else if !e.present then Err(NotMapped)
      else if e.addr >= IDENTITY_BYTES then Err(TableNotReachable)
      else FindTable(mem, e.addr, path[1..])
  }

  /** Tables that would have to be created to map the page at the end of `path`. */
  function TablesMissing(mem: Memory, frame: nat, path: seq<nat>): nat
    requires path != []
    decreases |path|
  {
    if |path| == 1 then 0
    else
      var e := EntryAt(mem, frame, path[0]);
      if e.present && !e.huge then TablesMissing(mem, e.addr, path[1..]) else |path| - 1
  }

  /** The next `n` frames exist and can be reached by the kernel. */
  predicate Supplies(pool: seq<nat>, n: nat)
  {
    n <= |pool| && forall k :: 0 <= k < n ==> pool[k] < IDENTITY_BYTES
  }

  // ---- records

  function RecordOf(records: seq<Record>, virt: nat): (r: Option<nat>)
    ensures r.Some? ==> r.value < |records| && records[r.value].active && records[r.value].virt == virt
    ensures r.None? ==> forall i :: 0 <= i < |records| ==> !(records[i].active && records[i].virt == virt)
  {
    First(records, (r: Record) => r.active && r.virt == virt)
  }

  function FreeRecord(records: seq<Record>): (r: Option<nat>)
    ensures r.Some? ==> r.value < |records| && !records[r.value].active
    ensures r.None? ==> forall i :: 0 <= i < |records| ==> records[i].active
  {
    First(records, (r: Record) => !r.active)
  }

  function RecordMapping(m: Mapper, virt: nat, phys: nat, flags: Flags, owner: Owner): Mapper
  {
    match RecordOf(m.records, virt)
    case Some(i) => m.(records := m.records[i := Record(virt, phys, flags, owner, true)])
    case None =>
      match FreeRecord(m.records)
      case Some(i) => m.(records := m.records[i := Record(virt, phys, flags, owner, true)])
      case None => m.(overflows := m.overflows + 1)
  }

  function Forget(m: Mapper, virt: nat): Mapper
  {
    match RecordOf(m.records, virt)
    case Some(i) => m.(records := m.records[i := NO_RECORD])
    case None => m.(misses := m.misses + 1)
  }

  // ---- the audit

  predicate RecordMatches(r: Record, t: Translation)
  {
    && t.mapped && t.phys == r.phys && t.pageSize == PAGE
    && t.user == r.flags.user && t.writable == r.flags.writable && t.executable == !r.flags.noExecute
    && if r.owner.UserPage? then InUser(r.virt) && t.user else InManaged(r.virt) && !t.user
  }

  /** Mismatched records among the first `n`. */
  function Mismatches(m: Mapper, n: nat): nat
    requires n <= |m.records|
  {
    if n == 0 then 0
    else
      Mismatches(m, n - 1)
      + (if m.records[n - 1].active && !RecordMatches(m.records[n - 1], Translate(m.mem, m.root, m.records[n - 1].virt)) then 1 else 0)
  }

  function Violations(m: Mapper): nat
  {
    Mismatches(m, |m.records|)
    + (if m.overflows != 0 then 1 else 0)
    + (if Translate(m.mem, m.root, HEAP_GUARD_LOW).mapped || Translate(m.mem, m.root, HEAP_GUARD_HIGH).mapped then 1 else 0)
  }

  // ---- boot

  /** The tables the boot code sets up: one gigabyte mapped onto itself by 2 MiB pages. */
  function BootMemory(p4: nat, p3: nat, p2: nat): Memory
  {
    map[p4 := ZeroTable()[0 := Entry(p3, true, true, false, false, false)],
        p3 := ZeroTable()[0 := Entry(p2, true, true, false, false, false)],
        p2 := IdentityTable()]
  }

  function IdentityTable(): (t: seq<Entry>)
    ensures |t| == TABLE_ENTRIES && forall i :: 0 <= i < TABLE_ENTRIES ==> t[i] == Entry(i * HUGE_PAGE, true, true, false, true, false)
  {
    seq(TABLE_ENTRIES, i requires 0 <= i < TABLE_ENTRIES => Entry(i * HUGE_PAGE, true, true, false, true, false))
  }

  function NoRecords(): (r: seq<Record>)
    ensures |r| == MAX_RECORDS && forall i :: 0 <= i < MAX_RECORDS ==> r[i] == NO_RECORD
  {
    seq(MAX_RECORDS, _ => NO_RECORD)
  }

  function BootMapper(p4: nat, p3: nat, p2: nat, pool: seq<nat>): Mapper
  {
    Mapper(p4, BootMemory(p4, p3, p2), pool, NoRecords(), 0, 0, 0, 0, 0)
  }
}
