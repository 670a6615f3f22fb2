/**
 Per-process address spaces. A frame of physical memory is seen two ways, as a table of entries
 or as 4096 bytes; zeroing resets both, and no frame is used both ways.
 */
module SpaceModel {
  import opened Common
  import opened PagingModel
  import F = PhysmemModel

  const MAX_TABLES: nat := 16
  const MAX_PAGES: nat := 65
  const USER_P3_INDEX: nat := 1

  datatype World = World(mem: Memory, bytes: map<nat, seq<Byte>>, frames: F.Allocator)

  datatype MappedPage = MappedPage(virt: nat, frame: nat, writable: bool, executable: bool)

  datatype Space = Space(root: nat, tables: seq<nat>, pages: seq<MappedPage>, active: bool)

  const NO_SPACE := Space(0, [], [], false)

  datatype SpaceError =
    | SpaceNotInitialized | NoFrames | FrameNotReachable | TableCapacity | PageCapacity | SpaceUnaligned
    | OutsideUserRange | PageMapped | MissingTable | SpaceInUse

  datatype Report = Report(pagesFreed: nat, tablesFreed: nat, complete: bool)

  function ZeroPage(): (b: seq<Byte>)
    ensures |b| == PAGE && forall i :: 0 <= i < PAGE ==> b[i] == 0
  {
    seq(PAGE, _ => 0)
  }

  // ---- frames

  function TakeZeroed(w: World): (World, Result<nat, SpaceError>)
  {
    match F.AllocateFrame(w.frames)
    case (frames, None) => (w.(frames := frames), Err(NoFrames))
    case (frames, Some(f)) =>
      if f >= IDENTITY_BYTES then (w.(frames := F.FreeFrame(frames, f).0), Err(FrameNotReachable))
      else (World(w.mem[f := ZeroTable()], w.bytes[f := ZeroPage()], frames), Ok(f))
  }

  function AddTable(w: World, s: Space): (World, Space, Result<nat, SpaceError>)
  {
    if |s.tables| >= MAX_TABLES then (w, s, Err(TableCapacity))
    else
      match TakeZeroed(w)
      case (w1, Err(e)) => (w1, s, Err(e))
      case (w1, Ok(f)) => (w1, s.(tables := s.tables + [f]), Ok(f))
  }

  /** Frees the listed frames in order; the count of frames the allocator took back. */
  function FreeEach(frames: F.Allocator, list: seq<nat>): (F.Allocator, nat)
    decreases |list|
  {
    if list == [] then (frames, 0)
    else
      var (after, ok) := F.FreeFrame(frames, list[0]);
      var (end, n) := FreeEach(after, list[1..]);
      (end, n + (if ok then 1 else 0))
  }

  // ---- creation

  /** Root, low and user table, stopping at the first failure. */
  function AddThree(w: World): (World, Space, Option<SpaceError>)
  {
    match AddTable(w, NO_SPACE)
    case (w1, s1, Err(e)) => (w1, s1, Some(e))
    case (w1, s1, Ok(_)) =>
      match AddTable(w1, s1)
      case (w2, s2, Err(e)) => (w2, s2, Some(e))
      case (w2, s2, Ok(_)) =>
        match AddTable(w2, s2)
        case (w3, s3, Err(e)) => (w3, s3, Some(e))
        case (w3, s3, Ok(_)) => (w3, s3, None)
  }

  function CopyTable(mem: Memory, frame: nat): (t: seq<Entry>)
    ensures |t| == TABLE_ENTRIES && forall i :: 0 <= i < TABLE_ENTRIES ==> t[i] == EntryAt(mem, frame, i)
  {
    seq(TABLE_ENTRIES, i requires 0 <= i < TABLE_ENTRIES => EntryAt(mem, frame, i))
  }

  function OpenEntry(frame: nat): Entry { Entry(frame, true, true, true, false, false) }

  /** The new root shares the kernel's tables, except the path to the user area. */
  function FillTables(mem: Memory, boot: nat, root: nat, low: nat, user: nat): Memory
  {
    var withRoot := mem[root := CopyTable(mem, boot)[0 := OpenEntry(low)]];
    withRoot[low := CopyTable(mem, EntryAt(mem, boot, 0).addr)[USER_P3_INDEX := OpenEntry(user)]]
  }

  function Release(w: World, s: Space): World { w.(frames := FreeEach(w.frames, F.Reversed(s.tables)).0) }

  function Create(w: World, boot: nat): (World, Result<Space, SpaceError>) { Completed(AddThree(w), boot) }

  /** Fills the new tables in, or gives them back after a failure. */
  function Completed(taken: (World, Space, Option<SpaceError>), boot: nat): (World, Result<Space, SpaceError>)
  {
    var (w, s, failed) := taken;
    if failed.Some? then (Release(w, s), Err(failed.value))
    else if |s.tables| < 3 || EntryAt(w.mem, boot, 0).addr >= IDENTITY_BYTES then (Release(w, s), Err(MissingTable))
    else
      (w.(mem := FillTables(w.mem, boot, s.tables[0], s.tables[1], s.tables[2])),
       Ok(Space(s.tables[0], s.tables, [], true)))
  }

  // ---- mapping

  function SpaceWalk(mem: Memory, s: Space, va: nat): Option<Leaf>
  {
    if !s.active || s.root == 0 || s.root >= IDENTITY_BYTES || !Aligned(s.root) then None
    else Walk(mem, s.root, Path(va))
  }

  function SpaceTranslate(w: World, s: Space, va: nat): Translation { Translated(va, SpaceWalk(w.mem, s, va)) }

  function UserFlags(writable: bool, executable: bool): Flags { Flags(writable, true, !executable) }

  function MapUser(w: World, s: Space, virt: nat, writable: bool, executable: bool): (World, Space, Result<nat, SpaceError>)
  {
    if !s.active || s.root == 0 then (w, s, Err(SpaceNotInitialized))
    else if !Aligned(virt) then (w, s, Err(SpaceUnaligned))
    else if !InUser(virt) then (w, s, Err(OutsideUserRange))
    else if |s.pages| >= MAX_PAGES then (w, s, Err(PageCapacity))
    else if SpaceTranslate(w, s, virt).mapped then (w, s, Err(PageMapped))
    else if s.root >= IDENTITY_BYTES || !Aligned(s.root) then (w, s, Err(FrameNotReachable))
    else
      var p3 := EntryAt(w.mem, s.root, Index(virt, 0)).addr;
      if p3 >= IDENTITY_BYTES then (w, s, Err(MissingTable))
      else
        var p2 := EntryAt(w.mem, p3, Index(virt, 1)).addr;
        if p2 >= IDENTITY_BYTES then (w, s, Err(MissingTable))
        else
          match LastTable(w, s, p2, Index(virt, 2))
          case (w1, s1, Err(e)) => (w1, s1, Err(e))
          case (w1, s1, Ok(p1)) => EnterUser(w1, s1, p1, virt, writable, executable)
  }

  /** The last-level table for a user page, created if absent. */
  function LastTable(w: World, s: Space, p2: nat, i: nat): (World, Space, Result<nat, SpaceError>)
  {
    if EntryAt(w.mem, p2, i).present then
      (w, s, if EntryAt(w.mem, p2, i).addr < IDENTITY_BYTES then Ok(EntryAt(w.mem, p2, i).addr) else Err(MissingTable))
    else
      match AddTable(w, s)
      case (w1, s1, Err(e)) => (w1, s1, Err(e))
      case (w1, s1, Ok(f)) => (w1.(mem := SetEntry(w1.mem, p2, i, OpenEntry(f))), s1, Ok(f))
  }

  function EnterUser(w: World, s: Space, p1: nat, virt: nat, writable: bool, executable: bool): (World, Space, Result<nat, SpaceError>)
  {
    if EntryAt(w.mem, p1, Index(virt, 3)).present then (w, s, Err(PageMapped))
    else
      match TakeZeroed(w)
      case (w1, Err(e)) => (w1, s, Err(e))
      case (w1, Ok(f)) =>
        (w1.(mem := SetEntry(w1.mem, p1, Index(virt, 3), LeafEntry(f, UserFlags(writable, executable)))),
         s.(pages := s.pages + [MappedPage(virt, f, writable, executable)]), Ok(f))
  }

  // ---- destruction

  function PageFrames(s: Space): (r: seq<nat>)
    ensures |r| == |s.pages| && forall k :: 0 <= k < |r| ==> r[k] == s.pages[k].frame
  {
    seq(|s.pages|, k requires 0 <= k < |s.pages| => s.pages[k].frame)
  }

  /** Pages first, then tables from the last one allocated to the root. */
  function Destroy(w: World, s: Space, activeRoot: nat): (World, Space, Result<Report, SpaceError>)
  {
    if !s.active then (w, s, Ok(Report(0, 0, true)))
    else if activeRoot == s.root then (w, s, Err(SpaceInUse))
    else
      var (f1, pages) := FreeEach(w.frames, PageFrames(s));
      var (f2, tables) := FreeEach(f1, F.Reversed(s.tables));
      (w.(frames := f2), NO_SPACE, Ok(Report(pages, tables, pages == |s.pages| && tables == |s.tables|)))
  }
}
