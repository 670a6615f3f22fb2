/** Validation of ELF64 images: what the loader reads and the plan it makes. */
module ElfModel {
  import opened Common

  const PAGE: nat := 4096
  const ELF_BASE: nat := 0x4010_0000
  const ELF_END: nat := 0x4020_0000
  const STACK_GUARD: nat := ELF_END
  const STACK_PAGE: nat := STACK_GUARD + PAGE
  const HEADER_SIZE: nat := 64
  const PROGRAM_HEADER_SIZE: nat := 56
  const MAX_HEADERS: nat := 32
  const MAX_SEGMENTS: nat := 8
  const MAX_LOAD_PAGES: nat := 64
  const U64_LIMIT: nat := 0x1_0000_0000_0000_0000

  datatype LoadError =
    | ImageTooSmall | BadMagic | UnsupportedClass | UnsupportedEndianness | UnsupportedIdentVersion
    | UnsupportedType | UnsupportedMachine | UnsupportedVersion | InvalidHeaderSize | InvalidProgramHeaderSize
    | InvalidProgramHeaderCount | ProgramHeaderTableOutsideImage | NoLoadSegments | TooManyLoadSegments
    | SegmentFileLargerThanMemory | SegmentOutsideImage | SegmentAddressOverflow | SegmentOutsideUserRegion
    | SegmentAlignmentInvalid | SegmentMissingReadPermission | WritableExecutableSegment | SegmentPageOverlap
    | TooManyLoadPages | EntryOutsideExecutableSegment

  datatype Segment = Segment(offset: nat, address: nat, fileSize: nat, memorySize: nat, writable: bool, executable: bool)

  datatype Plan = Plan(entry: nat, start: nat, end: nat, pages: nat, segments: seq<Segment>)

  // ---- little-endian fields

  function U16(image: seq<Byte>, at: nat): nat
    requires at + 2 <= |image|
  {
    (image[at] as nat) + 0x100 * (image[at + 1] as nat)
  }

  function U32(image: seq<Byte>, at: nat): nat
    requires at + 4 <= |image|
  {
    U16(image, at) + 0x1_0000 * U16(image, at + 2)
  }

  function U64(image: seq<Byte>, at: nat): nat
    requires at + 8 <= |image|
  {
    U32(image, at) + 0x1_0000_0000 * U32(image, at + 4)
  }

  // ---- segments

  function PageStart(s: Segment): nat { s.address - s.address % PAGE }

  function MemoryEnd(s: Segment): nat { s.address + s.memorySize }

  /** Rounded up to a page; the addresses involved are far below 2^64. */
  function PageEnd(s: Segment): nat { MemoryEnd(s) + (PAGE - 1) - (MemoryEnd(s) + (PAGE - 1)) % PAGE }

  function PageCount(s: Segment): int { (PageEnd(s) - PageStart(s)) / PAGE }

  predicate Overlaps(s: Segment, t: Segment) { PageStart(s) < PageEnd(t) && PageStart(t) < PageEnd(s) }

  predicate PowerOfTwo(n: nat)
    decreases n
  {
    n == 1 || (n > 1 && n % 2 == 0 && PowerOfTwo(n / 2))
  }

  predicate FlagSet(flags: nat, bit: nat)
    requires bit > 0
  {
    flags / bit % 2 == 1
  }

  /** The fields of one program header. */
  datatype Header = Header(
    kind: nat, flags: nat, offset: nat, address: nat, fileSize: nat, memorySize: nat, alignment: nat)

  function ReadHeader(image: seq<Byte>, at: nat): Header
    requires at + PROGRAM_HEADER_SIZE <= |image|
  {
    Header(U32(image, at), U32(image, at + 4), U64(image, at + 8), U64(image, at + 16),
           U64(image, at + 32), U64(image, at + 40), U64(image, at + 48))
  }

  function SegmentOf(h: Header): Segment
  {
    Segment(h.offset, h.address, h.fileSize, h.memorySize, FlagSet(h.flags, 2), FlagSet(h.flags, 1))
  }

  predicate IsLoad(h: Header) { h.kind == 1 && h.memorySize != 0 }

  /** The checks a loadable header must pass on its own, in order. */
  function CheckHeader(h: Header, size: nat): (r: Option<LoadError>)
  {
    if h.offset + h.fileSize >= U64_LIMIT || h.offset + h.fileSize > size then Some(SegmentOutsideImage)
    else if h.address + h.memorySize >= U64_LIMIT then Some(SegmentAddressOverflow)
    else if h.address < ELF_BASE || h.address + h.memorySize > ELF_END then Some(SegmentOutsideUserRegion)
    else if h.alignment > 1 && (!PowerOfTwo(h.alignment) || h.address % h.alignment != h.offset % h.alignment) then
      Some(SegmentAlignmentInvalid)
    else if !FlagSet(h.flags, 4) then Some(SegmentMissingReadPermission)
    else if FlagSet(h.flags, 2) && FlagSet(h.flags, 1) then Some(WritableExecutableSegment)
    else None
  }

  function EmptyPlan(entry: nat): Plan { Plan(entry, U64_LIMIT - 1, 0, 0, []) }

  function Min(a: int, b: int): int { if a < b then a else b }
  function Max(a: int, b: int): int { if a < b then b else a }

  /** Adds one segment to the plan, or says why it does not fit. */
  function AddSegment(plan: Plan, s: Segment): Result<Plan, LoadError>
  {
    if |plan.segments| >= MAX_SEGMENTS then Err(TooManyLoadSegments)
    else if exists k :: 0 <= k < |plan.segments| && Overlaps(s, plan.segments[k]) then Err(SegmentPageOverlap)
    else if plan.pages + PageCount(s) > MAX_LOAD_PAGES || PageCount(s) < 0 then Err(TooManyLoadPages)
    else Ok(Plan(plan.entry, Min(plan.start, PageStart(s)), Max(plan.end, PageEnd(s)), plan.pages + PageCount(s), plan.segments + [s]))
  }

  /** The loop body for one program header. */
  function TakeHeader(plan: Plan, h: Header, size: nat): Result<Plan, LoadError>
  {
    if h.kind != 1 then Ok(plan)
    else if h.fileSize > h.memorySize then Err(SegmentFileLargerThanMemory)
    else if h.memorySize == 0 then Ok(plan)
    else
      match CheckHeader(h, size)
      case Some(e) => Err(e)
      case None => AddSegment(plan, SegmentOf(h))
  }

  /** The plan after the first `n` program headers of the table at `table`. */
  function TakeHeaders(image: seq<Byte>, table: nat, n: nat, entry: nat): Result<Plan, LoadError>
    requires table + n * PROGRAM_HEADER_SIZE <= |image|
  {
    if n == 0 then Ok(EmptyPlan(entry))
    else
      match TakeHeaders(image, table, n - 1, entry)
      case Err(e) => Err(e)
      case Ok(plan) => TakeHeader(plan, ReadHeader(image, table + (n - 1) * PROGRAM_HEADER_SIZE), |image|)
  }

  predicate EntryExecutable(plan: Plan)
  {
    exists k :: 0 <= k < |plan.segments| && plan.segments[k].executable
                && plan.segments[k].address <= plan.entry < MemoryEnd(plan.segments[k])
  }

  function CheckIdent(image: seq<Byte>): Option<LoadError>
  {
    if |image| < HEADER_SIZE then Some(ImageTooSmall)
    else if image[0..4] != [0x7f, 0x45, 0x4c, 0x46] then Some(BadMagic)
    else if image[4] != 2 then Some(UnsupportedClass)
    else if image[5] != 1 then Some(UnsupportedEndianness)
    else if image[6] != 1 then Some(UnsupportedIdentVersion)
    else if U16(image, 16) != 2 then Some(UnsupportedType)
    else if U16(image, 18) != 62 then Some(UnsupportedMachine)
    else if U32(image, 20) != 1 then Some(UnsupportedVersion)
    else if U16(image, 52) != HEADER_SIZE then Some(InvalidHeaderSize)
    else if U16(image, 54) != PROGRAM_HEADER_SIZE then Some(InvalidProgramHeaderSize)
    else None
  }

  function Validate(image: seq<Byte>): Result<Plan, LoadError>
  {
    var ident := CheckIdent(image);
    if ident.Some? then Err(ident.value)
    else
      var entry, table, count := U64(image, 24), U64(image, 32), U16(image, 56);
      if count == 0 || count > MAX_HEADERS then Err(InvalidProgramHeaderCount)
      else if table + count * PROGRAM_HEADER_SIZE >= U64_LIMIT || table + count * PROGRAM_HEADER_SIZE > |image| then
        Err(ProgramHeaderTableOutsideImage)
      else
        match TakeHeaders(image, table, count, entry)
        case Err(e) => Err(e)
        case Ok(plan) =>
          if plan.segments == [] then Err(NoLoadSegments)
          else if !EntryExecutable(plan) then Err(EntryOutsideExecutableSegment)
          else Ok(plan)
  }
}
