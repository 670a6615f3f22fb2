/** The validation loops of the ELF loader. */
module Elf {
  import opened Common
  import opened ElfModel

  /** Whether a segment shares a page with one already planned. */
  method OverlapsAny(s: Segment, planned: seq<Segment>) returns (found: bool)
    ensures found <==> exists k :: 0 <= k < |planned| && Overlaps(s, planned[k])
  {
    var i := 0;
    while i < |planned|
      invariant 0 <= i <= |planned| && forall k :: 0 <= k < i ==> !Overlaps(s, planned[k])
    {
      if Overlaps(s, planned[i]) {
        return true;
      }
      i := i + 1;
    }
    found := false;
  }

  /** One program header, checked and added to the plan. */
  method Take(plan: Plan, h: Header, size: nat) returns (r: Result<Plan, LoadError>)
    ensures r == TakeHeader(plan, h, size)
  {
    if h.kind != 1 {
      return Ok(plan);
    }
    if h.fileSize > h.memorySize {
      return Err(SegmentFileLargerThanMemory);
    }
    if h.memorySize == 0 {
      return Ok(plan);
    }
    var bad := CheckHeader(h, size);
    if bad.Some? {
      return Err(bad.value);
    }
    var s := SegmentOf(h);
    if |plan.segments| >= MAX_SEGMENTS {
      return Err(TooManyLoadSegments);
    }
    var overlaps := OverlapsAny(s, plan.segments);
    if overlaps {
      return Err(SegmentPageOverlap);
    }
    r := AddSegment(plan, s);
  }

  /** The loop over program headers; `executable` is set by the segment that holds the entry point. */
  method ValidateImage(image: seq<Byte>) returns (r: Result<Plan, LoadError>)
    ensures r == Validate(image)
  {
    var ident := CheckIdent(image);
    if ident.Some? {
      return Err(ident.value);
    }
    var entry, table, count := U64(image, 24), U64(image, 32), U16(image, 56);
    if count == 0 || count > MAX_HEADERS {
      return Err(InvalidProgramHeaderCount);
    }
    if table + count * PROGRAM_HEADER_SIZE >= U64_LIMIT || table + count * PROGRAM_HEADER_SIZE > |image| {
      return Err(ProgramHeaderTableOutsideImage);
    }
    var headers := TakeAll(image, table, count, entry);
    if headers.Err? {
      return headers;
    }
    if headers.value.segments == [] {
      return Err(NoLoadSegments);
    }
    var executable := HoldsEntry(headers.value);
    if !executable {
      return Err(EntryOutsideExecutableSegment);
    }
    r := headers;
  }

  method TakeAll(image: seq<Byte>, table: nat, count: nat, entry: nat) returns (r: Result<Plan, LoadError>)
    requires table + count * PROGRAM_HEADER_SIZE <= |image|
    ensures r == TakeHeaders(image, table, count, entry)
  {
    var plan := EmptyPlan(entry);
    var index := 0;
    while index < count
      invariant 0 <= index <= count && table + index * PROGRAM_HEADER_SIZE <= |image|
      invariant TakeHeaders(image, table, index, entry) == Ok(plan)
    {
      assert (index + 1) * PROGRAM_HEADER_SIZE <= count * PROGRAM_HEADER_SIZE;
      var next := Take(plan, ReadHeader(image, table + index * PROGRAM_HEADER_SIZE), |image|);
      if next.Err? {
        StaysBad(image, table, index + 1, count, entry);
        return next;
      }
      plan := next.value;
      index := index + 1;
    }
    r := Ok(plan);
  }

  /** The first bad header decides the result. */
  lemma {:induction false} StaysBad(image: seq<Byte>, table: nat, n: nat, count: nat, entry: nat)
    requires n <= count && table + count * PROGRAM_HEADER_SIZE <= |image| && table + n * PROGRAM_HEADER_SIZE <= |image|
    requires TakeHeaders(image, table, n, entry).Err?
    ensures TakeHeaders(image, table, count, entry) == TakeHeaders(image, table, n, entry)
    decreases count - n
  {
    if n < count {
      assert (n + 1) * PROGRAM_HEADER_SIZE <= count * PROGRAM_HEADER_SIZE;
      StaysBad(image, table, n + 1, count, entry);
    }
  }

  method HoldsEntry(plan: Plan) returns (found: bool)
    ensures found == EntryExecutable(plan)
  {
    var i := 0;
    while i < |plan.segments|
      invariant 0 <= i <= |plan.segments|
      invariant forall k :: 0 <= k < i ==>
                  !(plan.segments[k].executable && plan.segments[k].address <= plan.entry < MemoryEnd(plan.segments[k]))
    {
      var s := plan.segments[i];
      if s.executable && s.address <= plan.entry < MemoryEnd(s) {
        return true;
      }
      i := i + 1;
    }
    found := false;
  }
}
