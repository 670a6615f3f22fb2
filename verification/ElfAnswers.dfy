/** Where the loader reads what it checks, what its plan says, and which complaint it makes first. */
module ElfAnswers {
  import opened Common
  import opened ElfModel
  import opened ElfLaws

  // ---- reading

  /** The `n` bytes at `at`, least significant first. */
  function LittleEndian(image: seq<Byte>, at: nat, n: nat): nat
    requires at + n <= |image|
    decreases n
  {
    if n == 0 then 0 else image[at] + 256 * LittleEndian(image, at + 1, n - 1)
  }

  lemma {:induction false} Joined(image: seq<Byte>, at: nat, m: nat, n: nat)
    requires at + m + n <= |image|
    ensures LittleEndian(image, at, m + n) == LittleEndian(image, at, m) + Power256(m) * LittleEndian(image, at + m, n)
    decreases m
  {
    if m > 0 {
      Joined(image, at + 1, m - 1, n);
      Scaled(Power256(m - 1), LittleEndian(image, at + m, n));
    }
  }

  function Power256(n: nat): nat { if n == 0 then 1 else 256 * Power256(n - 1) }

  lemma Scaled(p: nat, x: nat)
    ensures 256 * (p * x) == 256 * p * x
  {
  }

  /** Numbers are read little endian. */
  lemma NumberAnswer(image: seq<Byte>, at: nat)
    ensures at + 2 <= |image| ==> U16(image, at) == LittleEndian(image, at, 2)
    ensures at + 4 <= |image| ==> U32(image, at) == LittleEndian(image, at, 4)
    ensures at + 8 <= |image| ==> U64(image, at) == LittleEndian(image, at, 8)
  {
    if at + 2 <= |image| { TwoBytes(image, at); }
    if at + 4 <= |image| { FourBytes(image, at); }
    if at + 8 <= |image| {
      FourBytes(image, at);
      FourBytes(image, at + 4);
      Joined(image, at, 4, 4);
      assert Power256(4) == 0x1_0000_0000;
    }
  }

  lemma TwoBytes(image: seq<Byte>, at: nat)
    requires at + 2 <= |image|
    ensures U16(image, at) == LittleEndian(image, at, 2)
  {
    assert LittleEndian(image, at + 2, 0) == 0 && LittleEndian(image, at + 1, 1) == image[at + 1];
  }

  lemma FourBytes(image: seq<Byte>, at: nat)
    requires at + 4 <= |image|
    ensures U32(image, at) == LittleEndian(image, at, 4)
  {
    TwoBytes(image, at);
    TwoBytes(image, at + 2);
    Joined(image, at, 2, 2);
    assert Power256(2) == 0x1_0000;
  }

  /** Type, flags, file offset, address, file size, memory size and alignment of a program header, and the segment it asks for. */
  lemma HeaderAnswer(image: seq<Byte>, at: nat)
    requires at + 56 <= |image|
    ensures ReadHeader(image, at)
            == Header(LittleEndian(image, at, 4), LittleEndian(image, at + 4, 4), LittleEndian(image, at + 8, 8), LittleEndian(image, at + 16, 8),
                      LittleEndian(image, at + 32, 8), LittleEndian(image, at + 40, 8), LittleEndian(image, at + 48, 8))
    ensures forall h: Header :: SegmentOf(h) == Segment(h.offset, h.address, h.fileSize, h.memorySize, h.flags / 2 % 2 == 1, h.flags % 2 == 1)
  {
    NumberAnswer(image, at);
    NumberAnswer(image, at + 4);
    NumberAnswer(image, at + 8);
    NumberAnswer(image, at + 16);
    NumberAnswer(image, at + 32);
    NumberAnswer(image, at + 40);
    NumberAnswer(image, at + 48);
  }

  // ---- the plan

  /** The pages of a segment are exactly those that hold one of its bytes. */
  lemma PagesAnswer(s: Segment)
    requires s.memorySize > 0
    ensures PageStart(s) % 4096 == 0 && PageStart(s) <= s.address < PageStart(s) + 4096
    ensures PageEnd(s) % 4096 == 0 && s.address + s.memorySize <= PageEnd(s) < s.address + s.memorySize + 4096
    ensures PageCount(s) == (PageEnd(s) - PageStart(s)) / 4096
  {
    RoundUp(MemoryEnd(s));
  }

  ghost predicate Spans(plan: Plan)
  {
    && plan.segments != []
    && (forall k :: 0 <= k < |plan.segments| ==> plan.start <= PageStart(plan.segments[k]) && PageEnd(plan.segments[k]) <= plan.end)
    && (exists k :: 0 <= k < |plan.segments| && plan.start == PageStart(plan.segments[k]))
    && (exists k :: 0 <= k < |plan.segments| && plan.end == PageEnd(plan.segments[k]))
    && plan.pages == SumPages(plan.segments)
  }

  ghost predicate Spanning(plan: Plan) { plan.segments != [] ==> Spans(plan) }

  lemma AddSpans(plan: Plan, s: Segment)
    requires (plan.segments == [] ==> plan.start == U64_LIMIT - 1 && plan.end == 0 && plan.pages == 0) && Spanning(plan)
    requires AddSegment(plan, s).Ok? && PageStart(s) < U64_LIMIT
    ensures Spans(AddSegment(plan, s).value)
  {
    SumSnoc(plan.segments, s);
    if plan.segments == [] {
      FirstSpan(s, AddSegment(plan, s).value);
    } else {
      NextSpan(plan, s, AddSegment(plan, s).value);
    }
  }

  lemma FirstSpan(s: Segment, r: Plan)
    requires r.segments == [s] && r.start == PageStart(s) && r.end == PageEnd(s) && r.pages == SumPages(r.segments)
    ensures Spans(r)
  {
    assert r.segments[0] == s;
  }

  lemma NextSpan(plan: Plan, s: Segment, r: Plan)
    requires Spans(plan) && r.segments == plan.segments + [s] && r.pages == SumPages(r.segments)
    requires r.start == Min(plan.start, PageStart(s)) && r.end == Max(plan.end, PageEnd(s))
    ensures Spans(r)
  {
    var n := |plan.segments|;
    assert r.segments[n] == s && forall k :: 0 <= k < n ==> r.segments[k] == plan.segments[k];
    var i :| 0 <= i < n && plan.start == PageStart(plan.segments[i]);
    var j :| 0 <= j < n && plan.end == PageEnd(plan.segments[j]);
    assert r.start == PageStart(r.segments[if plan.start < PageStart(s) then i else n]);
    assert r.end == PageEnd(r.segments[if plan.end < PageEnd(s) then n else j]);
  }

  lemma {:induction false} PlanSpans(image: seq<Byte>, table: nat, n: nat, entry: nat)
    requires table + n * PROGRAM_HEADER_SIZE <= |image| && TakeHeaders(image, table, n, entry).Ok?
    ensures var plan := TakeHeaders(image, table, n, entry).value;
            plan.entry == entry && Spanning(plan) && (plan.segments == [] ==> plan == EmptyPlan(entry))
  {
    if n > 0 {
      PlanSpans(image, table, n - 1, entry);
      var (plan, h) := (TakeHeaders(image, table, n - 1, entry).value, ReadHeader(image, table + (n - 1) * PROGRAM_HEADER_SIZE));
      if h.kind == 1 && h.memorySize != 0 { AddSpans(plan, SegmentOf(h)); }
    }
  }

  /** An accepted plan names entry point, lowest and highest page, and the number of pages. */
  lemma PlanAnswer(image: seq<Byte>)
    requires Validate(image).Ok?
    ensures Spans(Validate(image).value) && Validate(image).value.entry == LittleEndian(image, 24, 8)
  {
    ValidateIff(image);
    NumberAnswer(image, 24);
    PlanSpans(image, U64(image, 32), U16(image, 56), U64(image, 24));
  }

  // ---- the first complaint

  /** About the identification: the first of these that is wrong. */
  function IdentComplaint(image: seq<Byte>): Option<LoadError>
  {
    if |image| < 64 then Some(ImageTooSmall)
    else if image[..4] != [0x7f, 0x45, 0x4c, 0x46] then Some(BadMagic)
    else if image[4] != 2 then Some(UnsupportedClass)
    else if image[5] != 1 then Some(UnsupportedEndianness)
    else if image[6] != 1 then Some(UnsupportedIdentVersion)
    else if LittleEndian(image, 16, 2) != 2 then Some(UnsupportedType)
    else if LittleEndian(image, 18, 2) != 62 then Some(UnsupportedMachine)
    else if LittleEndian(image, 20, 4) != 1 then Some(UnsupportedVersion)
    else if LittleEndian(image, 52, 2) != 64 then Some(InvalidHeaderSize)
    else if LittleEndian(image, 54, 2) != 56 then Some(InvalidProgramHeaderSize)
    else None
  }

  lemma IdentAnswer(image: seq<Byte>)
    ensures CheckIdent(image) == IdentComplaint(image)
  {
    if |image| >= 64 {
      NumberAnswer(image, 16);
      NumberAnswer(image, 18);
      NumberAnswer(image, 20);
      NumberAnswer(image, 52);
      NumberAnswer(image, 54);
    }
  }

  /** About a loadable header on its own: the first of these that is wrong. */
  function LoadComplaint(h: Header, size: nat): Option<LoadError>
  {
    if h.offset + h.fileSize > size || h.offset + h.fileSize >= 0x1_0000_0000_0000_0000 then Some(SegmentOutsideImage)
    else if h.address + h.memorySize >= 0x1_0000_0000_0000_0000 then Some(SegmentAddressOverflow)
    else if h.address < 0x4010_0000 || h.address + h.memorySize > 0x4020_0000 then Some(SegmentOutsideUserRegion)
    else if h.alignment > 1 && !(PowerOfTwo(h.alignment) && h.address % h.alignment == h.offset % h.alignment) then Some(SegmentAlignmentInvalid)
    else if h.flags / 4 % 2 == 0 then Some(SegmentMissingReadPermission)
    else if h.flags / 2 % 2 == 1 && h.flags % 2 == 1 then Some(WritableExecutableSegment)
    else None
  }

  lemma LoadAnswer(h: Header, size: nat)
    ensures CheckHeader(h, size) == LoadComplaint(h, size)
  {
  }

  /** About a segment beside those already planned. */
  function RoomComplaint(s: Segment, before: seq<Segment>): Option<LoadError>
  {
    if |before| >= 8 then Some(TooManyLoadSegments)
    else if exists k :: 0 <= k < |before| && PageStart(s) < PageEnd(before[k]) && PageStart(before[k]) < PageEnd(s) then Some(SegmentPageOverlap)
    else if SumPages(before) + PageCount(s) > 64 then Some(TooManyLoadPages)
    else None
  }

  lemma RoomAnswer(plan: Plan, s: Segment)
    requires plan.pages == SumPages(plan.segments) && PageCount(s) >= 0
    ensures match RoomComplaint(s, plan.segments)
            case None =>
              && AddSegment(plan, s).Ok? && AddSegment(plan, s).value.segments == plan.segments + [s]
              && AddSegment(plan, s).value.pages == SumPages(plan.segments + [s])
            case Some(e) => AddSegment(plan, s) == Err(e)
  {
    SumSnoc(plan.segments, s);
  }

  /** About one header, given the segments already planned. */
  function Complaint(h: Header, size: nat, before: seq<Segment>): Option<LoadError>
  {
    if h.kind != 1 then None
    else if h.fileSize > h.memorySize then Some(SegmentFileLargerThanMemory)
    else if h.memorySize == 0 then None
    else if LoadComplaint(h, size).Some? then LoadComplaint(h, size)
    else RoomComplaint(SegmentOf(h), before)
  }

  lemma TakeAnswer(plan: Plan, h: Header, size: nat)
    requires plan.pages == SumPages(plan.segments)
    ensures Answers(plan, h, size, TakeHeader(plan, h, size))
  {
    LoadAnswer(h, size);
    if !IsLoad(h) {
      assert plan.segments + [] == plan.segments;
    } else if LoadComplaint(h, size).None? && h.fileSize <= h.memorySize {
      CheckedPages(h, size);
      RoomAnswer(plan, SegmentOf(h));
    }
  }

  lemma CheckedPages(h: Header, size: nat)
    requires IsLoad(h) && CheckHeader(h, size).None? && h.fileSize <= h.memorySize
    ensures PageCount(SegmentOf(h)) >= 0
  {
    LoadOkIff(h, size);
    CheckedSegment(h, size);
    PageBounds(SegmentOf(h), size);
  }

  ghost function ComplaintAt(image: seq<Byte>, table: nat, i: nat): Option<LoadError>
  {
    if Inside(image, table, i) && table + i * PROGRAM_HEADER_SIZE <= |image| then Complaint(HeaderAt(image, table, i), |image|, Loads(image, table, i)) else None
  }

  ghost predicate NoComplaint(image: seq<Byte>, table: nat, n: nat) { forall i: nat :: i < n ==> ComplaintAt(image, table, i).None? }

  /** Header `i` is the first that gives cause for complaint. */
  ghost predicate FirstComplaint(image: seq<Byte>, table: nat, n: nat, i: nat, e: LoadError)
  {
    i < n && NoComplaint(image, table, i) && ComplaintAt(image, table, i) == Some(e)
  }

  ghost predicate LoopSays(image: seq<Byte>, table: nat, n: nat, r: Result<Plan, LoadError>)
    requires table + n * PROGRAM_HEADER_SIZE <= |image|
  {
    match r
    case Ok(plan) => plan.segments == Loads(image, table, n) && plan.pages == SumPages(plan.segments) && NoComplaint(image, table, n)
    case Err(e) => exists i: nat :: FirstComplaint(image, table, n, i, e)
  }

  ghost predicate Answers(plan: Plan, h: Header, size: nat, r: Result<Plan, LoadError>)
  {
    match Complaint(h, size, plan.segments)
    case None => r.Ok? && r.value.segments == WithHeader(plan.segments, h) && r.value.pages == SumPages(WithHeader(plan.segments, h))
    case Some(e) => r == Err(e)
  }

  lemma LoopStep(image: seq<Byte>, table: nat, n: nat, before: Result<Plan, LoadError>, r: Result<Plan, LoadError>)
    requires n > 0 && table + n * PROGRAM_HEADER_SIZE <= |image| && LoopSays(image, table, n - 1, before)
    requires if before.Err? then r == before else Answers(before.value, HeaderAt(image, table, n - 1), |image|, r)
    ensures LoopSays(image, table, n, r)
  {
    if before.Ok? {
      assert ComplaintAt(image, table, n - 1) == Complaint(HeaderAt(image, table, n - 1), |image|, before.value.segments);
      if r.Err? { assert FirstComplaint(image, table, n, n - 1, r.error); }
    } else {
      var i: nat :| FirstComplaint(image, table, n - 1, i, before.error);
      assert FirstComplaint(image, table, n, i, before.error);
    }
  }

  /** The first header that gives cause for complaint decides; without one the loop plans everything. */
  lemma {:induction false} LoopAnswer(image: seq<Byte>, table: nat, n: nat, entry: nat)
    requires table + n * PROGRAM_HEADER_SIZE <= |image|
    ensures LoopSays(image, table, n, TakeHeaders(image, table, n, entry))
  {
    if n > 0 {
      LoopAnswer(image, table, n - 1, entry);
      var before := TakeHeaders(image, table, n - 1, entry);
      HeadersStep(image, table, n, entry);
      if before.Ok? { TakeAnswer(before.value, HeaderAt(image, table, n - 1), |image|); }
      LoopStep(image, table, n, before, TakeHeaders(image, table, n, entry));
    }
  }

  predicate CodeAt(s: Segment, entry: nat) { s.executable && s.address <= entry < s.address + s.memorySize }

  /** After the headers: something to load, and code at the entry point. */
  function PlanComplaint(segments: seq<Segment>, entry: nat): Option<LoadError>
  {
    if segments == [] then Some(NoLoadSegments)
    else if forall k :: 0 <= k < |segments| ==> !CodeAt(segments[k], entry) then Some(EntryOutsideExecutableSegment)
    else None
  }

  ghost predicate Complains(image: seq<Byte>, r: Result<Plan, LoadError>)
    requires |image| >= 64
  {
    var (entry, table, count) := (LittleEndian(image, 24, 8), LittleEndian(image, 32, 8), LittleEndian(image, 56, 2));
    if IdentComplaint(image).Some? then r == Err(IdentComplaint(image).value)
    else if count == 0 || count > 32 then r == Err(InvalidProgramHeaderCount)
    else if table + count * 56 > |image| || table + count * 56 >= 0x1_0000_0000_0000_0000 then r == Err(ProgramHeaderTableOutsideImage)
    else Ends(image, table, count, entry, r)
  }

  /** An image is refused for the first thing that is wrong with it, and for nothing else. */
  lemma ValidateAnswer(image: seq<Byte>)
    ensures if |image| < 64 then Validate(image) == Err(ImageTooSmall) else Complains(image, Validate(image))
  {
    IdentAnswer(image);
    if |image| >= 64 && IdentComplaint(image).None? {
      NumberAnswer(image, 24);
      NumberAnswer(image, 32);
      NumberAnswer(image, 56);
      var (entry, table, count) := (U64(image, 24), U64(image, 32), U16(image, 56));
      if 1 <= count <= 32 && table + count * 56 <= |image| {
        LoopAnswer(image, table, count, entry);
        AfterLoop(image, table, count, TakeHeaders(image, table, count, entry), entry);
        if TakeHeaders(image, table, count, entry).Ok? { PlanSpans(image, table, count, entry); }
      }
    }
  }

  /** What is said after the loop. */
  ghost predicate Ends(image: seq<Byte>, table: nat, count: nat, entry: nat, r: Result<Plan, LoadError>)
    requires table + count * PROGRAM_HEADER_SIZE <= |image|
  {
    if !NoComplaint(image, table, count) then r.Err? && exists i: nat :: FirstComplaint(image, table, count, i, r.error)
    else match PlanComplaint(Loads(image, table, count), entry) case None => r.Ok? case Some(e) => r == Err(e)
  }

  lemma AfterLoop(image: seq<Byte>, table: nat, count: nat, loop: Result<Plan, LoadError>, entry: nat)
    requires table + count * PROGRAM_HEADER_SIZE <= |image| && LoopSays(image, table, count, loop)
    ensures Ends(image, table, count, entry,
                 match loop
                 case Err(e) => Err(e)
                 case Ok(plan) =>
                   if plan.segments == [] then Err(NoLoadSegments)
                   else if !EntryExecutable(plan.(entry := entry)) then Err(EntryOutsideExecutableSegment) else Ok(plan))
  {
    if loop.Err? {
      var i: nat :| FirstComplaint(image, table, count, i, loop.error);
      assert ComplaintAt(image, table, i).Some?;
    } else {
      EntryAnswer(loop.value, entry);
    }
  }

  lemma EntryAnswer(plan: Plan, entry: nat)
    ensures EntryExecutable(plan.(entry := entry)) <==> exists k :: 0 <= k < |plan.segments| && CodeAt(plan.segments[k], entry)
  {
  }
}
