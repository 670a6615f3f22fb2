/** Which images are accepted, and what an accepted image guarantees. */
module ElfLaws {
  import opened Common
  import opened ElfModel

  // ---- an independent description of acceptable images

  predicate Inside(image: seq<Byte>, table: nat, i: nat) { table + (i + 1) * PROGRAM_HEADER_SIZE <= |image| }

  function HeaderAt(image: seq<Byte>, table: nat, i: nat): Header
    requires Inside(image, table, i)
  {
    ReadHeader(image, table + i * PROGRAM_HEADER_SIZE)
  }

  /** File range inside the image, memory range inside the load region, congruent alignment, readable, W^X. */
  predicate LoadOk(h: Header, size: nat)
  {
    && h.offset + h.fileSize <= size && h.offset + h.fileSize < U64_LIMIT
    && ELF_BASE <= h.address && h.address + h.memorySize <= ELF_END
    && (h.alignment <= 1 || (PowerOfTwo(h.alignment) && h.address % h.alignment == h.offset % h.alignment))
    && FlagSet(h.flags, 4) && !(FlagSet(h.flags, 2) && FlagSet(h.flags, 1))
  }

  /** A header is harmless: not loadable, empty, or a segment that may be loaded. */
  predicate HeaderOk(h: Header, size: nat)
  {
    h.kind == 1 ==> h.fileSize <= h.memorySize && (h.memorySize == 0 || LoadOk(h, size))
  }

  /** ELF, 64 bits, little endian, version 1; an executable for x86-64 with headers of the standard sizes. */
  predicate IdentOk(image: seq<Byte>)
  {
    && |image| >= HEADER_SIZE && image[..7] == [0x7f, 0x45, 0x4c, 0x46, 2, 1, 1]
    && U16(image, 16) == 2 && U16(image, 18) == 62 && U32(image, 20) == 1
    && U16(image, 52) == HEADER_SIZE && U16(image, 54) == PROGRAM_HEADER_SIZE
  }

  lemma LoadOkIff(h: Header, size: nat)
    ensures LoadOk(h, size) <==> CheckHeader(h, size).None?
  {
  }

  lemma IdentOkIff(image: seq<Byte>)
    ensures IdentOk(image) <==> CheckIdent(image).None?
  {
    if |image| >= HEADER_SIZE {
      assert image[..7] == image[0..4] + [image[4], image[5], image[6]];
      assert image[..7][..4] == image[0..4] && image[..7][4] == image[4] && image[..7][5] == image[5] && image[..7][6] == image[6];
    }
  }

  /** The loadable segments among the first `n` headers, in table order. */
  function Loads(image: seq<Byte>, table: nat, n: nat): seq<Segment>
    requires table + n * PROGRAM_HEADER_SIZE <= |image|
  {
    if n == 0 then []
    else
      var h := HeaderAt(image, table, n - 1);
      Loads(image, table, n - 1) + (if IsLoad(h) then [SegmentOf(h)] else [])
  }

  function SumPages(segments: seq<Segment>): int
  {
    if segments == [] then 0 else SumPages(segments[..|segments| - 1]) + PageCount(segments[|segments| - 1])
  }

  predicate PageDisjoint(segments: seq<Segment>)
  {
    forall i, j :: 0 <= i < j < |segments| ==> !Overlaps(segments[j], segments[i])
  }

  predicate HeadersOk(image: seq<Byte>, table: nat, n: nat)
    requires table + n * PROGRAM_HEADER_SIZE <= |image|
  {
    forall i: nat :: i < n ==> Inside(image, table, i) && HeaderOk(HeaderAt(image, table, i), |image|)
  }

  predicate Fits(segments: seq<Segment>)
  {
    |segments| <= MAX_SEGMENTS && PageDisjoint(segments) && SumPages(segments) <= MAX_LOAD_PAGES
  }

  predicate TableInside(image: seq<Byte>, table: nat, count: nat)
  {
    1 <= count <= MAX_HEADERS && table + count * PROGRAM_HEADER_SIZE <= |image|
    && table + count * PROGRAM_HEADER_SIZE < U64_LIMIT
  }

  /** The whole condition for acceptance, with no reference to the order of the checks. */
  predicate Acceptable(image: seq<Byte>)
  {
    && IdentOk(image)
    && var (entry, table, count) := (U64(image, 24), U64(image, 32), U16(image, 56));
    && TableInside(image, table, count) && HeadersOk(image, table, count)
    && var segments := Loads(image, table, count);
    && Fits(segments)
    && exists k :: 0 <= k < |segments| && segments[k].executable && segments[k].address <= entry < MemoryEnd(segments[k])
  }

  // ---- single segments

  predicate SegmentOk(s: Segment, size: nat)
  {
    && s.offset + s.fileSize <= size && s.fileSize <= s.memorySize && s.memorySize > 0
    && ELF_BASE <= s.address && MemoryEnd(s) <= ELF_END && !(s.writable && s.executable)
  }

  lemma CheckedSegment(h: Header, size: nat)
    requires IsLoad(h) && HeaderOk(h, size)
    ensures SegmentOk(SegmentOf(h), size)
  {
  }

  /** Page bounds enclose the segment and stay inside the load region. */
  lemma PageBounds(s: Segment, size: nat)
    requires SegmentOk(s, size)
    ensures ELF_BASE <= PageStart(s) <= s.address && MemoryEnd(s) <= PageEnd(s) <= ELF_END
    ensures PageStart(s) % PAGE == 0 && PageEnd(s) % PAGE == 0 && PageCount(s) >= 1
    ensures PageEnd(s) == PageStart(s) + PAGE * PageCount(s)
  {
    RoundUp(MemoryEnd(s));
    assert PageStart(s) % PAGE == 0;
  }

  lemma RoundUp(n: nat)
    ensures var r := n + (PAGE - 1) - (n + (PAGE - 1)) % PAGE; n <= r < n + PAGE && r % PAGE == 0
    ensures n <= ELF_END ==> n + (PAGE - 1) - (n + (PAGE - 1)) % PAGE <= ELF_END
  {
  }

  // ---- acceptance

  lemma DisjointSnoc(segments: seq<Segment>, s: Segment)
    ensures PageDisjoint(segments + [s]) <==>
              PageDisjoint(segments) && !(exists k :: 0 <= k < |segments| && Overlaps(s, segments[k]))
  {
    var all := segments + [s];
    if PageDisjoint(all) {
      forall k | 0 <= k < |segments| ensures !Overlaps(s, segments[k]) { assert all[|segments|] == s && all[k] == segments[k]; }
      forall i, j | 0 <= i < j < |segments| ensures !Overlaps(segments[j], segments[i]) { assert all[i] == segments[i] && all[j] == segments[j]; }
    }
  }

  lemma SumSnoc(segments: seq<Segment>, s: Segment)
    ensures SumPages(segments + [s]) == SumPages(segments) + PageCount(s)
  {
    assert (segments + [s])[..|segments|] == segments;
  }

  ghost predicate PlanIs(r: Result<Plan, LoadError>, entry: nat, ok: bool, segments: seq<Segment>)
  {
    && (r.Ok? <==> ok)
    && (r.Ok? ==> r.value.entry == entry && r.value.segments == segments && r.value.pages == SumPages(segments))
  }

  lemma AddSegmentOk(plan: Plan, s: Segment, size: nat, segments: seq<Segment>)
    requires plan.segments == segments && plan.pages == SumPages(segments) && Fits(segments) && SegmentOk(s, size)
    ensures PlanIs(AddSegment(plan, s), plan.entry, Fits(segments + [s]), segments + [s])
  {
    DisjointSnoc(segments, s);
    SumSnoc(segments, s);
    PageBounds(s, size);
  }

  lemma TakeHeaderOk(plan: Plan, h: Header, size: nat, segments: seq<Segment>)
    requires plan.segments == segments && plan.pages == SumPages(segments) && Fits(segments)
    ensures var more := WithHeader(segments, h);
            PlanIs(TakeHeader(plan, h, size), plan.entry, HeaderOk(h, size) && Fits(more), more)
  {
    LoadOkIff(h, size);
    if !IsLoad(h) {
      assert segments + [] == segments;
    } else if HeaderOk(h, size) {
      CheckedSegment(h, size);
      AddSegmentOk(plan, SegmentOf(h), size, segments);
      assert TakeHeader(plan, h, size) == AddSegment(plan, SegmentOf(h));
    }
  }

  lemma HeadersOkStep(image: seq<Byte>, table: nat, n: nat)
    requires n > 0 && table + n * PROGRAM_HEADER_SIZE <= |image|
    ensures HeadersOk(image, table, n) <==> HeadersOk(image, table, n - 1) && HeaderOk(HeaderAt(image, table, n - 1), |image|)
  {
    forall i: nat | i < n ensures Inside(image, table, i) {
      assert (i + 1) * PROGRAM_HEADER_SIZE <= n * PROGRAM_HEADER_SIZE;
    }
  }

  function WithHeader(before: seq<Segment>, h: Header): seq<Segment>
  {
    before + (if IsLoad(h) then [SegmentOf(h)] else [])
  }

  /** Fewer segments still fit: the segments of valid headers only add pages. */
  lemma FitsFewer(before: seq<Segment>, h: Header, size: nat)
    requires HeaderOk(h, size) && Fits(WithHeader(before, h))
    ensures Fits(before)
  {
    if IsLoad(h) {
      CheckedSegment(h, size);
      PageBounds(SegmentOf(h), size);
      DisjointSnoc(before, SegmentOf(h));
      SumSnoc(before, SegmentOf(h));
    } else {
      assert before + [] == before;
    }
  }

  lemma {:induction false} TakeHeadersOk(image: seq<Byte>, table: nat, n: nat, entry: nat)
    requires table + n * PROGRAM_HEADER_SIZE <= |image|
    ensures PlanIs(TakeHeaders(image, table, n, entry), entry, HeadersOk(image, table, n) && Fits(Loads(image, table, n)), Loads(image, table, n))
  {
    if n > 0 {
      var (r, h, before, ok) := (TakeHeaders(image, table, n - 1, entry), HeaderAt(image, table, n - 1), Loads(image, table, n - 1),
                                 HeadersOk(image, table, n - 1));
      TakeHeadersOk(image, table, n - 1, entry);
      OneMore(r, h, |image|, entry, ok, before);
      HeadersOkStep(image, table, n);
      HeadersStep(image, table, n, entry);
    }
  }

  lemma HeadersStep(image: seq<Byte>, table: nat, n: nat, entry: nat)
    requires n > 0 && table + n * PROGRAM_HEADER_SIZE <= |image|
    ensures var (r, h) := (TakeHeaders(image, table, n - 1, entry), HeaderAt(image, table, n - 1));
            && Loads(image, table, n) == WithHeader(Loads(image, table, n - 1), h)
            && TakeHeaders(image, table, n, entry) == if r.Err? then r else TakeHeader(r.value, h, |image|)
  {
  }

  lemma OneMore(r: Result<Plan, LoadError>, h: Header, size: nat, entry: nat, ok: bool, before: seq<Segment>)
    requires PlanIs(r, entry, ok && Fits(before), before)
    ensures PlanIs(if r.Err? then r else TakeHeader(r.value, h, size), entry,
                   ok && HeaderOk(h, size) && Fits(WithHeader(before, h)), WithHeader(before, h))
  {
    if r.Ok? {
      TakeHeaderOk(r.value, h, size, before);
    } else if ok && HeaderOk(h, size) && Fits(WithHeader(before, h)) {
      FitsFewer(before, h, size);
    }
  }

  /** The loader accepts exactly the acceptable images, and plans exactly their loadable segments. */
  lemma ValidateIff(image: seq<Byte>)
    ensures Validate(image).Ok? <==> Acceptable(image)
    ensures Validate(image).Ok? ==>
              Validate(image).value.entry == U64(image, 24)
              && TableInside(image, U64(image, 32), U16(image, 56))
              && Validate(image).value.segments == Loads(image, U64(image, 32), U16(image, 56))
  {
    IdentOkIff(image);
    if IdentOk(image) {
      var (entry, table, count) := (U64(image, 24), U64(image, 32), U16(image, 56));
      if TableInside(image, table, count) { TakeHeadersOk(image, table, count, entry); }
    }
  }

  // ---- guarantees

  lemma {:induction false} LoadsOk(image: seq<Byte>, table: nat, n: nat)
    requires table + n * PROGRAM_HEADER_SIZE <= |image| && HeadersOk(image, table, n)
    ensures forall k :: 0 <= k < |Loads(image, table, n)| ==> SegmentOk(Loads(image, table, n)[k], |image|)
  {
    if n > 0 {
      HeadersOkStep(image, table, n);
      LoadsOk(image, table, n - 1);
      var h := HeaderAt(image, table, n - 1);
      if IsLoad(h) { CheckedSegment(h, |image|); }
    }
  }

  /** What the rest of the loader may rely on. */
  ghost predicate PlanOk(plan: Plan, size: nat)
  {
    && plan.segments != [] && Fits(plan.segments) && plan.pages == SumPages(plan.segments) && EntryExecutable(plan)
    && (forall k :: 0 <= k < |plan.segments| ==> SegmentOk(plan.segments[k], size))
  }

  /** Every accepted image: W^X segments, pairwise disjoint by page, inside the region, at most 64 pages, executable entry. */
  lemma ValidateSound(image: seq<Byte>)
    requires Validate(image).Ok?
    ensures PlanOk(Validate(image).value, |image|)
  {
    ValidateIff(image);
    var (entry, table, count) := (U64(image, 24), U64(image, 32), U16(image, 56));
    TakeHeadersOk(image, table, count, entry);
    LoadsOk(image, table, count);
  }
}
