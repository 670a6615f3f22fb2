/** The loops that build a process image in a new address space. */
module Loader {
  import opened Common
  import opened PagingModel
  import opened SpaceModel
  import opened LoaderModel
  import opened SpaceImpl
  import E = ElfModel
  import EL = ElfLaws
  import Elf

  // ---- mapping

  lemma MapAllStep(w: World, s: Space, requests: seq<Request>)
    requires requests != []
    ensures var (w1, s1, r) := MapUser(w, s, requests[0].virt, requests[0].writable, requests[0].executable);
            MapAll(w, s, requests) == if r.Err? then (w1, s1, Some(r.error)) else MapAll(w1, s1, requests[1..])
  {
  }

  /** One page; `rest` is what is still to be mapped after it. */
  method MapOne(space: AddressSpace, q: Request, ghost rest: seq<Request>) returns (r: Option<SpaceError>)
    requires space.Valid()
    modifies space, space.tableFrames, space.userPages, space.machine, space.machine.allocator, space.machine.allocator.regions, space.machine.allocator.recycled
    ensures space.Valid()
    ensures var all := MapAll(old(space.machine.Model()), old(space.Model()), [q] + rest);
            if r.Some? then all == (space.machine.Model(), space.Model(), r)
            else all == MapAll(space.machine.Model(), space.Model(), rest)
  {
    assert ([q] + rest)[1..] == rest;
    MapAllStep(space.machine.Model(), space.Model(), [q] + rest);
    var mapped := space.MapUserPage(q.virt, q.writable, q.executable);
    r := if mapped.Err? then Some(mapped.error) else None;
  }

  /** Consecutive pages from `first` to `end`; `after` is what is still to be mapped then. */
  method MapRange(space: AddressSpace, first: nat, end: nat, writable: bool, executable: bool, ghost pages: seq<Request>, ghost after: seq<Request>)
    returns (r: Option<SpaceError>)
    requires space.Valid() && end == first + PAGE * |pages|
    requires forall k :: 0 <= k < |pages| ==> pages[k] == Request(first + PAGE * k, writable, executable)
    modifies space, space.tableFrames, space.userPages, space.machine, space.machine.allocator, space.machine.allocator.regions, space.machine.allocator.recycled
    ensures space.Valid()
    ensures var all := MapAll(old(space.machine.Model()), old(space.Model()), pages + after);
            if r.Some? then all == (space.machine.Model(), space.Model(), r)
            else all == MapAll(space.machine.Model(), space.Model(), after)
  {
    ghost var target := MapAll(space.machine.Model(), space.Model(), pages + after);
    ghost var left := pages + after;
    var page := first;
    ghost var k := 0;
    while page < end
      invariant space.Valid() && 0 <= k <= |pages| && page == first + PAGE * k && left == pages[k..] + after
      invariant target == MapAll(space.machine.Model(), space.Model(), left)
      decreases end - page
    {
      ghost var rest := pages[k + 1..] + after;
      assert left == [Request(page, writable, executable)] + rest;
      r := MapOne(space, Request(page, writable, executable), rest);
      if r.Some? {
        return;
      }
      page := page + PAGE;
      k := k + 1;
      left := rest;
    }
    assert left == after;
    r := None;
  }

  /** Maps the pages of one segment from its first to its last page. */
  method MapSegment(space: AddressSpace, segment: E.Segment, ghost after: seq<Request>) returns (r: Option<SpaceError>)
    requires space.Valid() && E.PageCount(segment) >= 0 && E.PageEnd(segment) == E.PageStart(segment) + PAGE * E.PageCount(segment)
    modifies space, space.tableFrames, space.userPages, space.machine, space.machine.allocator, space.machine.allocator.regions, space.machine.allocator.recycled
    ensures space.Valid()
    ensures var all := MapAll(old(space.machine.Model()), old(space.Model()), SegmentPages(segment) + after);
            if r.Some? then all == (space.machine.Model(), space.Model(), r)
            else all == MapAll(space.machine.Model(), space.Model(), after)
  {
    r := MapRange(space, E.PageStart(segment), E.PageEnd(segment), segment.writable, segment.executable, SegmentPages(segment), after);
  }

  lemma {:induction false} PlanPrefix(segments: seq<E.Segment>, i: nat)
    requires i <= |segments|
    ensures |PlanPages(segments[..i])| <= |PlanPages(segments)|
    ensures PlanPages(segments)[..|PlanPages(segments[..i])|] == PlanPages(segments[..i])
  {
    if i < |segments| {
      var before := segments[..|segments| - 1];
      PlanPrefix(before, i);
      assert before[..i] == segments[..i];
    } else {
      assert segments[..i] == segments;
    }
  }

  /** The requests from segment `i` on. */
  ghost function Rest(segments: seq<E.Segment>, i: nat, after: seq<Request>): seq<Request>
    requires i <= |segments|
  {
    PlanPrefix(segments, i);
    PlanPages(segments)[|PlanPages(segments[..i])|..] + after
  }

  lemma RestStep(segments: seq<E.Segment>, i: nat, after: seq<Request>)
    requires i < |segments|
    ensures Rest(segments, i, after) == SegmentPages(segments[i]) + Rest(segments, i + 1, after)
  {
    PlanPrefix(segments, i);
    PlanPrefix(segments, i + 1);
    assert segments[..i + 1][..i] == segments[..i] && segments[..i + 1][i] == segments[i];
    var (all, a, b) := (PlanPages(segments), |PlanPages(segments[..i])|, |PlanPages(segments[..i + 1])|);
    assert all[..b] == PlanPages(segments[..i]) + SegmentPages(segments[i]);
    assert all[a..b] == all[..b][a..] == SegmentPages(segments[i]);
    assert all[a..] == all[a..b] + all[b..];
  }

  /** Maps all segments in order. */
  method MapSegments(space: AddressSpace, segments: seq<E.Segment>, ghost size: nat, ghost after: seq<Request>) returns (r: Option<SpaceError>)
    requires space.Valid() && forall k :: 0 <= k < |segments| ==> EL.SegmentOk(segments[k], size)
    modifies space, space.tableFrames, space.userPages, space.machine, space.machine.allocator, space.machine.allocator.regions, space.machine.allocator.recycled
    ensures space.Valid()
    ensures var all := MapAll(old(space.machine.Model()), old(space.Model()), PlanPages(segments) + after);
            if r.Some? then all == (space.machine.Model(), space.Model(), r)
            else all == MapAll(space.machine.Model(), space.Model(), after)
  {
    assert segments[..0] == [];
    assert Rest(segments, 0, after) == PlanPages(segments) + after;
    var i := 0;
    while i < |segments|
      invariant space.Valid() && 0 <= i <= |segments|
      invariant MapAll(old(space.machine.Model()), old(space.Model()), PlanPages(segments) + after)
                == MapAll(space.machine.Model(), space.Model(), Rest(segments, i, after))
    {
      RestStep(segments, i, after);
      EL.PageBounds(segments[i], size);
      r := MapSegment(space, segments[i], Rest(segments, i + 1, after));
      if r.Some? {
        return;
      }
      i := i + 1;
    }
    assert segments[..i] == segments;
    assert Rest(segments, i, after) == after;
    r := None;
  }

  // ---- contents

  /** Writes bytes that do not cross a page boundary. */
  method WriteChunk(machine: Machine, at: nat, data: seq<Byte>)
    requires machine.Valid() && at % PAGE + |data| <= PAGE
    modifies machine`bytes
    ensures machine.Valid() && machine.Model() == WriteBytes(old(machine.Model()), at, data)
  {
    var frame := at - at % PAGE;
    var page := if frame in machine.bytes && |machine.bytes[frame]| == PAGE then machine.bytes[frame] else ZeroPage();
    machine.bytes := machine.bytes[frame := Overwrite(page, at % PAGE, data)];
  }

  /** One step of the copy loop: a chunk is written, or the mapping is gone. */
  method CopyChunk(machine: Machine, phys: nat -> Option<nat>, image: seq<Byte>, segment: E.Segment, copied: nat) returns (ok: bool)
    requires machine.Valid() && segment.offset + segment.fileSize <= |image| && copied < segment.fileSize
    modifies machine`bytes
    ensures machine.Valid() && 0 < Chunk(segment, copied)
    ensures CopyFrom(old(machine.Model()), phys, image, segment, copied)
            == if ok then CopyFrom(machine.Model(), phys, image, segment, copied + Chunk(segment, copied)) else (machine.Model(), false)
  {
    var at := phys(segment.address + copied);
    if at.None? || at.value % PAGE != (segment.address + copied) % PAGE {
      return false;
    }
    CopyFromStep(machine.Model(), phys, image, segment, copied, at.value);
    WriteChunk(machine, at.value, NextBytes(image, segment, copied));
    ok := true;
  }

  /** Copies the file bytes of one segment, a page at a time. */
  method CopySegment(machine: Machine, phys: nat -> Option<nat>, image: seq<Byte>, segment: E.Segment) returns (ok: bool)
    requires machine.Valid() && segment.offset + segment.fileSize <= |image|
    modifies machine`bytes
    ensures machine.Valid() && (machine.Model(), ok) == CopyFrom(old(machine.Model()), phys, image, segment, 0)
  {
    ghost var target := CopyFrom(machine.Model(), phys, image, segment, 0);
    var copied := 0;
    while copied < segment.fileSize
      invariant machine.Valid() && target == CopyFrom(machine.Model(), phys, image, segment, copied)
      decreases segment.fileSize - copied
    {
      ok := CopyChunk(machine, phys, image, segment, copied);
      if !ok {
        return;
      }
      copied := copied + Chunk(segment, copied);
    }
    ok := true;
  }

  method CopySegments(machine: Machine, phys: nat -> Option<nat>, image: seq<Byte>, segments: seq<E.Segment>) returns (ok: bool)
    requires machine.Valid() && FileInside(segments, image)
    modifies machine`bytes
    ensures machine.Valid() && (machine.Model(), ok) == CopyAll(old(machine.Model()), phys, image, segments)
  {
    var i := 0;
    while i < |segments|
      invariant machine.Valid() && 0 <= i <= |segments|
      invariant CopyAll(old(machine.Model()), phys, image, segments) == CopyAll(machine.Model(), phys, image, segments[i..])
    {
      assert segments[i..][0] == segments[i] && segments[i..][1..] == segments[i + 1..];
      ok := CopySegment(machine, phys, image, segments[i]);
      if !ok {
        return;
      }
      i := i + 1;
    }
    assert segments[i..] == [];
    ok := true;
  }

  // ---- the audit

  /** Every listed page translates as recorded, none is writable and executable, and the guard page is unmapped. */
  method Audit(space: AddressSpace) returns (ok: bool)
    requires space.Valid()
    ensures ok == AuditPasses(space.machine.Model(), space.Model())
  {
    var s := Space(space.root, space.tableFrames[..space.tableCount], space.userPages[..space.pageCount], space.active);
    var mem := space.machine.mem;
    ok := s.active && s.root != 0 && !Translated(E.STACK_GUARD, SpaceWalk(mem, s, E.STACK_GUARD)).mapped;
    var k := 0;
    while k < |s.pages|
      invariant 0 <= k <= |s.pages|
      invariant ok <==> && s.active && s.root != 0 && !Translated(E.STACK_GUARD, SpaceWalk(mem, s, E.STACK_GUARD)).mapped
                        && (forall i :: 0 <= i < k ==> PageSound(mem, s, s.pages[i]))
    {
      if !PageSound(mem, s, s.pages[k]) {
        ok := false;
      }
      k := k + 1;
    }
    AuditIff(space.machine.Model(), s);
  }

  predicate PageSound(mem: Memory, s: Space, p: MappedPage)
  {
    var t := Translated(p.virt, SpaceWalk(mem, s, p.virt));
    PageMatches(p, t) && !(t.writable && t.executable)
  }

  lemma AuditIff(w: World, s: Space)
    ensures AuditPasses(w, s) <==>
              && s.active && s.root != 0 && !Translated(E.STACK_GUARD, SpaceWalk(w.mem, s, E.STACK_GUARD)).mapped
              && (forall i :: 0 <= i < |s.pages| ==> PageSound(w.mem, s, s.pages[i]))
  {
    forall i | 0 <= i < |s.pages|
      ensures PageSound(w.mem, s, s.pages[i]) <==>
                && PageMatches(s.pages[i], SpaceTranslate(w, s, s.pages[i].virt))
                && !(SpaceTranslate(w, s, s.pages[i].virt).writable && SpaceTranslate(w, s, s.pages[i].virt).executable)
    {
    }
  }

  // ---- putting it together

  /** Segments, then the stack page. */
  method MapImage(space: AddressSpace, plan: E.Plan, ghost size: nat) returns (r: Option<SpaceError>)
    requires space.Valid() && forall k :: 0 <= k < |plan.segments| ==> EL.SegmentOk(plan.segments[k], size)
    modifies space, space.tableFrames, space.userPages, space.machine, space.machine.allocator, space.machine.allocator.regions, space.machine.allocator.recycled
    ensures space.Valid()
    ensures (space.machine.Model(), space.Model(), r)
            == MapAll(old(space.machine.Model()), old(space.Model()), PlanPages(plan.segments) + [STACK_REQUEST])
  {
    r := MapSegments(space, plan.segments, size, [STACK_REQUEST]);
    if r.Some? {
      return;
    }
    r := MapOne(space, STACK_REQUEST, []);
  }

  /** Contents and audit; on failure the space is destroyed. */
  method FillImage(space: AddressSpace, activeRoot: nat, image: seq<Byte>, plan: E.Plan) returns (r: Result<(), Failure>)
    requires space.Valid() && FileInside(plan.segments, image)
    modifies space, space.machine, space.machine.allocator, space.machine.allocator.recycled
    ensures space.Valid() && space.machine.Model() == Furnish(old(space.machine.Model()), old(space.Model()), activeRoot, image, plan).0
    ensures match Furnish(old(space.machine.Model()), old(space.Model()), activeRoot, image, plan).1
            case Ok(p) => r.Ok? && p == ProcessImage(space.Model(), plan.entry, STACK_TOP)
            case Err(e) => r == Err(e)
  {
    var s := Space(space.root, space.tableFrames[..space.tableCount], space.userPages[..space.pageCount], space.active);
    var copied := CopySegments(space.machine, PhysOf(WalkIn(space.machine.mem, s)), image, plan.segments);
    var sound := Audit(space);
    if !copied || !sound {
      var report := space.Destroy(activeRoot);
      return Err(MappingLost);
    }
    r := Ok(());
  }

  method CreateProcessImage(machine: Machine, boot: nat, activeRoot: nat, image: seq<Byte>)
    returns (space: AddressSpace, r: Result<(nat, nat), Failure>)
    requires machine.Valid()
    modifies machine, machine.allocator, machine.allocator.regions, machine.allocator.recycled
    ensures machine.Valid() && machine.Model() == Build(old(machine.Model()), boot, activeRoot, image).0
    ensures space.machine == machine && space.Valid()
    ensures match Build(old(machine.Model()), boot, activeRoot, image).1
            case Ok(p) => r == Ok((p.entry, p.stackTop)) && space.Model() == p.space
            case Err(e) => r == Err(e)
  {
    space := new AddressSpace(machine);
    PlansInside(image);
    var validated := Elf.ValidateImage(image);
    if validated.Err? {
      return space, Err(BadImage(validated.error));
    }
    EL.ValidateSound(image);
    var created := space.Initialize(boot);
    if created.Err? {
      return space, Err(SpaceFailed(created.error));
    }
    var failed := MapImage(space, validated.value, |image|);
    if failed.Some? {
      var report := space.Destroy(activeRoot);
      return space, Err(SpaceFailed(failed.value));
    }
    var filled := FillImage(space, activeRoot, image, validated.value);
    r := if filled.Ok? then Ok((validated.value.entry, STACK_TOP)) else Err(filled.error);
  }
}
