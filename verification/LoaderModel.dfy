/** Building a process image: address space, pages, segment contents, audit, and undoing it all on failure. */
module LoaderModel {
  import opened Common
  import opened PagingModel
  import opened SpaceModel
  import E = ElfModel
  import EL = ElfLaws
  import F = PhysmemModel

  datatype Request = Request(virt: nat, writable: bool, executable: bool)

  const STACK_REQUEST := Request(E.STACK_PAGE, true, false)

  const STACK_TOP: nat := E.STACK_PAGE + PAGE

  datatype Failure = BadImage(load: E.LoadError) | SpaceFailed(space: SpaceError) | MappingLost

  datatype ProcessImage = ProcessImage(space: Space, entry: nat, stackTop: nat)

  // ---- pages

  function SegmentPages(s: E.Segment): (r: seq<Request>)
    ensures |r| == if E.PageCount(s) < 0 then 0 else E.PageCount(s)
    ensures forall k :: 0 <= k < |r| ==> r[k] == Request(E.PageStart(s) + PAGE * k, s.writable, s.executable)
  {
    seq(if E.PageCount(s) < 0 then 0 else E.PageCount(s),
        k requires 0 <= k => Request(E.PageStart(s) + PAGE * k, s.writable, s.executable))
  }

  /** The pages of the first segments, in the order they are mapped. */
  function PlanPages(segments: seq<E.Segment>): seq<Request>
  {
    if segments == [] then [] else PlanPages(segments[..|segments| - 1]) + SegmentPages(segments[|segments| - 1])
  }

  /** Maps the requested pages in order, stopping at the first failure. */
  function MapAll(w: World, s: Space, requests: seq<Request>): (World, Space, Option<SpaceError>)
    decreases |requests|
  {
    if requests == [] then (w, s, None)
    else
      match MapUser(w, s, requests[0].virt, requests[0].writable, requests[0].executable)
      case (w1, s1, Err(e)) => (w1, s1, Some(e))
      case (w1, s1, Ok(_)) => MapAll(w1, s1, requests[1..])
  }

  // ---- contents

  function FrameBytes(w: World, frame: nat): (b: seq<Byte>)
    ensures |b| == PAGE
  {
    if frame in w.bytes && |w.bytes[frame]| == PAGE then w.bytes[frame] else ZeroPage()
  }

  function Overwrite(page: seq<Byte>, at: nat, data: seq<Byte>): (b: seq<Byte>)
    requires at + |data| <= |page|
    ensures |b| == |page|
  {
    page[..at] + data + page[at + |data|..]
  }

  /** Writes `data`, which does not cross a page boundary, at a physical address. */
  function WriteBytes(w: World, phys: nat, data: seq<Byte>): World
    requires phys % PAGE + |data| <= PAGE
  {
    var frame := phys - phys % PAGE;
    w.(bytes := w.bytes[frame := Overwrite(FrameBytes(w, frame), phys % PAGE, data)])
  }

  function Chunk(segment: E.Segment, copied: nat): nat
    requires copied < segment.fileSize
  {
    var room := PAGE - (segment.address + copied) % PAGE;
    if room < segment.fileSize - copied then room else segment.fileSize - copied
  }

  /** How a space translates: fixed while contents are copied, since copying does not touch tables. */
  function WalkIn(mem: Memory, s: Space): nat -> Option<Leaf> { (va: nat) => SpaceWalk(mem, s, va) }

  function WalkOf(w: World, s: Space): nat -> Option<Leaf> { WalkIn(w.mem, s) }

  /** Where the kernel finds a user address. */
  function PhysOf(walk: nat -> Option<Leaf>): nat -> Option<nat>
  {
    (va: nat) => var t := Translated(va, walk(va)); if !t.mapped || !t.user then None else Some(t.phys)
  }

  /** The next stretch of file bytes to copy. */
  function NextBytes(image: seq<Byte>, segment: E.Segment, copied: nat): (data: seq<Byte>)
    requires segment.offset + segment.fileSize <= |image| && copied < segment.fileSize
    ensures |data| == Chunk(segment, copied)
  {
    image[segment.offset + copied..segment.offset + copied + Chunk(segment, copied)]
  }

  /**
   Copies the file bytes of a segment page by page. Frames are page aligned, so the physical and
   the virtual address always agree in their page offset.
   */
  function CopyFrom(w: World, phys: nat -> Option<nat>, image: seq<Byte>, segment: E.Segment, copied: nat): (World, bool)
    requires segment.offset + segment.fileSize <= |image|
    decreases segment.fileSize - copied
  {
    if copied >= segment.fileSize then (w, true)
    else
      match phys(segment.address + copied)
      case None => (w, false)
      case Some(p) =>
        if p % PAGE != (segment.address + copied) % PAGE then (w, false)
        else
          CopyFrom(WriteBytes(w, p, NextBytes(image, segment, copied)), phys, image, segment, copied + Chunk(segment, copied))
  }

  /** One step of the copy. */
  lemma CopyFromStep(w: World, phys: nat -> Option<nat>, image: seq<Byte>, segment: E.Segment, copied: nat, p: nat)
    requires segment.offset + segment.fileSize <= |image| && copied < segment.fileSize
    requires phys(segment.address + copied) == Some(p) && p % PAGE == (segment.address + copied) % PAGE
    ensures p % PAGE + Chunk(segment, copied) <= PAGE && 0 < Chunk(segment, copied)
    ensures CopyFrom(w, phys, image, segment, copied)
            == CopyFrom(WriteBytes(w, p, NextBytes(image, segment, copied)), phys, image, segment, copied + Chunk(segment, copied))
  {
  }

  /** The file bytes of every segment lie inside the image. */
  predicate FileInside(segments: seq<E.Segment>, image: seq<Byte>)
  {
    forall k :: 0 <= k < |segments| ==> segments[k].offset + segments[k].fileSize <= |image|
  }

  function CopyAll(w: World, phys: nat -> Option<nat>, image: seq<Byte>, segments: seq<E.Segment>): (World, bool)
    requires FileInside(segments, image)
    decreases |segments|
  {
    if segments == [] then (w, true)
    else
      var (w1, ok) := CopyFrom(w, phys, image, segments[0], 0);
      if !ok then (w1, false) else CopyAll(w1, phys, image, segments[1..])
  }

  // ---- the audit

  predicate PageMatches(p: MappedPage, t: Translation)
  {
    t.mapped && t.phys == p.frame && t.user && t.writable == p.writable && t.executable == p.executable
  }

  predicate AuditPasses(w: World, s: Space)
  {
    && s.active && s.root != 0
    && (forall k :: 0 <= k < |s.pages| ==> PageMatches(s.pages[k], SpaceTranslate(w, s, s.pages[k].virt)))
    && (forall k :: 0 <= k < |s.pages| ==>
          !(SpaceTranslate(w, s, s.pages[k].virt).writable && SpaceTranslate(w, s, s.pages[k].virt).executable))
    && !SpaceTranslate(w, s, E.STACK_GUARD).mapped
  }

  // ---- putting it together

  function Abandon(w: World, s: Space, activeRoot: nat): World { Destroy(w, s, activeRoot).0 }

  function Build(w: World, boot: nat, activeRoot: nat, image: seq<Byte>): (World, Result<ProcessImage, Failure>)
  {
    PlansInside(image);
    BuildPlan(E.Validate(image), w, boot, activeRoot, image)
  }

  lemma PlansInside(image: seq<Byte>)
    ensures E.Validate(image).Ok? ==> FileInside(E.Validate(image).value.segments, image)
  {
    if E.Validate(image).Ok? { EL.ValidateSound(image); }
  }

  function BuildPlan(
    validated: Result<E.Plan, E.LoadError>, w: World, boot: nat, activeRoot: nat, image: seq<Byte>): (World, Result<ProcessImage, Failure>)
    requires validated.Ok? ==> FileInside(validated.value.segments, image)
  {
    match validated
    case Err(e) => (w, Err(BadImage(e)))
    case Ok(plan) => Continue(Create(w, boot), activeRoot, image, plan)
  }

  function Continue(
    created: (World, Result<Space, SpaceError>), activeRoot: nat, image: seq<Byte>, plan: E.Plan): (World, Result<ProcessImage, Failure>)
    requires FileInside(plan.segments, image)
  {
    if created.1.Err? then (created.0, Err(SpaceFailed(created.1.error)))
    else Populate(created.0, created.1.value, activeRoot, image, plan)
  }

  function Populate(w: World, s: Space, activeRoot: nat, image: seq<Byte>, plan: E.Plan): (World, Result<ProcessImage, Failure>)
    requires FileInside(plan.segments, image)
  {
    match MapAll(w, s, PlanPages(plan.segments) + [STACK_REQUEST])
    case (w1, s1, Some(e)) => (Abandon(w1, s1, activeRoot), Err(SpaceFailed(e)))
    case (w1, s1, None) => Furnish(w1, s1, activeRoot, image, plan)
  }

  function Furnish(w: World, s: Space, activeRoot: nat, image: seq<Byte>, plan: E.Plan): (World, Result<ProcessImage, Failure>)
    requires FileInside(plan.segments, image)
  {
    var (w1, ok) := CopyAll(w, PhysOf(WalkOf(w, s)), image, plan.segments);
    if !ok || !AuditPasses(w1, s) then (Abandon(w1, s, activeRoot), Err(MappingLost))
    else (w1, Ok(ProcessImage(s, plan.entry, STACK_TOP)))
  }
}
