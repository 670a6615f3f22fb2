/** The physical frame allocator: a bump pointer over boot regions plus a stack of recycled frames. */
module PhysmemModel {
  import opened Common

  const FRAME: nat := 4096
  const MAX_REGIONS: nat := 16
  const MAX_RECYCLED: nat := 128
  const U64_MAX: nat := 0xffff_ffff_ffff_ffff

  /** A region of the boot memory map; both fields are 64-bit values. */
  datatype BootRegion = BootRegion(base: nat, length: nat, available: bool)

  datatype Region = Region(start: nat, end: nat)

  datatype Allocator = Allocator(
    regions: seq<Region>, current: nat, next: nat, recycled: seq<nat>, protectedUntil: nat,
    used: nat, totalUsable: nat, allocatable: nat, skipped: nat)

  // ---- arithmetic of 64-bit addresses

  function SaturatingAdd(a: nat, b: nat): nat { if a + b <= U64_MAX then a + b else U64_MAX }

  function AlignDown(a: nat): nat { a - a % FRAME }

  function AlignUp(a: nat): nat { AlignDown(SaturatingAdd(a, FRAME - 1)) }

  predicate FrameAligned(a: nat) { a % FRAME == 0 }

  function Max(a: nat, b: nat): nat { if a < b then b else a }

  // ---- boot

  function AddRegion(a: Allocator, r: BootRegion): Allocator
  {
    if !r.available || r.length < FRAME then a
    else
      var start, end := AlignUp(r.base), AlignDown(SaturatingAdd(r.base, r.length));
      if end <= start then a
      else
        var counted := a.(totalUsable := a.totalUsable + (end - start) / FRAME);
        if end <= a.protectedUntil then counted.(skipped := a.skipped + (end - start) / FRAME)
        else
          var from := Max(start, a.protectedUntil);
          var hidden := a.skipped + (from - start) / FRAME;
          if |a.regions| < MAX_REGIONS then
            counted.(skipped := hidden, allocatable := a.allocatable + (end - from) / FRAME,
                     regions := a.regions + [Region(from, end)])
          else counted.(skipped := hidden + (end - from) / FRAME)
  }

  function AddRegions(a: Allocator, boot: seq<BootRegion>): Allocator
  {
    if boot == [] then a else AddRegion(AddRegions(a, boot[..|boot| - 1]), boot[|boot| - 1])
  }

  function Boot(protectedUntil: nat, boot: seq<BootRegion>): Allocator
  {
    var a := AddRegions(Allocator([], 0, 0, [], protectedUntil, 0, 0, 0, 0), boot);
    if a.regions == [] then a else a.(next := a.regions[0].start)
  }

  // ---- allocation

  /** The bump pointer moves on, region by region, to the next frame never handed out. */
  function TakeFresh(a: Allocator): (Allocator, Option<nat>)
    decreases |a.regions| - a.current
  {
    if a.current >= |a.regions| then (a, None)
    else
      var r := a.regions[a.current];
      var next := Max(a.next, r.start);
      if next < r.end then (a.(next := SaturatingAdd(next, FRAME), used := a.used + 1), Some(next))
      else
        TakeFresh(a.(current := a.current + 1,
                     next := if a.current + 1 < |a.regions| then a.regions[a.current + 1].start else next))
  }

  function AllocateFrame(a: Allocator): (Allocator, Option<nat>)
  {
    if a.recycled != [] then
      (a.(recycled := a.recycled[..|a.recycled| - 1], used := a.used + 1), Some(a.recycled[|a.recycled| - 1]))
    else TakeFresh(a)
  }

  // ---- freeing

  /** Whether the first region from `i` on that contains `frame` has handed it out. */
  function IssuedFrom(a: Allocator, frame: nat, i: nat): bool
    decreases |a.regions| - i
  {
    if i >= |a.regions| then false
    else if a.regions[i].start <= frame < a.regions[i].end then i < a.current || (i == a.current && frame < a.next)
    else IssuedFrom(a, frame, i + 1)
  }

  function FreeFrame(a: Allocator, frame: nat): (Allocator, bool)
  {
    if !FrameAligned(frame) || frame < a.protectedUntil || !IssuedFrom(a, frame, 0) then (a, false)
    else if |a.recycled| >= MAX_RECYCLED then (a, false)
    else if frame in a.recycled then (a, false)
    else
      (a.(recycled := a.recycled + [frame], used := if a.used > 0 then a.used - 1 else 0), true)
  }

  // ---- the frames, in the order they are first handed out

  function FramesOf(r: Region): (s: seq<nat>)
    ensures r.start <= r.end ==> |s| == (r.end - r.start) / FRAME
    ensures forall k :: 0 <= k < |s| ==> s[k] == r.start + FRAME * k
  {
    seq(if r.start <= r.end then (r.end - r.start) / FRAME else 0, k requires 0 <= k => r.start + FRAME * k)
  }

  function AllFrames(regions: seq<Region>): seq<nat>
  {
    if regions == [] then [] else FramesOf(regions[0]) + AllFrames(regions[1..])
  }

  function Fresh(a: Allocator): seq<nat>
  {
    if a.current >= |a.regions| then []
    else FramesOf(Region(a.next, a.regions[a.current].end)) + AllFrames(a.regions[a.current + 1..])
  }

  function Issued(a: Allocator): seq<nat>
  {
    if a.current >= |a.regions| then AllFrames(a.regions)
    else AllFrames(a.regions[..a.current]) + FramesOf(Region(a.regions[a.current].start, a.next))
  }

  /** The frames in the order they will be handed out next: recycled ones first, last in first out. */
  function Pool(a: Allocator): seq<nat> { Reversed(a.recycled) + Fresh(a) }

  function Reversed(s: seq<nat>): (r: seq<nat>)
    ensures |r| == |s| && forall k :: 0 <= k < |s| ==> r[k] == s[|s| - 1 - k]
  {
    seq(|s|, k requires 0 <= k < |s| => s[|s| - 1 - k])
  }

  /** Frames that are in use: handed out and not recycled. */
  ghost function InUse(a: Allocator): set<nat> { Elements(Issued(a)) - Elements(a.recycled) }
}
