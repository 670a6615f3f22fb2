/** The frame allocator as the kernel keeps it: two fixed arrays and a bump pointer. */
module Physmem {
  import opened Common
  import opened PhysmemModel

  class FrameAllocator {
    const regions: array<Region>
    const recycled: array<nat>
    var regionCount: nat
    var recycledCount: nat
    var current: nat
    var next: nat
    var protectedUntil: nat
    var used: nat
    var totalUsable: nat
    var allocatable: nat
    var skipped: nat

    ghost predicate Valid()
      reads this, regions, recycled
    {
      && regions.Length == MAX_REGIONS && recycled.Length == MAX_RECYCLED
      && regionCount <= MAX_REGIONS && recycledCount <= MAX_RECYCLED
    }

    ghost function Model(): Allocator
      requires Valid()
      reads this, regions, recycled
    {
      Allocator(regions[..regionCount], current, next, recycled[..recycledCount], protectedUntil,
                used, totalUsable, allocatable, skipped)
    }

    /** Boot: the regions of the memory map in order, above the protected area. */
    constructor (limit: nat, boot: seq<BootRegion>)
      ensures Valid() && Model() == Boot(limit, boot) && fresh(regions) && fresh(recycled)
    {
      regions := new Region[MAX_REGIONS](_ => Region(0, 0));
      recycled := new nat[MAX_RECYCLED](_ => 0);
      regionCount, recycledCount, current, next, protectedUntil := 0, 0, 0, 0, limit;
      used, totalUsable, allocatable, skipped := 0, 0, 0, 0;
      new;
      var i := 0;
      while i < |boot|
        invariant 0 <= i <= |boot| && Valid()
        invariant Model() == AddRegions(Allocator([], 0, 0, [], limit, 0, 0, 0, 0), boot[..i])
      {
        AddMemoryRegion(boot[i]);
        assert boot[..i + 1][..i] == boot[..i] && boot[..i + 1][i] == boot[i];
        i := i + 1;
      }
      assert boot[..i] == boot;
      if regionCount > 0 {
        next := regions[0].start;
      }
    }

    method AddMemoryRegion(r: BootRegion)
      requires Valid()
      modifies this`totalUsable, this`skipped, this`allocatable, this`regionCount, regions
      ensures Valid() && Model() == AddRegion(old(Model()), r)
    {
      if !r.available || r.length < FRAME {
        return;
      }
      var start, end := AlignUp(r.base), AlignDown(SaturatingAdd(r.base, r.length));
      if end <= start {
        return;
      }
      totalUsable := totalUsable + (end - start) / FRAME;
      if end <= protectedUntil {
        skipped := skipped + (end - start) / FRAME;
        return;
      }
      var from := Max(start, protectedUntil);
      skipped := skipped + (from - start) / FRAME;
      if regionCount < MAX_REGIONS {
        allocatable := allocatable + (end - from) / FRAME;
        regions[regionCount] := Region(from, end);
        regionCount := regionCount + 1;
      } else {
        skipped := skipped + (end - from) / FRAME;
      }
    }

    method Allocate() returns (r: Option<nat>)
      requires Valid()
      modifies this`recycledCount, this`used, this`current, this`next, recycled
      ensures Valid() && Model() == AllocateFrame(old(Model())).0 && r == AllocateFrame(old(Model())).1
    {
      if recycledCount > 0 {
        recycledCount := recycledCount - 1;
        var frame := recycled[recycledCount];
        recycled[recycledCount] := 0;
        used := used + 1;
        return Some(frame);
      }
      r := Bump();
    }

    /** The search for the next frame never handed out. */
    method Bump() returns (r: Option<nat>)
      requires Valid()
      modifies this`used, this`current, this`next
      ensures Valid() && Model() == TakeFresh(old(Model())).0 && r == TakeFresh(old(Model())).1
    {
      while current < regionCount
        invariant Valid() && TakeFresh(Model()) == TakeFresh(old(Model()))
        decreases regionCount - current
      {
        var region := regions[current];
        if next < region.start {
          next := region.start;
        }
        if next < region.end {
          var frame := next;
          next := SaturatingAdd(next, FRAME);
          used := used + 1;
          return Some(frame);
        }
        current := current + 1;
        if current < regionCount {
          next := regions[current].start;
        }
      }
      r := None;
    }

    method IsIssued(frame: nat) returns (issued: bool)
      requires Valid()
      ensures issued == IssuedFrom(Model(), frame, 0)
    {
      var index := 0;
      while index < regionCount
        invariant 0 <= index <= regionCount
        invariant IssuedFrom(Model(), frame, 0) == IssuedFrom(Model(), frame, index)
      {
        var region := regions[index];
        if region.start <= frame < region.end {
          return index < current || (index == current && frame < next);
        }
        index := index + 1;
      }
      issued := false;
    }

    method Free(frame: nat) returns (ok: bool)
      requires Valid()
      modifies this`recycledCount, this`used, recycled
      ensures Valid() && Model() == FreeFrame(old(Model()), frame).0 && ok == FreeFrame(old(Model()), frame).1
    {
      var issued := IsIssued(frame);
      if !FrameAligned(frame) || frame < protectedUntil || !issued {
        return false;
      }
      if recycledCount >= MAX_RECYCLED {
        return false;
      }
      var index := 0;
      while index < recycledCount
        invariant 0 <= index <= recycledCount
        invariant forall k :: 0 <= k < index ==> recycled[k] != frame
      {
        if recycled[index] == frame {
          assert Model().recycled[index] == frame;
          return false;
        }
        index := index + 1;
      }
      assert frame !in Model().recycled;
      recycled[recycledCount] := frame;
      recycledCount := recycledCount + 1;
      used := if used > 0 then used - 1 else 0;
      assert Model().recycled == old(Model()).recycled + [frame];
      ok := true;
    }
  }
}
