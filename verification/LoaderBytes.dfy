/** Copying segment contents: every byte lands where the program header puts it. */
module LoaderBytes {
  import opened Common
  import opened PagingModel
  import opened PagingTree
  import opened PagingLaws
  import opened SpaceModel
  import opened SpaceTree
  import opened SpaceLaws
  import opened SpaceUser
  import opened LoaderModel
  import E = ElfModel
  import EL = ElfLaws
  import F = PhysmemModel
  import FL = PhysmemLaws

  // ---- reading through an address space

  /** Byte `x` of the `k`-th page of the space. */
  function PageByte(w: World, s: Space, k: nat, x: nat): Byte
    requires k < |s.pages| && x < PAGE
  {
    FrameBytes(w, s.pages[k].frame)[x]
  }

  lemma InUseAligned(a: F.Allocator, f: nat)
    requires FL.Inv(a) && f in F.InUse(a)
    ensures Aligned(f)
  {
    FL.IssuedThenFresh(a);
    assert f in F.Issued(a) + F.Fresh(a);
    FL.FrameOk(a, f);
  }

  lemma PageFrameOwned(s: Space, k: nat)
    requires k < |s.pages|
    ensures s.pages[k].frame in Elements(Own(s)) && Own(s)[|s.tables| + k] == s.pages[k].frame
  {
    assert Own(s)[|s.tables| + k] == s.pages[k].frame;
  }

  /** Any address in a mapped page translates into that page's frame at the same offset. */
  lemma PageWalk(w: World, s: Space, tree: Tree, k: nat, va: nat)
    requires SpaceInv(w, s, tree) && k < |s.pages| && PageOf(va) == PageOf(s.pages[k].virt)
    ensures UserWalk(w, s, va) == Some(PageLeafOf(s.pages[k]))
    ensures var t := SpaceTranslate(w, s, va);
            && t.mapped && t.user && t.phys == s.pages[k].frame + va % PAGE && t.writable == s.pages[k].writable
            && t.executable == s.pages[k].executable
    ensures Aligned(s.pages[k].frame) && va == s.pages[k].virt + va % PAGE
  {
    SamePagePath(va, s.pages[k].virt);
    WalkRoot(w.mem, s.root, tree, va);
    PageFrameOwned(s, k);
    InUseAligned(w.frames, s.pages[k].frame);
  }

  /** Pages are aligned and no two share an address or a frame. */
  ghost predicate Layout(s: Space)
  {
    && (forall i :: 0 <= i < |s.pages| ==> Aligned(s.pages[i].virt) && Aligned(s.pages[i].frame))
    && (forall i, j :: 0 <= i < j < |s.pages| ==> s.pages[i].virt != s.pages[j].virt && s.pages[i].frame != s.pages[j].frame)
  }

  lemma LayoutOk(w: World, s: Space, tree: Tree)
    requires SpaceInv(w, s, tree)
    ensures Layout(s)
  {
    forall i | 0 <= i < |s.pages| ensures Aligned(s.pages[i].frame) {
      PageFrameOwned(s, i);
      InUseAligned(w.frames, s.pages[i].frame);
    }
    forall i, j | 0 <= i < j < |s.pages| ensures s.pages[i].frame != s.pages[j].frame {
      PageFrameOwned(s, i);
      PageFrameOwned(s, j);
    }
  }

  // ---- one write

  lemma Overwritten(page: seq<Byte>, at: nat, data: seq<Byte>, x: nat)
    requires at + |data| <= |page| && x < |page|
    ensures Overwrite(page, at, data)[x] == if at <= x < at + |data| then data[x - at] else page[x]
  {
  }

  /** Writing inside one page changes the bytes written and no others. */
  lemma WritePage(w: World, s: Space, k: nat, at: nat, data: seq<Byte>, j: nat, x: nat)
    requires Layout(s) && k < |s.pages| && at + |data| <= PAGE && j < |s.pages| && x < PAGE
    requires at < PAGE && (s.pages[k].frame + at) % PAGE == at
    ensures PageByte(WriteBytes(w, s.pages[k].frame + at, data), s, j, x)
            == if j == k && at <= x < at + |data| then data[x - at] else PageByte(w, s, j, x)
  {
    Overwritten(FrameBytes(w, s.pages[k].frame), at, data, x);
  }

  // ---- one segment

  /** `phys` leads every address of the segment's pages to its page's frame. */
  ghost predicate Reaches(phys: nat -> Option<nat>, s: Space, segment: E.Segment)
  {
    forall va: nat :: E.PageStart(segment) <= va < E.PageEnd(segment) ==> ReachedAt(phys, s, va)
  }

  ghost predicate ReachedAt(phys: nat -> Option<nat>, s: Space, va: nat)
  {
    exists k :: 0 <= k < |s.pages| && va == s.pages[k].virt + va % PAGE && phys(va) == Some(s.pages[k].frame + va % PAGE)
  }

  predicate InFile(segment: E.Segment, va: int) { segment.address <= va < segment.address + segment.fileSize }

  function FileByte(image: seq<Byte>, segment: E.Segment, va: int): Byte
    requires segment.offset + segment.fileSize <= |image| && InFile(segment, va)
  {
    image[segment.offset + (va - segment.address)]
  }

  /** Only pages of the space were written. */
  ghost predicate WrotePages(w: World, w': World, s: Space)
  {
    && w'.mem == w.mem && w'.frames == w.frames
    && forall f :: f !in PageFrames(s) ==> SameBytes(w, w', f)
  }

  /** After copying from `copied` on: file bytes where the header puts them, all other bytes as before. */
  ghost predicate Copied(w: World, w': World, s: Space, image: seq<Byte>, segment: E.Segment, copied: nat)
    requires segment.offset + segment.fileSize <= |image|
  {
    && WrotePages(w, w', s)
    && forall k: nat, x: nat :: k < |s.pages| && x < PAGE ==>
         PageByte(w', s, k, x)
         == if InFile(segment, s.pages[k].virt + x) && segment.address + copied <= s.pages[k].virt + x
            then FileByte(image, segment, s.pages[k].virt + x) else PageByte(w, s, k, x)
  }

  lemma ChunkOk(segment: E.Segment, copied: nat)
    requires copied < segment.fileSize
    ensures 0 < Chunk(segment, copied) <= segment.fileSize - copied
    ensures (segment.address + copied) % PAGE + Chunk(segment, copied) <= PAGE
  {
  }

  /** One chunk written to page `k`, the rest copied after it. */
  lemma CopyStep(
    w: World, w1: World, w2: World, s: Space, image: seq<Byte>, segment: E.Segment, copied: nat, k: nat, at: nat, n: nat)
    requires Layout(s) && segment.offset + segment.fileSize <= |image| && 0 < n && copied + n <= segment.fileSize
    requires k < |s.pages| && at < PAGE && at + n <= PAGE && (s.pages[k].frame + at) % PAGE == at
    requires s.pages[k].virt + at == segment.address + copied
    requires w1 == WriteBytes(w, s.pages[k].frame + at, image[segment.offset + copied..segment.offset + copied + n])
    requires Copied(w1, w2, s, image, segment, copied + n)
    ensures Copied(w, w2, s, image, segment, copied)
  {
    var data := image[segment.offset + copied..segment.offset + copied + n];
    assert PageFrames(s)[k] == s.pages[k].frame;
    forall j: nat, x: nat | j < |s.pages| && x < PAGE
      ensures PageByte(w2, s, j, x)
              == if InFile(segment, s.pages[j].virt + x) && segment.address + copied <= s.pages[j].virt + x
                 then FileByte(image, segment, s.pages[j].virt + x) else PageByte(w, s, j, x)
    {
      WritePage(w, s, k, at, data, j, x);
      if j != k { AlignedApart(s.pages[j].virt, s.pages[k].virt); }
    }
  }

  lemma AlignedApart(a: nat, b: nat)
    requires Aligned(a) && Aligned(b) && a != b
    ensures a + PAGE <= b || b + PAGE <= a
  {
  }

  lemma {:induction false} CopyFromOk(
    w: World, phys: nat -> Option<nat>, s: Space, image: seq<Byte>, segment: E.Segment, copied: nat)
    requires Layout(s) && EL.SegmentOk(segment, |image|) && Reaches(phys, s, segment) && copied <= segment.fileSize
    ensures CopyFrom(w, phys, image, segment, copied).1
    ensures Copied(w, CopyFrom(w, phys, image, segment, copied).0, s, image, segment, copied)
    decreases segment.fileSize - copied
  {
    if copied < segment.fileSize {
      var k, at := NextPage(phys, s, segment, |image|, copied);
      var w1 := WriteBytes(w, s.pages[k].frame + at, NextBytes(image, segment, copied));
      var n := Chunk(segment, copied);
      CopyFromOk(w1, phys, s, image, segment, copied + n);
      CopyJoin(w, w1, CopyFrom(w1, phys, image, segment, copied + n).0, phys, s, image, segment, copied, k, at);
    } else {
      assert CopyFrom(w, phys, image, segment, copied) == (w, true);
    }
  }

  /** The page and offset that take the next chunk. */
  lemma NextPage(phys: nat -> Option<nat>, s: Space, segment: E.Segment, size: nat, copied: nat) returns (k: nat, at: nat)
    requires Layout(s) && EL.SegmentOk(segment, size) && Reaches(phys, s, segment) && copied < segment.fileSize
    ensures at == (segment.address + copied) % PAGE && at + Chunk(segment, copied) <= PAGE
    ensures 0 < Chunk(segment, copied) && copied + Chunk(segment, copied) <= segment.fileSize
    ensures k < |s.pages| && (s.pages[k].frame + at) % PAGE == at && s.pages[k].virt + at == segment.address + copied
    ensures phys(segment.address + copied) == Some(s.pages[k].frame + at)
  {
    var va := segment.address + copied;
    EL.PageBounds(segment, size);
    assert ReachedAt(phys, s, va);
    var i :| 0 <= i < |s.pages| && va == s.pages[i].virt + va % PAGE && phys(va) == Some(s.pages[i].frame + va % PAGE);
    k, at := i, va % PAGE;
    ChunkOk(segment, copied);
    OffsetOk(s.pages[k].frame, at);
  }

  /** One chunk, then the rest. */
  lemma CopyJoin(
    w: World, w1: World, w2: World, phys: nat -> Option<nat>, s: Space, image: seq<Byte>, segment: E.Segment, copied: nat, k: nat, at: nat)
    requires Layout(s) && segment.offset + segment.fileSize <= |image| && copied < segment.fileSize
    requires at == (segment.address + copied) % PAGE && at + Chunk(segment, copied) <= PAGE
    requires k < |s.pages| && (s.pages[k].frame + at) % PAGE == at && s.pages[k].virt + at == segment.address + copied
    requires phys(segment.address + copied) == Some(s.pages[k].frame + at)
    requires w1 == WriteBytes(w, s.pages[k].frame + at, NextBytes(image, segment, copied))
    requires CopyFrom(w1, phys, image, segment, copied + Chunk(segment, copied)) == (w2, true)
    requires Copied(w1, w2, s, image, segment, copied + Chunk(segment, copied))
    ensures CopyFrom(w, phys, image, segment, copied) == (w2, true) && Copied(w, w2, s, image, segment, copied)
  {
    CopyFromStep(w, phys, image, segment, copied, s.pages[k].frame + at);
    CopiedNext(w, w1, w2, s, image, segment, copied, k, at);
  }

  lemma CopiedNext(
    w: World, w1: World, w2: World, s: Space, image: seq<Byte>, segment: E.Segment, copied: nat, k: nat, at: nat)
    requires Layout(s) && segment.offset + segment.fileSize <= |image| && copied < segment.fileSize
    requires at == (segment.address + copied) % PAGE && at + Chunk(segment, copied) <= PAGE
    requires k < |s.pages| && (s.pages[k].frame + at) % PAGE == at && s.pages[k].virt + at == segment.address + copied
    requires w1 == WriteBytes(w, s.pages[k].frame + at, NextBytes(image, segment, copied))
    requires Copied(w1, w2, s, image, segment, copied + Chunk(segment, copied))
    ensures Copied(w, w2, s, image, segment, copied)
  {
    ChunkOk(segment, copied);
    CopyStep(w, w1, w2, s, image, segment, copied, k, at, Chunk(segment, copied));
  }

  lemma OffsetOk(frame: nat, at: nat)
    requires Aligned(frame) && at < PAGE
    ensures (frame + at) % PAGE == at
  {
  }

  // ---- all segments

  /** What the byte at `va` becomes when the segments are copied over `b` one after the other. */
  function Overlay(image: seq<Byte>, segments: seq<E.Segment>, va: int, b: Byte): Byte
    requires FileInside(segments, image)
    decreases |segments|
  {
    if segments == [] then b
    else Overlay(image, segments[1..], va, if InFile(segments[0], va) then FileByte(image, segments[0], va) else b)
  }

  ghost predicate AllReached(phys: nat -> Option<nat>, s: Space, segments: seq<E.Segment>, size: nat)
  {
    forall i :: 0 <= i < |segments| ==> EL.SegmentOk(segments[i], size) && Reaches(phys, s, segments[i])
  }

  lemma {:induction false} CopyAllOk(w: World, phys: nat -> Option<nat>, s: Space, image: seq<Byte>, segments: seq<E.Segment>)
    requires Layout(s) && AllReached(phys, s, segments, |image|) && FileInside(segments, image)
    ensures var (w', ok) := CopyAll(w, phys, image, segments);
            && ok && WrotePages(w, w', s)
            && forall k: nat, x: nat :: k < |s.pages| && x < PAGE ==>
                 PageByte(w', s, k, x) == Overlay(image, segments, s.pages[k].virt + x, PageByte(w, s, k, x))
    decreases |segments|
  {
    if segments != [] {
      CopyFromOk(w, phys, s, image, segments[0], 0);
      var w1 := CopyFrom(w, phys, image, segments[0], 0).0;
      CopyAllOk(w1, phys, s, image, segments[1..]);
    }
  }

  /** With page-disjoint segments, the segment a page belongs to decides each of its bytes. */
  lemma {:induction false} OverlayOne(image: seq<Byte>, segments: seq<E.Segment>, i: nat, va: nat, b: Byte)
    requires FileInside(segments, image) && EL.PageDisjoint(segments) && i < |segments|
    requires forall k :: 0 <= k < |segments| ==> EL.SegmentOk(segments[k], |image|)
    requires E.PageStart(segments[i]) <= va < E.PageEnd(segments[i])
    ensures Overlay(image, segments, va, b) == if InFile(segments[i], va) then FileByte(image, segments[i], va) else b
    decreases |segments|
  {
    var rest := segments[1..];
    assert forall k :: 0 <= k < |rest| ==> rest[k] == segments[k + 1];
    if i == 0 {
      forall k | 0 <= k < |rest| ensures !InFile(rest[k], va) { NotElsewhere(segments, 0, k + 1, va, |image|); }
      OverlayNone(image, rest, va, if InFile(segments[0], va) then FileByte(image, segments[0], va) else b);
    } else {
      NotElsewhere(segments, i, 0, va, |image|);
      OverlayOne(image, rest, i - 1, va, b);
    }
  }

  lemma {:induction false} OverlayNone(image: seq<Byte>, segments: seq<E.Segment>, va: int, b: Byte)
    requires FileInside(segments, image) && forall k :: 0 <= k < |segments| ==> !InFile(segments[k], va)
    ensures Overlay(image, segments, va, b) == b
    decreases |segments|
  {
    if segments != [] { OverlayNone(image, segments[1..], va, b); }
  }

  /** An address in the pages of one segment is not in the file range of another. */
  lemma NotElsewhere(segments: seq<E.Segment>, i: nat, j: nat, va: nat, size: nat)
    requires EL.PageDisjoint(segments) && i < |segments| && j < |segments| && i != j
    requires EL.SegmentOk(segments[i], size) && EL.SegmentOk(segments[j], size)
    requires E.PageStart(segments[i]) <= va < E.PageEnd(segments[i])
    ensures !InFile(segments[j], va)
  {
    EL.PageBounds(segments[j], size);
    assert i < j ==> !E.Overlaps(segments[j], segments[i]);
    assert j < i ==> !E.Overlaps(segments[i], segments[j]);
  }
}
