/** What a loaded image looks like: every byte of every page, permissions, stack and guard. */
module LoaderLaws {
  import opened Common
  import opened PagingModel
  import opened SpaceModel
  import opened SpaceLaws
  import opened LoaderModel
  import opened LoaderPages
  import opened LoaderBytes
  import E = ElfModel
  import EL = ElfLaws

  // ---- reading through a translation

  /** What a program reads at `va` when addresses translate by `walk`. */
  function ByteAt(walk: nat -> Option<Leaf>, w: World, va: nat): Option<Byte>
  {
    match walk(va)
    case None => None
    case Some(l) => if l.huge then None else Some(FrameBytes(w, l.frame)[va % PAGE])
  }

  /** Address `va` is mapped for the user with the segment's permissions and holds the byte its header assigns. */
  ghost predicate LoadedAt(walk: nat -> Option<Leaf>, w: World, image: seq<Byte>, segment: E.Segment, va: nat)
    requires segment.offset + segment.fileSize <= |image|
  {
    && walk(va).Some? && walk(va).value.user && !walk(va).value.huge
    && walk(va).value.writable == segment.writable && walk(va).value.executable == segment.executable
    && ByteAt(walk, w, va) == Some(if InFile(segment, va) then FileByte(image, segment, va) else 0)
  }

  /** A zeroed, writable, not executable byte of the stack page. */
  ghost predicate StackByte(walk: nat -> Option<Leaf>, w: World, va: nat)
  {
    walk(va).Some? && walk(va).value.writable && !walk(va).value.executable && ByteAt(walk, w, va) == Some(0)
  }

  ghost predicate Loaded(walk: nat -> Option<Leaf>, w: World, image: seq<Byte>, segments: seq<E.Segment>)
    requires FileInside(segments, image)
  {
    && (forall i, va: nat :: 0 <= i < |segments| && E.PageStart(segments[i]) <= va < E.PageEnd(segments[i]) ==>
          LoadedAt(walk, w, image, segments[i], va))
    && (forall va: nat :: E.STACK_PAGE <= va < STACK_TOP ==> StackByte(walk, w, va))
    && walk(E.STACK_GUARD).None?
  }

  // ---- from requests to pages

  /** The space maps exactly the requested pages, zeroed. */
  ghost predicate Furnished(w: World, s: Space, requests: seq<Request>)
  {
    && |s.pages| == |requests|
    && (forall i :: 0 <= i < |s.pages| ==> Answers(s.pages[i], requests[i]) && Zeroed(w, s.pages[i].frame))
  }

  /** Every address of a listed page translates into that page's frame. */
  ghost predicate Sees(walk: nat -> Option<Leaf>, s: Space)
  {
    forall k, va: nat :: 0 <= k < |s.pages| && va - va % PAGE == s.pages[k].virt ==> walk(va) == Some(PageLeafOf(s.pages[k]))
  }

  ghost predicate SeesPhys(phys: nat -> Option<nat>, s: Space)
  {
    forall k, va: nat :: 0 <= k < |s.pages| && va - va % PAGE == s.pages[k].virt ==> phys(va) == Some(s.pages[k].frame + va % PAGE)
  }

  lemma SeesPhysOk(walk: nat -> Option<Leaf>, s: Space)
    requires Sees(walk, s)
    ensures SeesPhys(PhysOf(walk), s)
  {
    forall k, va: nat | 0 <= k < |s.pages| && va - va % PAGE == s.pages[k].virt
      ensures PhysOf(walk)(va) == Some(s.pages[k].frame + va % PAGE)
    {
      assert walk(va) == Some(PageLeafOf(s.pages[k]));
    }
  }

  lemma {:induction false} FindRequest(segments: seq<E.Segment>, size: nat, i: nat, va: nat) returns (j: nat)
    requires i < |segments| && (forall k :: 0 <= k < |segments| ==> EL.SegmentOk(segments[k], size))
    requires E.PageStart(segments[i]) <= va < E.PageEnd(segments[i])
    ensures j < |PlanPages(segments)|
    ensures PlanPages(segments)[j] == Request(va - va % PAGE, segments[i].writable, segments[i].executable)
  {
    var (before, s) := (segments[..|segments| - 1], segments[|segments| - 1]);
    if i < |segments| - 1 {
      j := FindRequest(before, size, i, va);
    } else {
      EL.PageBounds(s, size);
      var k := (va - E.PageStart(s)) / PAGE;
      PageOffset(E.PageStart(s), va, k, E.PageCount(s));
      assert SegmentPages(s)[k] == Request(va - va % PAGE, s.writable, s.executable);
      j := |PlanPages(before)| + k;
    }
  }

  lemma PageOffset(start: nat, va: nat, k: nat, n: nat)
    requires start % PAGE == 0 && start <= va < start + PAGE * n && k == (va - start) / PAGE
    ensures k < n && start + PAGE * k == va - va % PAGE
  {
  }

  /** The page of the space that holds an address of segment `i`. */
  lemma SegmentPage(w: World, s: Space, plan: E.Plan, size: nat, i: nat, va: nat) returns (j: nat)
    requires EL.PlanOk(plan, size) && Furnished(w, s, AllRequests(plan))
    requires i < |plan.segments| && E.PageStart(plan.segments[i]) <= va < E.PageEnd(plan.segments[i])
    ensures j < |s.pages| && s.pages[j].virt == va - va % PAGE && Zeroed(w, s.pages[j].frame)
    ensures s.pages[j].writable == plan.segments[i].writable && s.pages[j].executable == plan.segments[i].executable
  {
    j := FindRequest(plan.segments, size, i, va);
    assert AllRequests(plan)[j] == PlanPages(plan.segments)[j];
    assert Answers(s.pages[j], AllRequests(plan)[j]);
  }

  lemma AllReachedOk(phys: nat -> Option<nat>, w: World, s: Space, plan: E.Plan, size: nat)
    requires SeesPhys(phys, s) && EL.PlanOk(plan, size) && Furnished(w, s, AllRequests(plan))
    ensures AllReached(phys, s, plan.segments, size)
  {
    forall i | 0 <= i < |plan.segments| ensures Reaches(phys, s, plan.segments[i]) {
      forall va: nat | E.PageStart(plan.segments[i]) <= va < E.PageEnd(plan.segments[i]) ensures ReachedAt(phys, s, va) {
        var j := SegmentPage(w, s, plan, size, i, va);
        assert phys(va) == Some(s.pages[j].frame + va % PAGE);
      }
    }
  }

  // ---- contents and permissions

  lemma ZeroBytes(w: World, s: Space, k: nat, x: nat)
    requires k < |s.pages| && x < PAGE && Zeroed(w, s.pages[k].frame)
    ensures PageByte(w, s, k, x) == 0
  {
  }

  /** Contents after copying, page by page. */
  ghost predicate Overlaid(w: World, w': World, s: Space, image: seq<Byte>, segments: seq<E.Segment>)
    requires FileInside(segments, image)
  {
    forall k: nat, x: nat :: k < |s.pages| && x < PAGE ==>
      PageByte(w', s, k, x) == Overlay(image, segments, s.pages[k].virt + x, PageByte(w, s, k, x))
  }

  lemma SegmentLoaded(
    walk: nat -> Option<Leaf>, w: World, w': World, s: Space, image: seq<Byte>, plan: E.Plan, i: nat, va: nat)
    requires Sees(walk, s) && EL.PlanOk(plan, |image|) && FileInside(plan.segments, image)
    requires Furnished(w, s, AllRequests(plan)) && Overlaid(w, w', s, image, plan.segments)
    requires i < |plan.segments| && E.PageStart(plan.segments[i]) <= va < E.PageEnd(plan.segments[i])
    ensures LoadedAt(walk, w', image, plan.segments[i], va)
  {
    var j := SegmentPage(w, s, plan, |image|, i, va);
    assert walk(va) == Some(PageLeafOf(s.pages[j]));
    assert ByteAt(walk, w', va) == Some(PageByte(w', s, j, va % PAGE));
    ZeroBytes(w, s, j, va % PAGE);
    OverlayOne(image, plan.segments, i, va, 0);
  }

  lemma StackLoaded(walk: nat -> Option<Leaf>, w: World, w': World, s: Space, image: seq<Byte>, plan: E.Plan, va: nat)
    requires Sees(walk, s) && EL.PlanOk(plan, |image|) && FileInside(plan.segments, image)
    requires Furnished(w, s, AllRequests(plan)) && Overlaid(w, w', s, image, plan.segments)
    requires E.STACK_PAGE <= va < STACK_TOP
    ensures StackByte(walk, w', va)
  {
    var j := |PlanPages(plan.segments)|;
    assert AllRequests(plan)[j] == STACK_REQUEST;
    assert Answers(s.pages[j], STACK_REQUEST);
    assert va - va % PAGE == E.STACK_PAGE;
    assert walk(va) == Some(PageLeafOf(s.pages[j]));
    assert ByteAt(walk, w', va) == Some(PageByte(w', s, j, va % PAGE));
    ZeroBytes(w, s, j, va % PAGE);
    forall k | 0 <= k < |plan.segments| ensures !InFile(plan.segments[k], va) { EL.PageBounds(plan.segments[k], |image|); }
    OverlayNone(image, plan.segments, va, 0);
  }

  lemma LoadedOk(walk: nat -> Option<Leaf>, w: World, w': World, s: Space, image: seq<Byte>, plan: E.Plan)
    requires Sees(walk, s) && walk(E.STACK_GUARD).None? && EL.PlanOk(plan, |image|) && FileInside(plan.segments, image)
    requires Furnished(w, s, AllRequests(plan)) && Overlaid(w, w', s, image, plan.segments)
    ensures Loaded(walk, w', image, plan.segments)
  {
    forall i, va: nat | 0 <= i < |plan.segments| && E.PageStart(plan.segments[i]) <= va < E.PageEnd(plan.segments[i])
      ensures LoadedAt(walk, w', image, plan.segments[i], va)
    {
      SegmentLoaded(walk, w, w', s, image, plan, i, va);
    }
    forall va: nat | E.STACK_PAGE <= va < STACK_TOP ensures StackByte(walk, w', va) { StackLoaded(walk, w, w', s, image, plan, va); }
  }

  /** No request asks for the guard page. */
  lemma GuardNotListed(w: World, s: Space, requests: seq<Request>)
    requires RequestsOk(requests) && Furnished(w, s, requests)
    ensures !Listed(s.pages, PageOf(E.STACK_GUARD))
  {
    forall k | 0 <= k < |s.pages| ensures PageOf(s.pages[k].virt) != PageOf(E.STACK_GUARD) {
      assert Answers(s.pages[k], requests[k]) && RequestOk(requests[k]);
      AlignedPages(s.pages[k].virt, E.STACK_GUARD);
    }
  }
}
