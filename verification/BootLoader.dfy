/** Loading into the boot address space as the kernel runs it, on the mapper's own tables. */
module BootLoader {
  import opened Common
  import opened PagingModel
  import opened LoaderModel
  import opened LoaderBoot
  import SM = SpaceModel
  import LP = LoaderPages
  import E = ElfModel
  import Elf
  import Paging

  /** Maps the requested pages in order, stopping at the first failure. */
  method MapBootPages(mapper: Paging.MapperState, bytes: Bytes, requests: seq<Request>)
    returns (contents: Bytes, pages: seq<Page>, failed: Option<BootError>)
    requires mapper.Valid()
    modifies mapper, mapper.records
    ensures mapper.Valid()
    ensures (mapper.Model(), contents, pages, failed) == MapPages(old(mapper.Model()), bytes, [], requests)
  {
    contents, pages, failed := bytes, [], None;
    ghost var target := MapPages(mapper.Model(), bytes, [], requests);
    var rest := requests;
    while rest != []
      invariant mapper.Valid() && failed.None? && MapPages(mapper.Model(), contents, pages, rest) == target
      decreases |rest|
    {
      var q := rest[0];
      if Translate(mapper.mem, mapper.root, q.virt).mapped {
        failed := Some(TargetPageAlreadyMapped);
        return;
      }
      var r := mapper.MapNewPage(q.virt, SM.UserFlags(q.writable, q.executable), UserPage);
      if r.Err? {
        failed := Some(MappingFailed(r.error));
        return;
      }
      contents := contents[r.value := SM.ZeroPage()];
      pages := pages + [SM.MappedPage(q.virt, r.value, q.writable, q.executable)];
      rest := rest[1..];
    }
  }

  /** Unmaps the pages, last one first, and frees their frames. */
  method RollbackMappings(mapper: Paging.MapperState, pages: seq<Page>)
    requires mapper.Valid()
    modifies mapper, mapper.records
    ensures mapper.Valid() && mapper.Model() == Rollback(old(mapper.Model()), pages)
  {
    ghost var target := Rollback(mapper.Model(), pages);
    var remaining := |pages|;
    assert pages[..remaining] == pages;
    while remaining > 0
      invariant 0 <= remaining <= |pages| && mapper.Valid() && Rollback(mapper.Model(), pages[..remaining]) == target
    {
      remaining := remaining - 1;
      assert pages[..remaining + 1][..remaining] == pages[..remaining];
      var r := mapper.UnmapPage(pages[remaining].virt);
      if r.Ok? {
        mapper.pool := [r.value] + mapper.pool;
      }
    }
  }

  method LoadBootImage(mapper: Paging.MapperState, bytes: Bytes, image: seq<Byte>)
    returns (contents: Bytes, r: Result<seq<Page>, BootError>)
    requires mapper.Valid()
    modifies mapper, mapper.records
    ensures mapper.Valid() && (mapper.Model(), contents, r) == LoadImage(old(mapper.Model()), bytes, image)
  {
    PlansInside(image);
    var validated := Elf.ValidateImage(image);
    if validated.Err? {
      return bytes, Err(Rejected(validated.error));
    }
    var plan := validated.value;
    var pages, failed;
    contents, pages, failed := MapBootPages(mapper, bytes, LP.AllRequests(plan));
    if failed.Some? {
      RollbackMappings(mapper, pages);
      return contents, Err(failed.value);
    }
    var copied := CopyAll(Contents(contents), PhysOf(WalkFrom(mapper.mem, mapper.root)), image, plan.segments);
    contents := copied.0.bytes;
    if !copied.1 {
      RollbackMappings(mapper, pages);
      return contents, Err(Lost);
    }
    r := Ok(pages);
  }
}
