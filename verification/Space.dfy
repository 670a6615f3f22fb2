/** Address spaces as the kernel keeps them: frame lists in arrays, tables edited through memory. */
module SpaceImpl {
  import opened Common
  import opened PagingModel
  import opened SpaceModel
  import F = PhysmemModel
  import Physmem

  /** Physical memory and the frame allocator, shared by all address spaces. */
  class Machine {
    var mem: Memory
    var bytes: map<nat, seq<Byte>>
    const allocator: Physmem.FrameAllocator

    ghost predicate Valid()
      reads this, allocator, allocator.regions, allocator.recycled
    {
      allocator.Valid()
    }

    ghost function Model(): World
      requires Valid()
      reads this, allocator, allocator.regions, allocator.recycled
    {
      World(mem, bytes, allocator.Model())
    }

    constructor (a: Physmem.FrameAllocator, tables: Memory)
      requires a.Valid()
      ensures Valid() && allocator == a && mem == tables && bytes == map[]
    {
      allocator, mem, bytes := a, tables, map[];
    }

    method AllocateZeroed() returns (r: Result<nat, SpaceError>)
      requires Valid()
      modifies this, allocator, allocator.regions, allocator.recycled
      ensures Valid() && Model() == TakeZeroed(old(Model())).0 && r == TakeZeroed(old(Model())).1
    {
      var frame := allocator.Allocate();
      if frame.None? {
        return Err(NoFrames);
      }
      var f := frame.value;
      if f >= IDENTITY_BYTES {
        var returned := allocator.Free(f);
        return Err(FrameNotReachable);
      }
      mem := mem[f := ZeroTable()];
      bytes := bytes[f := ZeroPage()];
      r := Ok(f);
    }

    /** Frees the listed frames in order. */
    method FreeAll(list: seq<nat>) returns (n: nat)
      requires Valid()
      modifies allocator, allocator.recycled
      ensures Valid() && mem == old(mem) && bytes == old(bytes)
      ensures allocator.Model() == FreeEach(old(allocator.Model()), list).0 && n == FreeEach(old(allocator.Model()), list).1
    {
      n := 0;
      var k := 0;
      while k < |list|
        invariant 0 <= k <= |list| && Valid() && mem == old(mem) && bytes == old(bytes)
        invariant FreeEach(old(allocator.Model()), list)
                  == (FreeEach(allocator.Model(), list[k..]).0, n + FreeEach(allocator.Model(), list[k..]).1)
      {
        assert list[k..][0] == list[k] && list[k..][1..] == list[k + 1..];
        var ok := allocator.Free(list[k]);
        if ok {
          n := n + 1;
        }
        k := k + 1;
      }
      assert list[k..] == [];
    }
  }

  class AddressSpace {
    const machine: Machine
    const tableFrames: array<nat>
    const userPages: array<MappedPage>
    var root: nat
    var tableCount: nat
    var pageCount: nat
    var active: bool

    ghost predicate Valid()
      reads this, tableFrames, userPages, machine, machine.allocator, machine.allocator.regions, machine.allocator.recycled
    {
      && machine.Valid() && tableFrames.Length == MAX_TABLES && userPages.Length == MAX_PAGES
      && tableCount <= MAX_TABLES && pageCount <= MAX_PAGES && tableFrames != machine.allocator.recycled
    }

    ghost function Model(): Space
      requires tableCount <= tableFrames.Length && pageCount <= userPages.Length
      reads this, tableFrames, userPages
    {
      Space(root, tableFrames[..tableCount], userPages[..pageCount], active)
    }

    /** An empty, inactive space. */
    constructor (m: Machine)
      requires m.Valid()
      ensures Valid() && machine == m && Model() == NO_SPACE && fresh(tableFrames) && fresh(userPages)
    {
      machine := m;
      tableFrames := new nat[MAX_TABLES](_ => 0);
      userPages := new MappedPage[MAX_PAGES](_ => MappedPage(0, 0, false, false));
      root, tableCount, pageCount, active := 0, 0, 0, false;
    }

    method AllocateTable() returns (r: Result<nat, SpaceError>)
      requires Valid()
      modifies this`tableCount, tableFrames, machine, machine.allocator, machine.allocator.regions, machine.allocator.recycled
      ensures Valid()
      ensures (machine.Model(), Model(), r) == AddTable(old(machine.Model()), old(Model()))
    {
      if tableCount >= MAX_TABLES {
        return Err(TableCapacity);
      }
      r := machine.AllocateZeroed();
      if r.Ok? {
        tableFrames[tableCount] := r.value;
        tableCount := tableCount + 1;
        assert tableFrames[..tableCount] == old(tableFrames[..tableCount]) + [r.value];
      }
    }

    /** Back to an empty, inactive space. */
    method Clear()
      requires Valid()
      modifies this`root, this`tableCount, this`pageCount, this`active
      ensures Valid() && Model() == NO_SPACE
    {
      root, tableCount, pageCount, active := 0, 0, 0, false;
    }

    /** Fills a fresh space, or leaves it empty and returns what it took. */
    method Initialize(boot: nat) returns (r: Result<(), SpaceError>)
      requires Valid() && Model() == NO_SPACE
      modifies this, tableFrames, machine, machine.allocator, machine.allocator.regions, machine.allocator.recycled
      ensures Valid() && machine.Model() == Create(old(machine.Model()), boot).0
      ensures match Create(old(machine.Model()), boot).1
              case Ok(s) => r.Ok? && Model() == s
              case Err(e) => r == Err(e) && Model() == NO_SPACE
    {
      var failed := TakeThree();
      if failed.None? && EntryAt(machine.mem, boot, 0).addr >= IDENTITY_BYTES {
        failed := Some(MissingTable);
      }
      if failed.Some? {
        var freed := machine.FreeAll(F.Reversed(tableFrames[..tableCount]));
        Clear();
        return Err(failed.value);
      }
      machine.mem := FillTables(machine.mem, boot, tableFrames[0], tableFrames[1], tableFrames[2]);
      root, active := tableFrames[0], true;
      r := Ok(());
    }

    /** Root, low and user table. */
    method TakeThree() returns (failed: Option<SpaceError>)
      requires Valid() && Model() == NO_SPACE
      modifies this`tableCount, tableFrames, machine, machine.allocator, machine.allocator.regions, machine.allocator.recycled
      ensures Valid() && (machine.Model(), Model(), failed) == AddThree(old(machine.Model()))
      ensures failed.None? ==> tableCount == 3
    {
      var first := AllocateTable();
      if first.Err? {
        return Some(first.error);
      }
      var second := AllocateTable();
      if second.Err? {
        return Some(second.error);
      }
      var third := AllocateTable();
      failed := if third.Err? then Some(third.error) else None;
    }

    /** Maps one zeroed page with the given permissions. */
    method MapUserPage(virt: nat, writable: bool, executable: bool) returns (r: Result<nat, SpaceError>)
      requires Valid()
      modifies this, tableFrames, userPages, machine, machine.allocator, machine.allocator.regions, machine.allocator.recycled
      ensures Valid() && (machine.Model(), Model(), r) == MapUser(old(machine.Model()), old(Model()), virt, writable, executable)
    {
      if !active || root == 0 {
        return Err(SpaceNotInitialized);
      }
      if !Aligned(virt) {
        return Err(SpaceUnaligned);
      }
      if !InUser(virt) {
        return Err(OutsideUserRange);
      }
      if pageCount >= MAX_PAGES {
        return Err(PageCapacity);
      }
      if root < IDENTITY_BYTES && Aligned(root) && Walk(machine.mem, root, Path(virt)).Some? {
        return Err(PageMapped);
      }
      if root >= IDENTITY_BYTES || !Aligned(root) {
        return Err(FrameNotReachable);
      }
      var p3 := EntryAt(machine.mem, root, Index(virt, 0)).addr;
      if p3 >= IDENTITY_BYTES {
        return Err(MissingTable);
      }
      var p2 := EntryAt(machine.mem, p3, Index(virt, 1)).addr;
      if p2 >= IDENTITY_BYTES {
        return Err(MissingTable);
      }
      var p1 := EnsureLast(p2, Index(virt, 2));
      if p1.Err? {
        return Err(p1.error);
      }
      r := Enter(p1.value, virt, writable, executable);
    }

    method EnsureLast(p2: nat, i: nat) returns (r: Result<nat, SpaceError>)
      requires Valid()
      modifies this`tableCount, tableFrames, machine, machine.allocator, machine.allocator.regions, machine.allocator.recycled
      ensures Valid() && (machine.Model(), Model(), r) == LastTable(old(machine.Model()), old(Model()), p2, i)
    {
      var entry := EntryAt(machine.mem, p2, i);
      if entry.present {
        return if entry.addr < IDENTITY_BYTES then Ok(entry.addr) else Err(MissingTable);
      }
      r := AllocateTable();
      if r.Ok? {
        machine.mem := SetEntry(machine.mem, p2, i, OpenEntry(r.value));
      }
    }

    method Enter(p1: nat, virt: nat, writable: bool, executable: bool) returns (r: Result<nat, SpaceError>)
      requires Valid() && pageCount < MAX_PAGES
      modifies this`pageCount, userPages, machine, machine.allocator, machine.allocator.regions, machine.allocator.recycled
      ensures Valid() && (machine.Model(), Model(), r) == EnterUser(old(machine.Model()), old(Model()), p1, virt, writable, executable)
    {
      if EntryAt(machine.mem, p1, Index(virt, 3)).present {
        return Err(PageMapped);
      }
      r := machine.AllocateZeroed();
      if r.Ok? {
        machine.mem := SetEntry(machine.mem, p1, Index(virt, 3), LeafEntry(r.value, UserFlags(writable, executable)));
        userPages[pageCount] := MappedPage(virt, r.value, writable, executable);
        pageCount := pageCount + 1;
        assert userPages[..pageCount] == old(userPages[..pageCount]) + [MappedPage(virt, r.value, writable, executable)];
      }
    }

    /** Returns the pages, then the tables from the last one to the root. */
    method Destroy(activeRoot: nat) returns (r: Result<Report, SpaceError>)
      requires Valid()
      modifies this, machine.allocator, machine.allocator.recycled
      ensures Valid() && (machine.Model(), Model(), r) == SpaceModel.Destroy(old(machine.Model()), old(Model()), activeRoot)
    {
      if !active {
        return Ok(Report(0, 0, true));
      }
      if activeRoot == root {
        return Err(SpaceInUse);
      }
      var frames := seq(pageCount, k requires 0 <= k < pageCount reads this, userPages requires pageCount <= userPages.Length => userPages[k].frame);
      assert frames == PageFrames(Model());
      var tables := F.Reversed(tableFrames[..tableCount]);
      var pages := machine.FreeAll(frames);
      var tablesFreed := machine.FreeAll(tables);
      r := Ok(Report(pages, tablesFreed, pages == |frames| && tablesFreed == |tables|));
      Clear();
    }
  }
}
