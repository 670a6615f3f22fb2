/**
 From the boot tables on, whatever other clients of the frame allocator do in between: every run of
 the mapper is a run of a flat map, and the audit agrees.
 */
module PagingBoot {
  import opened Common
  import opened PagingModel
  import opened PagingTree
  import opened PagingLaws
  import opened PagingRefine
  import opened PagingRuns

  // ---- boot

  ghost predicate BootFrames(p4: nat, p3: nat, p2: nat, pool: seq<nat>)
  {
    && p4 != p3 && p3 != p2 && p4 != p2 && p4 < IDENTITY_BYTES && p3 < IDENTITY_BYTES && p2 < IDENTITY_BYTES
    && (forall k :: 0 <= k < |pool| ==> Aligned(pool[k]) && pool[k] != p4 && pool[k] != p3 && pool[k] != p2)
    && (forall k, l :: 0 <= k < l < |pool| ==> pool[k] != pool[l])
  }

  function BootTree(p4: nat, p3: nat, p2: nat): Tree { map[[] := p4, [0] := p3, [0, 0] := p2] }

  lemma BootEntries(p4: nat, p3: nat, p2: nat, p: seq<nat>, i: nat)
    requires p4 != p3 && p3 != p2 && p4 != p2 && i < TABLE_ENTRIES && p in BootTree(p4, p3, p2)
    ensures EntryOk(BootMemory(p4, p3, p2), BootTree(p4, p3, p2), p, i)
    ensures Monotone(BootMemory(p4, p3, p2), BootTree(p4, p3, p2), p, i)
  {
    assert |Child(p, i)| == |p| + 1 && Child(p, i)[|p|] == i;
    assert p == [] ==> Child(p, 0) == [0];
    assert p == [0] ==> Child(p, 0) == [0, 0];
  }

  lemma BootOk(p4: nat, p3: nat, p2: nat, pool: seq<nat>)
    requires BootFrames(p4, p3, p2, pool)
    ensures MapperOk(BootMapper(p4, p3, p2, pool), BootTree(p4, p3, p2))
  {
    var mem, tree := BootMemory(p4, p3, p2), BootTree(p4, p3, p2);
    forall p, i: nat | p in tree && i < TABLE_ENTRIES ensures EntryOk(mem, tree, p, i) && Monotone(mem, tree, p, i) {
      BootEntries(p4, p3, p2, p, i);
    }
    assert [0][..0] == [] && [0, 0][..1] == [0];
    forall v | v in tree.Values ensures v == p4 || v == p3 || v == p2 { var p :| p in tree && tree[p] == v; }
  }

  // ---- the flat map

  type Flat = map<nat, Leaf>

  /** One gigabyte maps onto itself; above it, pages are looked up by number. */
  function FlatAt(flat: Flat, va: nat): Option<Leaf>
  {
    if va < IDENTITY_BYTES then Some(Leaf(va - va % HUGE_PAGE, true, false, true, true))
    else if PageOf(va) in flat then Some(flat[PageOf(va)])
    else None
  }

  ghost predicate Agrees(m: Mapper, flat: Flat) { forall va :: Canonical(va) ==> WalkAt(m, va) == FlatAt(flat, va) }

  /** Among canonical addresses, exactly the first gigabyte goes through the first two entries 0. */
  lemma LowPath(va: nat)
    requires Canonical(va)
    ensures Index(va, 0) == 0 && Index(va, 1) == 0 <==> va < IDENTITY_BYTES
    ensures va < IDENTITY_BYTES ==> Index(va, 2) * HUGE_PAGE == va - va % HUGE_PAGE
  {
    PathNumber(va);
    CanonicalPage(va);
  }

  lemma BootWalk(p4: nat, p3: nat, p2: nat, pool: seq<nat>, va: nat)
    requires BootFrames(p4, p3, p2, pool) && Canonical(va)
    ensures LeafAt(BootMemory(p4, p3, p2), BootTree(p4, p3, p2), Path(va)) == FlatAt(map[], va)
  {
    var q, tree := Path(va), BootTree(p4, p3, p2);
    assert |q[..3]| == 3 && q[..3] !in tree;
    assert q[..2] == [Index(va, 0), Index(va, 1)];
    LowPath(va);
    assert q[..2] in tree <==> va < IDENTITY_BYTES;
    var i := Index(va, 2);
    assert va < IDENTITY_BYTES ==> EntryAt(BootMemory(p4, p3, p2), p2, i) == Entry(i * HUGE_PAGE, true, true, false, true, false);
    assert i * HUGE_PAGE % HUGE_PAGE == 0;
  }

  lemma BootAgrees(p4: nat, p3: nat, p2: nat, pool: seq<nat>)
    requires BootFrames(p4, p3, p2, pool)
    ensures Agrees(BootMapper(p4, p3, p2, pool), map[])
  {
    var m, tree := BootMapper(p4, p3, p2, pool), BootTree(p4, p3, p2);
    BootOk(p4, p3, p2, pool);
    forall va | Canonical(va) ensures WalkAt(m, va) == FlatAt(map[], va) {
      WalkRoot(m.mem, m.root, tree, va);
      BootWalk(p4, p3, p2, pool, va);
    }
  }

  lemma BootInv(p4: nat, p3: nat, p2: nat, pool: seq<nat>)
    requires BootFrames(p4, p3, p2, pool)
    ensures Inv(BootMapper(p4, p3, p2, pool), BootTree(p4, p3, p2))
  {
    BootOk(p4, p3, p2, pool);
    BootAgrees(p4, p3, p2, pool);
    GuardPages(0);
  }

  // ---- runs

  /**
   The mapper, and the frames its page tables occupy. Every other frame belongs to some client of the
   frame allocator (pages, address spaces) or to the allocator itself.
   */
  datatype Kernel = Kernel(mapper: Mapper, tables: set<nat>)

  function BootKernel(p4: nat, p3: nat, p2: nat, pool: seq<nat>): Kernel
  {
    Kernel(BootMapper(p4, p3, p2, pool), {p4, p3, p2})
  }

  /** `OpOthers`: other clients allocated, freed and wrote frames; `pool` and `mem` are what they left. */
  datatype Op =
    | OpMap(virt: nat, phys: nat)
    | OpMapUser(virt: nat, phys: nat, writable: bool, executable: bool)
    | OpMapNew(virt: nat, owner: Owner)
    | OpMapNewUser(virt: nat, writable: bool, executable: bool)
    | OpUnmap(virt: nat)
    | OpOthers(pool: seq<nat>, mem: Memory)

  /** Distinct page-aligned frames, none of which holds a page table. */
  ghost predicate Spare(pool: seq<nat>, tables: set<nat>)
  {
    && (forall k :: 0 <= k < |pool| ==> pool[k] !in tables && Aligned(pool[k]))
    && (forall k, l :: 0 <= k < l < |pool| ==> pool[k] != pool[l])
  }

  ghost predicate SameTableFrames(mem: Memory, mem': Memory, tables: set<nat>)
  {
    forall f :: f in tables && f in mem ==> f in mem' && mem'[f] == mem[f]
  }

  /** Other clients neither write nor free the frames of the page tables; nothing else is asked of them. */
  ghost predicate Permitted(k: Kernel, op: Op)
  {
    op.OpOthers? ==> Spare(op.pool, k.tables) && SameTableFrames(k.mapper.mem, op.mem, k.tables)
  }

  function DefaultFlags(owner: Owner): Flags
  {
    if owner.UserPage? then Flags(true, true, true) else Flags(true, false, false)
  }

  function UserFlags(writable: bool, executable: bool): Flags { Flags(writable, true, !executable) }

  function FlagsOf(op: Op): Flags
  {
    match op
    case OpMap(_, _) => DefaultFlags(KernelPage)
    case OpMapUser(_, _, writable, executable) => UserFlags(writable, executable)
    case OpMapNew(_, owner) => DefaultFlags(owner)
    case OpMapNewUser(_, writable, executable) => UserFlags(writable, executable)
    case _ => DefaultFlags(KernelPage)
  }

  /** The new mapper, and on success the frame that was mapped or unmapped. */
  function Call(m: Mapper, op: Op): (Mapper, Option<nat>)
  {
    match op
    case OpMap(virt, phys) => Mapped(MapPage(m, virt, phys, FlagsOf(op), KernelPage), phys)
    case OpMapUser(virt, phys, _, _) => Mapped(MapPage(m, virt, phys, FlagsOf(op), UserPage), phys)
    case OpMapNew(virt, owner) => Reported(MapNewPage(m, virt, FlagsOf(op), owner))
    case OpMapNewUser(virt, _, _) => Reported(MapNewPage(m, virt, FlagsOf(op), UserPage))
    case OpUnmap(virt) => Reported(UnmapPage(m, virt))
    case OpOthers(pool, mem) => (m.(pool := pool, mem := mem), None)
  }

  /** Frames a call took from the pool for tables: all that left it, except a page handed to the caller. */
  ghost function NewTables(m: Mapper, op: Op): set<nat>
  {
    var (m', frame) := Call(m, op);
    var left := Elements(m.pool) - Elements(m'.pool);
    match op
    case OpOthers(_, _) => {}
    case OpMapNew(_, _) => if frame.Some? then left - {frame.value} else left
    case OpMapNewUser(_, _, _) => if frame.Some? then left - {frame.value} else left
    case _ => left
  }

  ghost function Step(k: Kernel, op: Op): (Kernel, Option<nat>)
  {
    (Kernel(Call(k.mapper, op).0, k.tables + NewTables(k.mapper, op)), Call(k.mapper, op).1)
  }

  function Mapped(r: (Mapper, Result<(), MapError>), phys: nat): (Mapper, Option<nat>)
  {
    (r.0, if r.1.Ok? then Some(phys) else None)
  }

  function Reported<E>(r: (Mapper, Result<nat, E>)): (Mapper, Option<nat>)
  {
    (r.0, if r.1.Ok? then Some(r.1.value) else None)
  }

  /** The reference: on success one page is entered or removed. */
  function FlatStep(flat: Flat, op: Op, frame: Option<nat>): Flat
  {
    match frame
    case None => flat
    case Some(f) =>
      if op.OpOthers? then flat
      else if op.OpUnmap? then flat - {PageOf(op.virt)}
      else flat[PageOf(op.virt) := LeafOf(f, FlagsOf(op))]
  }

  lemma ChangedAgrees(m: Mapper, m': Mapper, flat: Flat, virt: nat, leaf: Option<Leaf>)
    requires Agrees(m, flat) && PageChanged(m, m', virt, leaf) && virt >= IDENTITY_BYTES
    ensures Agrees(m', if leaf.Some? then flat[PageOf(virt) := leaf.value] else flat - {PageOf(virt)})
  {
    assert IDENTITY_BYTES / PAGE <= PageOf(virt);
    assert forall va: nat :: va < IDENTITY_BYTES ==> PageOf(va) < IDENTITY_BYTES / PAGE;
  }

  ghost predicate KernelOk(k: Kernel, tree: Tree) { Inv(k.mapper, tree) && tree.Values == k.tables }

  /** Disjoint parts of a pool: the frames that left it are those not in what remains. */
  lemma LeftPool(pool: seq<nat>, n: nat)
    requires n <= |pool| && forall k, l :: 0 <= k < l < |pool| ==> pool[k] != pool[l]
    ensures Elements(pool) - Elements(pool[n..]) == Elements(pool[..n])
  {
    assert pool == pool[..n] + pool[n..];
    assert forall f :: f in pool[..n] ==> f !in pool[n..];
  }

  lemma StepOk(k: Kernel, tree: Tree, flat: Flat, op: Op) returns (tree': Tree)
    requires KernelOk(k, tree) && Agrees(k.mapper, flat) && Permitted(k, op)
    ensures KernelOk(Step(k, op).0, tree')
    ensures Agrees(Step(k, op).0.mapper, FlatStep(flat, op, Step(k, op).1))
  {
    tree' := CallOk(k.mapper, tree, flat, op);
  }

  ghost predicate Served(m: Mapper, tree: Tree, flat: Flat, op: Op, tree': Tree)
  {
    && Inv(Call(m, op).0, tree') && tree'.Values == tree.Values + NewTables(m, op)
    && Agrees(Call(m, op).0, FlatStep(flat, op, Call(m, op).1))
  }

  lemma CallOk(m: Mapper, tree: Tree, flat: Flat, op: Op) returns (tree': Tree)
    requires Inv(m, tree) && Agrees(m, flat)
    requires op.OpOthers? ==> Spare(op.pool, tree.Values) && SameTableFrames(m.mem, op.mem, tree.Values)
    ensures Served(m, tree, flat, op, tree')
  {
    if op.OpMap? || op.OpMapUser? {
      tree' := CallMap(m, tree, flat, op);
    } else if op.OpMapNew? || op.OpMapNewUser? {
      tree' := CallNew(m, tree, flat, op);
    } else {
      tree' := tree;
      if op.OpUnmap? { UnmapStepOk(m, tree, flat, op.virt); } else { OthersStepOk(m, tree, flat, op.pool, op.mem); }
    }
  }

  function OwnerOf(op: Op): Owner
  {
    match op
    case OpMapUser(_, _, _, _) => UserPage
    case OpMapNewUser(_, _, _) => UserPage
    case OpMapNew(_, owner) => owner
    case _ => KernelPage
  }

  lemma CallMapped(m: Mapper, tree: Tree, flat: Flat, op: Op, attempt: (Mapper, Result<(), MapError>), tree': Tree)
    requires (op.OpMap? || op.OpMapUser?) && Call(m, op) == Mapped(attempt, op.phys)
    requires Inv(attempt.0, tree') && tree'.Values == tree.Values + (Elements(m.pool) - Elements(attempt.0.pool))
    requires Agrees(attempt.0, if attempt.1.Ok? then flat[PageOf(op.virt) := LeafOf(op.phys, FlagsOf(op))] else flat)
    ensures Served(m, tree, flat, op, tree')
  {
  }

  lemma CallIsMap(m: Mapper, op: Op)
    requires op.OpMap? || op.OpMapUser?
    ensures Call(m, op) == Mapped(MapPage(m, op.virt, op.phys, FlagsOf(op), OwnerOf(op)), op.phys)
  {
  }

  lemma CallMap(m: Mapper, tree: Tree, flat: Flat, op: Op) returns (tree': Tree)
    requires Inv(m, tree) && Agrees(m, flat) && (op.OpMap? || op.OpMapUser?)
    ensures Served(m, tree, flat, op, tree')
  {
    tree' := MapStepOk(m, tree, flat, op.virt, op.phys, FlagsOf(op), OwnerOf(op));
    CallIsMap(m, op);
    CallMapped(m, tree, flat, op, MapPage(m, op.virt, op.phys, FlagsOf(op), OwnerOf(op)), tree');
  }

  lemma CallNewMapped(m: Mapper, tree: Tree, flat: Flat, op: Op, attempt: (Mapper, Result<nat, MapError>), tree': Tree)
    requires (op.OpMapNew? || op.OpMapNewUser?) && Call(m, op) == Reported(attempt) && Inv(attempt.0, tree')
    requires tree'.Values == tree.Values + (Elements(m.pool) - Elements(attempt.0.pool) - (if attempt.1.Ok? then {attempt.1.value} else {}))
    requires Agrees(attempt.0, if attempt.1.Ok? then flat[PageOf(op.virt) := LeafOf(attempt.1.value, FlagsOf(op))] else flat)
    ensures Served(m, tree, flat, op, tree')
  {
  }

  lemma CallIsNew(m: Mapper, op: Op)
    requires op.OpMapNew? || op.OpMapNewUser?
    ensures Call(m, op) == Reported(MapNewPage(m, op.virt, FlagsOf(op), OwnerOf(op)))
  {
  }

  lemma CallNew(m: Mapper, tree: Tree, flat: Flat, op: Op) returns (tree': Tree)
    requires Inv(m, tree) && Agrees(m, flat) && (op.OpMapNew? || op.OpMapNewUser?)
    ensures Served(m, tree, flat, op, tree')
  {
    tree' := NewStepOk(m, tree, flat, op.virt, FlagsOf(op), OwnerOf(op));
    CallIsNew(m, op);
    CallNewMapped(m, tree, flat, op, MapNewPage(m, op.virt, FlagsOf(op), OwnerOf(op)), tree');
  }

  /** The tables after a call of the mapper. */
  lemma CallTree(m: Mapper, tree: Tree, op: Op) returns (tree': Tree)
    requires Inv(m, tree) && !op.OpOthers?
    ensures Inv(Call(m, op).0, tree') && tree'.Values == tree.Values + NewTables(m, op) && Call(m, op).0.root == m.root
    ensures NewTables(m, op) <= Elements(m.pool)
  {
    NewTablesLeft(m, op);
    if op.OpMap? || op.OpMapUser? {
      tree' := MappedTree(m, tree, op.virt, op.phys, FlagsOf(op), OwnerOf(op));
      CallIsMap(m, op);
    } else if op.OpUnmap? {
      tree' := tree;
      UnmapKeepsInv(m, tree, op.virt);
      UnmapPageRefines(m, tree, op.virt);
    } else {
      tree' := NewTree(m, tree, op.virt, FlagsOf(op), OwnerOf(op));
      CallIsNew(m, op);
    }
  }

  lemma NewTablesLeft(m: Mapper, op: Op)
    requires !op.OpOthers?
    ensures var (m', frame) := Call(m, op);
            NewTables(m, op) == Elements(m.pool) - Elements(m'.pool) - (if (op.OpMapNew? || op.OpMapNewUser?) && frame.Some? then {frame.value} else {})
  {
  }

  lemma MappedTree(m: Mapper, tree: Tree, virt: nat, phys: nat, flags: Flags, owner: Owner) returns (tree': Tree)
    requires Inv(m, tree) && (owner.UserPage? <==> flags.user)
    ensures var m' := MapPage(m, virt, phys, flags, owner).0;
            Inv(m', tree') && m'.root == m.root && tree'.Values == tree.Values + (Elements(m.pool) - Elements(m'.pool))
  {
    var k;
    tree', k := MapKeepsInv(m, tree, virt, phys, flags, owner);
    LeftPool(m.pool, k);
  }

  lemma NewTree(m: Mapper, tree: Tree, virt: nat, flags: Flags, owner: Owner) returns (tree': Tree)
    requires Inv(m, tree) && (owner.UserPage? <==> flags.user)
    ensures var (m', r) := MapNewPage(m, virt, flags, owner);
            && Inv(m', tree') && m'.root == m.root
            && tree'.Values == tree.Values + (Elements(m.pool) - Elements(m'.pool) - (if r.Ok? then {r.value} else {}))
  {
    var k;
    tree', k := MapNewKeepsInv(m, tree, virt, flags, owner);
    var (m', r) := MapNewPage(m, virt, flags, owner);
    if r.Ok? { NewLeft(m.pool, k); } else { ReturnedLeft(m.pool, m'.pool, tree, tree'); }
  }

  /** What others do to frames that hold no page table changes no translation and no record. */
  lemma OthersStepOk(m: Mapper, tree: Tree, flat: Flat, pool: seq<nat>, mem: Memory)
    requires Inv(m, tree) && Agrees(m, flat) && Spare(pool, tree.Values) && SameTableFrames(m.mem, mem, tree.Values)
    ensures var m' := m.(pool := pool, mem := mem); Inv(m', tree) && Agrees(m', flat)
  {
    OthersKeepInv(m, tree, pool, mem);
  }

  lemma OthersKeepInv(m: Mapper, tree: Tree, pool: seq<nat>, mem: Memory)
    requires Inv(m, tree) && Spare(pool, tree.Values) && SameTableFrames(m.mem, mem, tree.Values)
    ensures var m' := m.(pool := pool, mem := mem); Inv(m', tree) && SameWalks(m, m')
  {
    var m' := m.(pool := pool, mem := mem);
    forall p | p in tree ensures tree[p] in mem && mem[tree[p]] == m.mem[tree[p]] { assert tree[p] in tree.Values; }
    OutsideOk(m.mem, mem, m.root, tree);
    forall va ensures WalkAt(m', va) == WalkAt(m, va) {
      WalkRoot(m.mem, m.root, tree, va);
      WalkRoot(mem, m.root, tree, va);
    }
    SameKeeps(m, m');
  }

  lemma UnmapStepOk(m: Mapper, tree: Tree, flat: Flat, virt: nat)
    requires Inv(m, tree) && Agrees(m, flat)
    ensures var (m', r) := UnmapPage(m, virt);
            Inv(m', tree) && m'.pool == m.pool && Agrees(m', if r.Ok? then flat - {PageOf(virt)} else flat)
  {
    UnmapKeepsInv(m, tree, virt);
    UnmapPageRefines(m, tree, virt);
    if UnmapPage(m, virt).1.Ok? { ChangedAgrees(m, UnmapPage(m, virt).0, flat, virt, None); }
  }

  lemma MapStepOk(m: Mapper, tree: Tree, flat: Flat, virt: nat, phys: nat, flags: Flags, owner: Owner) returns (tree': Tree)
    requires Inv(m, tree) && Agrees(m, flat) && (owner.UserPage? <==> flags.user)
    ensures var (m', r) := MapPage(m, virt, phys, flags, owner);
            && Inv(m', tree') && tree'.Values == tree.Values + (Elements(m.pool) - Elements(m'.pool))
            && Agrees(m', if r.Ok? then flat[PageOf(virt) := LeafOf(phys, flags)] else flat)
  {
    var k;
    tree', k := MapKeepsInv(m, tree, virt, phys, flags, owner);
    var (m', r) := MapPage(m, virt, phys, flags, owner);
    LeftPool(m.pool, k);
    if r.Ok? { ChangedAgrees(m, m', flat, virt, Some(LeafOf(phys, flags))); }
  }

  lemma NewStepOk(m: Mapper, tree: Tree, flat: Flat, virt: nat, flags: Flags, owner: Owner) returns (tree': Tree)
    requires Inv(m, tree) && Agrees(m, flat) && (owner.UserPage? <==> flags.user)
    ensures var (m', r) := MapNewPage(m, virt, flags, owner);
            && Inv(m', tree')
            && tree'.Values == tree.Values + (Elements(m.pool) - Elements(m'.pool) - (if r.Ok? then {r.value} else {}))
            && Agrees(m', if r.Ok? then flat[PageOf(virt) := LeafOf(r.value, flags)] else flat)
  {
    var k;
    tree', k := MapNewKeepsInv(m, tree, virt, flags, owner);
    var (m', r) := MapNewPage(m, virt, flags, owner);
    if r.Ok? {
      ChangedAgrees(m, m', flat, virt, Some(LeafOf(r.value, flags)));
      NewLeft(m.pool, k);
    } else {
      ReturnedLeft(m.pool, m'.pool, tree, tree');
    }
  }

  lemma NewLeft(pool: seq<nat>, k: nat)
    requires k < |pool| && forall i, j :: 0 <= i < j < |pool| ==> pool[i] != pool[j]
    ensures Elements(pool) - Elements(pool[1..][k..]) - {pool[0]} == Elements(pool[1..][..k])
  {
    LeftPool(pool, k + 1);
    assert pool[1..][k..] == pool[k + 1..];
    assert pool[..k + 1] == [pool[0]] + pool[1..][..k];
    assert pool[0] !in pool[1..][..k];
  }

  lemma ReturnedLeft(pool: seq<nat>, pool': seq<nat>, tree: Tree, tree': Tree)
    requires PoolOk(pool, tree) && PoolOk(pool', tree') && tree.Values <= tree'.Values
    requires Elements(pool') + tree'.Values == Elements(pool) + tree.Values
    ensures tree'.Values == tree.Values + (Elements(pool) - Elements(pool'))
  {
    assert forall f :: f in Elements(pool) ==> f !in tree.Values;
    assert forall f :: f in Elements(pool') ==> f !in tree'.Values;
  }

  ghost function Reach(k: Kernel, ops: seq<Op>): Kernel
  {
    if ops == [] then k else Step(Reach(k, ops[..|ops| - 1]), ops[|ops| - 1]).0
  }

  ghost predicate AllPermitted(k: Kernel, ops: seq<Op>)
  {
    ops == [] || (AllPermitted(k, ops[..|ops| - 1]) && Permitted(Reach(k, ops[..|ops| - 1]), ops[|ops| - 1]))
  }

  /** The flat map after the same operations with the same results. */
  ghost function FlatReach(k: Kernel, ops: seq<Op>): Flat
  {
    if ops == [] then map[]
    else
      var before := ops[..|ops| - 1];
      FlatStep(FlatReach(k, before), ops[|ops| - 1], Step(Reach(k, before), ops[|ops| - 1]).1)
  }

  /**
   In every reachable state the page tables translate as the flat map does, and the invariant holds:
   frames are unmapped, freed and handed out again, and other clients come and go, but no stale
   table or leaf shows up in a translation.
   */
  lemma {:induction false} RunRefines(p4: nat, p3: nat, p2: nat, pool: seq<nat>, ops: seq<Op>) returns (tree: Tree)
    requires BootFrames(p4, p3, p2, pool) && AllPermitted(BootKernel(p4, p3, p2, pool), ops)
    ensures var k := BootKernel(p4, p3, p2, pool);
            KernelOk(Reach(k, ops), tree) && Agrees(Reach(k, ops).mapper, FlatReach(k, ops))
  {
    var k := BootKernel(p4, p3, p2, pool);
    if ops == [] {
      tree := BootTree(p4, p3, p2);
      BootInv(p4, p3, p2, pool);
      BootAgrees(p4, p3, p2, pool);
      assert tree[[]] == p4 && tree[[0]] == p3 && tree[[0, 0]] == p2;
    } else {
      var before := ops[..|ops| - 1];
      var t := RunRefines(p4, p3, p2, pool, before);
      tree := StepOk(Reach(k, before), t, FlatReach(k, before), ops[|ops| - 1]);
    }
  }

  /** In every reachable state the audit reports no violation, unless the record table has overflowed. */
  lemma RunAudit(p4: nat, p3: nat, p2: nat, pool: seq<nat>, ops: seq<Op>)
    requires BootFrames(p4, p3, p2, pool) && AllPermitted(BootKernel(p4, p3, p2, pool), ops)
    ensures var m := Reach(BootKernel(p4, p3, p2, pool), ops).mapper;
            Violations(m) == if m.overflows == 0 then 0 else 1
  {
    var tree := RunRefines(p4, p3, p2, pool, ops);
    AuditExact(Reach(BootKernel(p4, p3, p2, pool), ops).mapper, tree);
  }
}
