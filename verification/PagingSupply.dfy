/**
 The pool the mapper draws on is the pool of the frame allocator: boot fills it, every call of the
 mapper is a run of the allocator, and other clients may allocate and free as long as they leave page
 tables alone. Module PagingMisuse shows what happens when they do not.
 */
module PagingSupply {
  import opened Common
  import opened PagingModel
  import opened PagingTree
  import opened PagingLaws
  import opened PagingRefine
  import opened PagingRuns
  import opened PagingBoot
  import F = PhysmemModel
  import FL = PhysmemLaws
  import FR = PhysmemRuns

  /** The boot tables lie in protected memory, so the allocator of the boot regions can supply the mapper. */
  lemma BootSupplies(protectedUntil: nat, regions: seq<F.BootRegion>, p4: nat, p3: nat, p2: nat)
    requires FR.BootOk(regions) && F.FrameAligned(protectedUntil)
    requires p4 != p3 && p3 != p2 && p4 != p2 && p4 < protectedUntil && p3 < protectedUntil && p2 < protectedUntil
    requires p4 < IDENTITY_BYTES && p3 < IDENTITY_BYTES && p2 < IDENTITY_BYTES
    ensures BootFrames(p4, p3, p2, F.Pool(F.Boot(protectedUntil, regions)))
  {
    var a := F.Boot(protectedUntil, regions);
    FR.BootInv(protectedUntil, regions);
    FR.AddRegionsOk(protectedUntil, regions);
    FL.PoolSound(a);
  }

  // ---- calls of the mapper

  function Draws(n: nat): seq<FR.Op> { seq(n, _ => FR.OpAllocate) }

  /**
   After `n` allocations the pool has lost its first `n` frames, which are in use; the recycle stack
   has not grown, and has room for one frame more than before.
   */
  lemma {:induction false} Drawn(a: F.Allocator, n: nat)
    requires FL.Inv(a) && n <= |F.Pool(a)|
    ensures var b := FR.Reach(a, Draws(n));
            && FL.Inv(b) && F.Pool(b) == F.Pool(a)[n..] && F.InUse(b) == F.InUse(a) + Elements(F.Pool(a)[..n])
            && |b.recycled| <= |a.recycled| && (n > 0 ==> |b.recycled| == 0 || |b.recycled| < |a.recycled|)
  {
    if n == 0 {
      assert Draws(0) == [] && F.Pool(a)[0..] == F.Pool(a);
    } else {
      Drawn(a, n - 1);
      var b := FR.Reach(a, Draws(n - 1));
      DrawOne(b);
      var c := F.AllocateFrame(b).0;
      DrawnNext(F.Pool(a), n, F.Pool(b), F.Pool(c), F.InUse(a), F.InUse(b), F.InUse(c));
      DrawsReach(a, n);
    }
  }

  lemma DrawOne(b: F.Allocator)
    requires FL.Inv(b) && F.Pool(b) != []
    ensures var c := F.AllocateFrame(b).0;
            && FL.Inv(c) && F.Pool(b) == [F.Pool(b)[0]] + F.Pool(c) && F.InUse(c) == F.InUse(b) + {F.Pool(b)[0]}
            && |c.recycled| == if b.recycled == [] then 0 else |b.recycled| - 1
  {
    FL.AllocateRefines(b);
    if b.recycled == [] { FL.TakeFreshOk(b); }
  }

  lemma DrawsReach(a: F.Allocator, n: nat)
    requires n > 0
    ensures FR.Reach(a, Draws(n)) == F.AllocateFrame(FR.Reach(a, Draws(n - 1))).0
  {
    assert Draws(n)[..n - 1] == Draws(n - 1);
  }

  lemma DrawnNext(pool: seq<nat>, n: nat, rest: seq<nat>, rest': seq<nat>, used: set<nat>, used1: set<nat>, used2: set<nat>)
    requires 0 < n <= |pool| && rest == pool[n - 1..] && rest == [rest[0]] + rest'
    requires used1 == used + Elements(pool[..n - 1]) && used2 == used1 + {rest[0]}
    ensures rest' == pool[n..] && used2 == used + Elements(pool[..n])
  {
    assert rest' == rest[1..];
    assert pool[..n] == pool[..n - 1] + [rest[0]];
  }

  /** A frame just drawn can be given back, and is then first in line. */
  lemma DrawnThenFreed(a: F.Allocator, n: nat)
    requires FL.Inv(a) && 0 < n <= |F.Pool(a)|
    ensures var b := FR.Reach(a, Draws(n) + [FR.OpFree(F.Pool(a)[0])]);
            FL.Inv(b) && F.Pool(b) == [F.Pool(a)[0]] + F.Pool(a)[n..]
  {
    Drawn(a, n);
    var f := F.Pool(a)[0];
    assert f in F.Pool(a)[..n] by { assert F.Pool(a)[..n][0] == f; }
    var b := FR.Reach(a, Draws(n));
    FL.FreeRefines(b, f);
    assert (Draws(n) + [FR.OpFree(f)])[..n] == Draws(n);
  }

  /** What a new page does to the pool: nothing, or it and `k` tables leave, or only the tables do. */
  lemma NewPagePool(m: Mapper, tree: Tree, virt: nat, flags: Flags, owner: Owner) returns (k: nat)
    requires Inv(m, tree) && (owner.UserPage? <==> flags.user)
    ensures var (m', r) := MapNewPage(m, virt, flags, owner);
            || m'.pool == m.pool
            || (k < |m.pool| && m'.pool == if r.Ok? then m.pool[k + 1..] else [m.pool[0]] + m.pool[k + 1..])
  {
    k := 0;
    if m.pool != [] {
      var m0 := m.(pool := m.pool[1..]);
      TakeFirst(m, tree);
      var tree';
      tree', k := MapKeepsInv(m0, tree, virt, m.pool[0], flags, owner);
      assert m.pool[1..][k..] == m.pool[k + 1..];
      SettledPool(m, virt, flags, owner, MapPage(m0, virt, m.pool[0], flags, owner));
    }
  }

  lemma SettledPool(m: Mapper, virt: nat, flags: Flags, owner: Owner, attempt: (Mapper, Result<(), MapError>))
    requires m.pool != [] && attempt == MapPage(m.(pool := m.pool[1..]), virt, m.pool[0], flags, owner)
    ensures var (m', r) := MapNewPage(m, virt, flags, owner);
            m'.pool == m.pool || (m'.pool == if r.Ok? then attempt.0.pool else [m.pool[0]] + attempt.0.pool)
  {
  }

  lemma MapDraws(m: Mapper, tree: Tree, virt: nat, phys: nat, flags: Flags, owner: Owner, a: F.Allocator) returns (ops: seq<FR.Op>)
    requires Inv(m, tree) && (owner.UserPage? <==> flags.user) && FL.Inv(a) && F.Pool(a) == m.pool
    ensures FL.Inv(FR.Reach(a, ops)) && F.Pool(FR.Reach(a, ops)) == MapPage(m, virt, phys, flags, owner).0.pool
  {
    var tree', k := MapKeepsInv(m, tree, virt, phys, flags, owner);
    ops := Draws(k);
    Drawn(a, k);
  }

  lemma NewDraws(m: Mapper, tree: Tree, virt: nat, flags: Flags, owner: Owner, a: F.Allocator) returns (ops: seq<FR.Op>)
    requires Inv(m, tree) && (owner.UserPage? <==> flags.user) && FL.Inv(a) && F.Pool(a) == m.pool
    ensures FL.Inv(FR.Reach(a, ops)) && F.Pool(FR.Reach(a, ops)) == MapNewPage(m, virt, flags, owner).0.pool
  {
    var k := NewPagePool(m, tree, virt, flags, owner);
    ops := PoolDraws(m.pool, MapNewPage(m, virt, flags, owner).0.pool, k, MapNewPage(m, virt, flags, owner).1.Ok?, a);
  }

  lemma PoolDraws(pool: seq<nat>, pool': seq<nat>, k: nat, ok: bool, a: F.Allocator) returns (ops: seq<FR.Op>)
    requires FL.Inv(a) && F.Pool(a) == pool
    requires pool' == pool || (k < |pool| && pool' == if ok then pool[k + 1..] else [pool[0]] + pool[k + 1..])
    ensures FL.Inv(FR.Reach(a, ops)) && F.Pool(FR.Reach(a, ops)) == pool'
  {
    if pool' == pool {
      ops := [];
    } else if ok {
      ops := Draws(k + 1);
      Drawn(a, k + 1);
    } else {
      ops := Draws(k + 1) + [FR.OpFree(pool[0])];
      DrawnThenFreed(a, k + 1);
    }
  }

  /** Every call of the mapper takes frames from the allocator, and returns a page it could not map, as the allocator allows. */
  lemma CallDraws(m: Mapper, tree: Tree, op: Op, a: F.Allocator) returns (ops: seq<FR.Op>)
    requires Inv(m, tree) && FL.Inv(a) && F.Pool(a) == m.pool && !op.OpOthers?
    ensures FL.Inv(FR.Reach(a, ops)) && F.Pool(FR.Reach(a, ops)) == Call(m, op).0.pool
  {
    if op.OpMap? || op.OpMapUser? {
      ops := MapDraws(m, tree, op.virt, op.phys, FlagsOf(op), OwnerOf(op), a);
      CallIsMap(m, op);
    } else if op.OpUnmap? {
      ops := [];
      UnmapPageRefines(m, tree, op.virt);
    } else {
      ops := NewDraws(m, tree, op.virt, FlagsOf(op), OwnerOf(op), a);
      CallIsNew(m, op);
    }
  }

  // ---- other clients

  lemma TakenPermitted(k: Kernel, tree: Tree, a: F.Allocator)
    requires KernelOk(k, tree) && FL.Inv(a) && F.Pool(a) == k.mapper.pool
    ensures Permitted(k, OpOthers(F.Pool(F.AllocateFrame(a).0), k.mapper.mem))
  {
    FL.AllocateRefines(a);
    SpareLess(F.Pool(a), F.Pool(F.AllocateFrame(a).0), k.tables);
  }

  lemma SpareLess(pool: seq<nat>, pool': seq<nat>, tables: set<nat>)
    requires Spare(pool, tables) && (pool' == pool || (pool != [] && pool == [pool[0]] + pool'))
    ensures Spare(pool', tables)
  {
    assert pool' != pool ==> forall k :: 0 <= k < |pool'| ==> pool'[k] == pool[k + 1];
  }

  lemma FreedPermitted(k: Kernel, tree: Tree, a: F.Allocator, f: nat)
    requires KernelOk(k, tree) && FL.Inv(a) && F.Pool(a) == k.mapper.pool && f !in k.tables
    ensures Permitted(k, OpOthers(F.Pool(F.FreeFrame(a, f).0), k.mapper.mem))
  {
    FL.FreeRefines(a, f);
    var (b, ok) := F.FreeFrame(a, f);
    if ok {
      FL.PoolSound(b);
      SpareMore(F.Pool(a), F.Pool(b), k.tables, f);
    }
  }

  lemma SpareMore(pool: seq<nat>, pool': seq<nat>, tables: set<nat>, f: nat)
    requires Spare(pool, tables) && pool' == [f] + pool && FL.Distinct(pool') && forall k :: 0 <= k < |pool'| ==> Aligned(pool'[k])
    ensures Spare(pool', tables) <==> f !in tables
  {
    assert pool'[0] == f;
    assert forall k :: 0 < k < |pool'| ==> pool'[k] == pool[k - 1];
  }
}
