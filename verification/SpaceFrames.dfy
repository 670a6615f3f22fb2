/** Taking and returning frames: failed attempts cost nothing, and what was taken can be returned. */
module SpaceFrames {
  import opened Common
  import opened PagingModel
  import opened SpaceModel
  import F = PhysmemModel
  import FL = PhysmemLaws

  /** Allocator states that agree on everything a client can observe. */
  ghost predicate SameFrames(a: F.Allocator, b: F.Allocator)
  {
    FL.Inv(b) && b.protectedUntil == a.protectedUntil && F.InUse(b) == F.InUse(a) && F.Pool(b) == F.Pool(a)
  }

  ghost predicate Taken(a: F.Allocator, b: F.Allocator, f: nat)
  {
    && FL.Inv(b) && b.protectedUntil == a.protectedUntil
    && f !in F.InUse(a) && F.InUse(b) == F.InUse(a) + {f} && F.Pool(a) == [f] + F.Pool(b)
    && f < IDENTITY_BYTES && Aligned(f) && a.protectedUntil <= f
  }

  /** A zeroed frame is new, reachable and cleared; a failed attempt leaves memory and frames as they were. */
  lemma TakeOk(w: World, n: nat)
    requires FL.Inv(w.frames) && FL.CanUndo(w.frames, n) && n < F.MAX_RECYCLED
    ensures var (w1, r) := TakeZeroed(w);
            match r
            case Ok(f) =>
              && Taken(w.frames, w1.frames, f) && w1.mem == w.mem[f := ZeroTable()] && w1.bytes == w.bytes[f := ZeroPage()]
              && FL.CanUndo(w1.frames, n + 1)
            case Err(_) => SameFrames(w.frames, w1.frames) && w1.mem == w.mem && w1.bytes == w.bytes && FL.CanUndo(w1.frames, n)
  {
    FL.AllocateRefines(w.frames);
    FL.AllocateKeepsUndo(w.frames, n);
    var (a, r) := F.AllocateFrame(w.frames);
    match r
    case None =>
    case Some(f) =>
      FL.FreeRefines(a, f);
  }

  /** How many of `count` frames the recycle stack still takes. */
  function RoomFor(a: F.Allocator, count: nat): nat
  {
    if |a.recycled| + count <= F.MAX_RECYCLED then count
    else if |a.recycled| <= F.MAX_RECYCLED then F.MAX_RECYCLED - |a.recycled|
    else 0
  }

  /** The first `n` of the listed frames moved from the used ones to the head of the pool. */
  ghost predicate Moved(used: set<nat>, used': set<nat>, pool: seq<nat>, pool': seq<nat>, list: seq<nat>, n: nat)
  {
    n <= |list| && used' == used - Elements(list[..n]) && pool' == F.Reversed(list[..n]) + pool
  }

  /** The first `n` of the listed frames, and no others, went back. */
  ghost predicate Freed(a: F.Allocator, b: F.Allocator, list: seq<nat>, n: nat)
  {
    && FL.Inv(b) && b.protectedUntil == a.protectedUntil && |b.recycled| == |a.recycled| + n
    && Moved(F.InUse(a), F.InUse(b), F.Pool(a), F.Pool(b), list, n)
  }

  /** Of distinct frames in use exactly the first ones are freed, as many as the recycle stack has room for. */
  lemma {:induction false} FreeEachExact(a: F.Allocator, list: seq<nat>)
    requires FL.Inv(a) && FL.Distinct(list) && Elements(list) <= F.InUse(a)
    ensures FreeEach(a, list).1 == RoomFor(a, |list|) && Freed(a, FreeEach(a, list).0, list, RoomFor(a, |list|))
    decreases |list|
  {
    if list == [] {
      MovedNone(F.InUse(a), F.Pool(a), list);
    } else {
      var (b, ok) := F.FreeFrame(a, list[0]);
      FL.FreeRefines(a, list[0]);
      RestInUse(F.InUse(a), F.InUse(b), list);
      FreeEachExact(b, list[1..]);
      FreedStep(a, b, ok, FreeEach(b, list[1..]).0, list);
    }
  }

  lemma RestInUse(used: set<nat>, used': set<nat>, list: seq<nat>)
    requires list != [] && FL.Distinct(list) && Elements(list) <= used && (used' == used || used' == used - {list[0]})
    ensures list[0] in used && FL.Distinct(list[1..]) && Elements(list[1..]) <= used'
  {
    assert list[0] in Elements(list);
    forall f | f in list[1..] ensures f in Elements(list) && f != list[0] {}
  }

  lemma FreedStep(a: F.Allocator, b: F.Allocator, ok: bool, c: F.Allocator, list: seq<nat>)
    requires FL.Inv(a) && list != [] && b.protectedUntil == a.protectedUntil
    requires Freed(b, c, list[1..], RoomFor(b, |list| - 1)) && (ok <==> |a.recycled| < F.MAX_RECYCLED)
    requires if ok then F.InUse(b) == F.InUse(a) - {list[0]} && F.Pool(b) == [list[0]] + F.Pool(a) && |b.recycled| == |a.recycled| + 1 else b == a
    ensures Freed(a, c, list, RoomFor(a, |list|)) && RoomFor(a, |list|) == RoomFor(b, |list| - 1) + (if ok then 1 else 0)
  {
    if ok {
      MovedMore(list, RoomFor(b, |list| - 1), F.InUse(a), F.InUse(b), F.InUse(c), F.Pool(a), F.Pool(b), F.Pool(c));
    } else {
      MovedNothing(F.InUse(a), F.InUse(c), F.Pool(a), F.Pool(c), list[1..], list);
    }
  }

  lemma MovedNone(used: set<nat>, pool: seq<nat>, list: seq<nat>)
    ensures Moved(used, used, pool, pool, list, 0)
  {
    assert F.Reversed(list[..0]) == [];
  }

  lemma MovedNothing(used: set<nat>, used': set<nat>, pool: seq<nat>, pool': seq<nat>, x: seq<nat>, y: seq<nat>)
    requires Moved(used, used', pool, pool', x, 0)
    ensures Moved(used, used', pool, pool', y, 0)
  {
    assert x[..0] == y[..0];
  }

  lemma MovedMore(
    list: seq<nat>, n: nat, used: set<nat>, used1: set<nat>, used2: set<nat>, pool: seq<nat>, pool1: seq<nat>, pool2: seq<nat>)
    requires list != [] && used1 == used - {list[0]} && pool1 == [list[0]] + pool && Moved(used1, used2, pool1, pool2, list[1..], n)
    ensures Moved(used, used2, pool, pool2, list, n + 1)
  {
    assert list[..n + 1] == [list[0]] + list[1..][..n];
    FreedSeqs(list[0], list[1..][..n], pool);
  }

  lemma MovedAll(used: set<nat>, used': set<nat>, pool: seq<nat>, pool': seq<nat>, list: seq<nat>)
    requires Moved(used, used', pool, pool', list, |list|)
    ensures used' == used - Elements(list) && pool' == F.Reversed(list) + pool
  {
    assert list[..|list|] == list;
  }

  /** The pool has gained exactly what moved. */
  lemma MovedPool(used: set<nat>, used': set<nat>, pool: seq<nat>, pool': seq<nat>, list: seq<nat>, n: nat)
    requires Moved(used, used', pool, pool', list, n)
    ensures Elements(pool') == Elements(pool) + Elements(list[..n])
  {
    FL.ReversedIn(list[..n]);
    assert forall f :: f in pool' <==> f in F.Reversed(list[..n]) || f in pool;
  }

  lemma FreedSeqs(f: nat, x: seq<nat>, pool: seq<nat>)
    ensures F.Reversed([f] + x) + pool == F.Reversed(x) + ([f] + pool)
    ensures Elements([f] + x) == {f} + Elements(x)
  {
    assert F.Reversed([f] + x) == F.Reversed(x) + [f];
  }

  /** Distinct frames in use can all be freed while the recycle stack has room for them. */
  lemma FreeEachAll(a: F.Allocator, list: seq<nat>)
    requires FL.Inv(a) && FL.Distinct(list) && Elements(list) <= F.InUse(a) && FL.CanUndo(a, |list|)
    ensures var (b, n) := FreeEach(a, list);
            && FL.Inv(b) && b.protectedUntil == a.protectedUntil && n == |list|
            && F.InUse(b) == F.InUse(a) - Elements(list) && |b.recycled| == |a.recycled| + |list|
  {
    FreeEachExact(a, list);
    MovedAll(F.InUse(a), F.InUse(FreeEach(a, list).0), F.Pool(a), F.Pool(FreeEach(a, list).0), list);
  }

  /** Freeing two lists one after the other is freeing their concatenation. */
  lemma {:induction false} FreeEachAppend(a: F.Allocator, x: seq<nat>, y: seq<nat>)
    ensures var (b, n) := FreeEach(a, x);
            var (c, m) := FreeEach(b, y);
            FreeEach(a, x + y) == (c, n + m)
    decreases |x|
  {
    if x == [] {
      assert x + y == y;
    } else {
      assert (x + y)[0] == x[0] && (x + y)[1..] == x[1..] + y;
      FreeEachAppend(F.FreeFrame(a, x[0]).0, x[1..], y);
    }
  }
}
