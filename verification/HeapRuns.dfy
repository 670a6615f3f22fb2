/** Whole runs of the heap: no corruption reports, and reliable double-free reports. */
module HeapRuns {
  import opened Common
  import opened HeapModel
  import opened HeapLaws
  import opened HeapBlocks
  import opened HeapSafety

  datatype Op = OpAlloc(size: nat, align: nat) | OpFree(address: nat) | OpWrite(at: nat, data: seq<Byte>)

  /** Clients write only inside payloads of live blocks. */
  ghost predicate Permitted(h: Heap, op: Op)
  {
    op.OpWrite? ==> exists i: nat :: InsidePayload(h, i, op.at, |op.data|)
  }

  datatype Outcome = Handed(address: nat) | Freed | Refused(error: FreeError) | Nothing

  ghost function Step(h: Heap, op: Op): (r: (Heap, Outcome))
    requires Inv(h) && Permitted(h, op)
    ensures Inv(r.0)
  {
    match op
    case OpAlloc(size, align) =>
      AllocOk(h, size, align);
      var (h', r) := Alloc(h, size, align);
      (h', if r.Some? then Handed(r.value) else Nothing)
    case OpFree(address) =>
      FreeOk(h, address);
      var (h', r) := Free(h, address);
      (h', if r.Ok? then Freed else Refused(r.error))
    case OpWrite(at, data) =>
      WriteOk(h, at, data);
      (ClientWrite(h, at, data), Nothing)
  }

  lemma WriteOk(h: Heap, at: nat, data: seq<Byte>)
    requires Inv(h) && exists i: nat :: InsidePayload(h, i, at, |data|)
    ensures at + |data| <= |h.bytes| && Inv(ClientWrite(h, at, data))
  {
    var i: nat :| InsidePayload(h, i, at, |data|);
    ClientWriteOk(h, i, at, data);
  }

  /** The heap after `ops`; None if a write was not permitted. */
  ghost function Run(h: Heap, ops: seq<Op>): (r: Option<Heap>)
    requires Inv(h)
    ensures r.Some? ==> Inv(r.value)
  {
    if ops == [] then Some(h)
    else
      match Run(h, ops[..|ops| - 1])
      case None => None
      case Some(before) => if Permitted(before, ops[|ops| - 1]) then Some(Step(before, ops[|ops| - 1]).0) else None
  }

  /** A run from a freshly initialised heap. */
  ghost function FromReset(bytes: seq<Byte>, ops: seq<Op>): (r: Option<Heap>)
    requires |bytes| == HEAP_SIZE
    ensures r.Some? ==> Inv(r.value)
  {
    ResetOk(bytes);
    Run(Reset(bytes), ops)
  }

  /** In every run freeing never reports corruption, and the corruption check always passes: metadata, sentinel and all live canaries. */
  lemma RunNeverCorrupt(bytes: seq<Byte>, ops: seq<Op>, address: nat)
    requires |bytes| == HEAP_SIZE && FromReset(bytes, ops).Some?
    ensures var h := FromReset(bytes, ops).value;
            Free(h, address).1 != Err(Corruption) && Uncorrupted(h)
  {
    var h := FromReset(bytes, ops).value;
    FreeOk(h, address);
    TiledMetadata(h.blocks);
  }

  // ---- double frees

  /** `address` is in the ring, `age` places behind the most recent entry. */
  ghost predicate Remembers(h: Heap, address: nat, age: nat)
  {
    && |h.recent| == RECENT && h.recentIndex < RECENT && age < RECENT
    && h.recent[(h.recentIndex + RECENT - 1 - age) % RECENT] == address
  }

  ghost predicate Dead(h: Heap, address: nat) { forall b :: !LiveHere(h, address, b) }

  /** Successful frees during a run. */
  ghost function FreesIn(h: Heap, ops: seq<Op>): nat
    requires Inv(h) && Run(h, ops).Some?
  {
    if ops == [] then 0
    else
      var before := ops[..|ops| - 1];
      FreesIn(h, before) + (if Step(Run(h, before).value, ops[|ops| - 1]).1 == Freed then 1 else 0)
  }

  /** Some allocation of the run returned `address`. */
  ghost predicate HandsOut(h: Heap, ops: seq<Op>, address: nat)
    requires Inv(h) && Run(h, ops).Some?
  {
    ops != [] && (HandsOut(h, ops[..|ops| - 1], address) || Step(Run(h, ops[..|ops| - 1]).value, ops[|ops| - 1]).1 == Handed(address))
  }

  lemma RingPush(recent: seq<nat>, index: nat, pushed: nat, address: nat, age: nat)
    requires |recent| == RECENT && index < RECENT && age + 1 < RECENT && recent[(index + RECENT - 1 - age) % RECENT] == address
    ensures recent[index := pushed][((index + 1) % RECENT + RECENT - 1 - (age + 1)) % RECENT] == address
  {
  }

  lemma RingTop(recent: seq<nat>, index: nat, pushed: nat)
    requires |recent| == RECENT && index < RECENT
    ensures recent[index := pushed][((index + 1) % RECENT + RECENT - 1) % RECENT] == pushed
  {
  }

  lemma FewerDead(h: Heap, h': Heap, address: nat)
    requires Dead(h, address) && LiveSet(h'.blocks) <= LiveSet(h.blocks)
    ensures Dead(h', address)
  {
    forall b ensures !LiveHere(h', address, b) { assert !LiveHere(h, address, b); }
  }

  lemma FreeRemembers(h: Heap, other: nat, address: nat, age: nat)
    requires Inv(h) && Remembers(h, address, age) && Dead(h, address) && (Free(h, other).1.Ok? ==> age + 1 < RECENT)
    ensures Remembers(Free(h, other).0, address, if Free(h, other).1.Ok? then age + 1 else age) && Dead(Free(h, other).0, address)
  {
    FreeOk(h, other);
    if Free(h, other).1.Ok? {
      RingPush(h.recent, h.recentIndex, other, address, age);
      FewerDead(h, Free(h, other).0, address);
    }
  }

  lemma StepRemembers(h: Heap, op: Op, address: nat, age: nat)
    requires Inv(h) && Permitted(h, op) && Remembers(h, address, age) && Dead(h, address)
    requires Step(h, op).1 != Handed(address) && (Step(h, op).1 == Freed ==> age + 1 < RECENT)
    ensures Remembers(Step(h, op).0, address, if Step(h, op).1 == Freed then age + 1 else age)
    ensures Dead(Step(h, op).0, address)
  {
    match op
    case OpAlloc(size, align) => AllocKeepsDead(h, size, align, address);
    case OpFree(other) => FreeRemembers(h, other, address, age);
    case OpWrite(at, data) => FewerDead(h, Step(h, op).0, address);
  }

  lemma AddedDead(h: Heap, h': Heap, address: nat, b: Block)
    requires Dead(h, address) && LiveSet(h'.blocks) == LiveSet(h.blocks) + {b} && address != HEAP_BASE + b.payload
    ensures Dead(h', address)
  {
    forall c ensures !LiveHere(h', address, c) { assert !LiveHere(h, address, c); }
  }

  lemma AllocKeepsDead(h: Heap, size: nat, align: nat, address: nat)
    requires Inv(h) && Dead(h, address) && Alloc(h, size, align).1 != Some(address)
    ensures Dead(Alloc(h, size, align).0, address)
    ensures Alloc(h, size, align).0.recent == h.recent && Alloc(h, size, align).0.recentIndex == h.recentIndex
  {
    AllocOk(h, size, align);
    var (h', r) := Alloc(h, size, align);
    if r.Some? {
      var b :| Allocated(h, h', size, align, r.value, b);
      AddedDead(h, h', address, b);
    }
  }

  lemma {:induction false} RunRemembers(h: Heap, ops: seq<Op>, address: nat)
    requires Inv(h) && Run(h, ops).Some? && Remembers(h, address, 0) && Dead(h, address)
    requires FreesIn(h, ops) < RECENT && !HandsOut(h, ops, address)
    ensures Remembers(Run(h, ops).value, address, FreesIn(h, ops)) && Dead(Run(h, ops).value, address)
  {
    if ops != [] {
      var before := ops[..|ops| - 1];
      RunRemembers(h, before, address);
      StepRemembers(Run(h, before).value, ops[|ops| - 1], address, FreesIn(h, before));
    }
  }

  lemma GoneDead(h: Heap, h': Heap, address: nat, b: Block)
    requires Inv(h) && LiveHere(h, address, b) && LiveSet(h'.blocks) == LiveSet(h.blocks) - {b}
    ensures Dead(h', address)
  {
    forall c ensures !LiveHere(h', address, c) {
      if LiveHere(h, address, c) { OneAtAddress(h, address, b, c); }
    }
  }

  lemma FreedState(h: Heap, h': Heap, address: nat, b: Block)
    requires Inv(h) && LiveHere(h, address, b) && LiveSet(h'.blocks) == LiveSet(h.blocks) - {b}
    requires h'.recent == h.recent[h.recentIndex := address] && h'.recentIndex == (h.recentIndex + 1) % RECENT
    ensures Remembers(h', address, 0) && Dead(h', address) && address >= HEAP_BASE
  {
    GoneDead(h, h', address, b);
    RingTop(h.recent, h.recentIndex, address);
  }

  lemma JustFreed(h: Heap, address: nat)
    requires Inv(h) && Free(h, address).1.Ok?
    ensures Remembers(AfterFree(h, address), address, 0) && Dead(AfterFree(h, address), address)
    ensures address >= HEAP_BASE
  {
    FreeOk(h, address);
    var h' := AfterFree(h, address);
    var b :| LiveHere(h, address, b) && LiveSet(h'.blocks) == LiveSet(h.blocks) - {b};
    FreedState(h, h', address, b);
  }

  /** A remembered address that is not live is refused as a double free. */
  lemma DeadRefused(h: Heap, address: nat, age: nat)
    requires Inv(h) && Remembers(h, address, age) && Dead(h, address) && address >= HEAP_BASE
    ensures Free(h, address).1 == Err(DoubleFree)
  {
    FreeOk(h, address);
    assert address in h.recent;
  }

  ghost function AfterFree(h: Heap, address: nat): (r: Heap)
    requires Inv(h)
    ensures Inv(r)
  {
    FreeOk(h, address);
    Free(h, address).0
  }

  /**
   A second free of the same address is reported as a double free, as long as fewer than 16 other
   frees succeeded in between and the address was not handed out again.
   */
  lemma DoubleFreeReported(h: Heap, address: nat, ops: seq<Op>)
    requires Inv(h) && Free(h, address).1.Ok? && Run(AfterFree(h, address), ops).Some?
    requires FreesIn(AfterFree(h, address), ops) < RECENT && !HandsOut(AfterFree(h, address), ops, address)
    ensures Free(Run(AfterFree(h, address), ops).value, address).1 == Err(DoubleFree)
  {
    JustFreed(h, address);
    var freed := AfterFree(h, address);
    RunRemembers(freed, ops, address);
    DeadRefused(Run(freed, ops).value, address, FreesIn(freed, ops));
  }

  // ---- absolute alignment

  function Pow2(k: nat): nat { if k == 0 then 1 else 2 * Pow2(k - 1) }

  lemma {:induction false} PowerIndex(n: nat, k: nat) returns (j: nat)
    requires PowerOfTwo(n) && n <= Pow2(k)
    ensures j <= k && n == Pow2(j)
  {
    if n == 1 {
      j := 0;
    } else {
      j := PowerIndex(n / 2, k - 1);
      j := j + 1;
    }
  }

  lemma {:induction false} PowSplit(j: nat, k: nat)
    ensures Pow2(j + k) == Pow2(j) * Pow2(k)
  {
    if j > 0 { PowSplit(j - 1, k); }
  }

  /** Multiples of a larger power of two are multiples of a smaller one. */
  lemma MultipleOf(n: nat, j: nat, k: nat) returns (q: nat)
    requires j <= k && Pow2(k) > 0 && n % Pow2(k) == 0
    ensures n == q * Pow2(j)
  {
    PowSplit(k - j, j);
    q := n / Pow2(k) * Pow2(k - j);
    assert n == n / Pow2(k) * Pow2(k);
    Regroup(n / Pow2(k), Pow2(k - j), Pow2(j));
  }

  lemma Regroup(a: nat, b: nat, c: nat)
    ensures a * (b * c) == a * b * c
  {
  }

  /** The heap base is page aligned, so addresses are aligned as requested and not just offsets. */
  lemma AddressAligned(payload: nat, align: nat)
    requires PowerOfTwo(align) && align <= MAX_ALIGNMENT && payload % Effective(align) == 0
    ensures (HEAP_BASE + payload) % align == 0
  {
    assert Pow2(12) == 4096 && Pow2(3) == 8;
    var j := PowerIndex(align, 12);
    assert HEAP_BASE % Pow2(12) == 0;
    var base := MultipleOf(HEAP_BASE, j, 12);
    if align < CANARY { SmallPower(j); }
    var offset := MultipleOf(payload, j, if align < CANARY then 3 else j);
    assert HEAP_BASE + payload == (base + offset) * align;
    ModZero(base + offset, align);
  }

  lemma SmallPower(j: nat)
    ensures j >= 4 ==> Pow2(j) >= 16
  {
    if j >= 4 {
      PowSplit(4, j - 4);
      assert Pow2(4) == 16;
      PowPositive(j - 4);
    }
  }

  lemma PowPositive(k: nat)
    ensures Pow2(k) >= 1
  {
  }
}
