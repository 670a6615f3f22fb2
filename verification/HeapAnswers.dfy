/** What the heap answers, said of places and bytes instead of the code's own tests. */
module HeapAnswers {
  import opened Common
  import opened HeapModel
  import opened HeapLaws
  import opened HeapBlocks
  import opened HeapSafety
  import opened HeapRuns

  // ---- allocation

  function AtLeast8(align: nat): nat { if align < 8 then 8 else align }

  predicate GoodRequest(size: nat, align: nat)
  {
    size > 0 && align in {1, 2, 4, 8, 16, 32, 64, 128, 256, 512, 1024, 2048, 4096}
  }

  /** A payload at `p` fits the free block with its alignment and eight bytes of canary on each side. */
  predicate Place(b: Block, size: nat, align: nat, p: nat)
  {
    b.active && !b.live && p % AtLeast8(align) == 0 && b.offset + 8 <= p && p + size + 8 <= b.offset + b.size
  }

  ghost predicate HasPlace(b: Block, size: nat, align: nat) { exists p: nat :: Place(b, size, align, p) }

  lemma GoodIsValid(size: nat, align: nat)
    ensures ValidRequest(size, align) <==> GoodRequest(size, align)
  {
    if ValidRequest(size, align) {
      SmallPowers(12);
      var j := PowerIndex(align, 12);
      SmallPowers(j);
    }
    if GoodRequest(size, align) { ListedPowers(); }
  }

  lemma SmallPowers(j: nat)
    requires j <= 12
    ensures Pow2(j) in {1, 2, 4, 8, 16, 32, 64, 128, 256, 512, 1024, 2048, 4096} && Pow2(12) == 4096
  {
    assert Pow2(0) == 1 && Pow2(1) == 2 && Pow2(2) == 4 && Pow2(3) == 8 && Pow2(4) == 16 && Pow2(5) == 32 && Pow2(6) == 64;
    assert Pow2(7) == 128 && Pow2(8) == 256 && Pow2(9) == 512 && Pow2(10) == 1024 && Pow2(11) == 2048 && Pow2(12) == 4096;
  }

  lemma ListedPowers()
    ensures forall n: nat :: n in {1, 2, 4, 8, 16, 32, 64, 128, 256, 512, 1024, 2048, 4096} ==> PowerOfTwo(n)
  {
    assert PowerOfTwo(1) && PowerOfTwo(2) && PowerOfTwo(4) && PowerOfTwo(8) && PowerOfTwo(16) && PowerOfTwo(32) && PowerOfTwo(64);
    assert PowerOfTwo(128) && PowerOfTwo(256) && PowerOfTwo(512) && PowerOfTwo(1024) && PowerOfTwo(2048) && PowerOfTwo(4096);
  }

  /** The code tries one place only, and that is the lowest there is. */
  lemma LowestPlace(b: Block, size: nat, align: nat)
    ensures Fits(b, size, align) <==> HasPlace(b, size, align)
    ensures Fits(b, size, align) ==> Place(b, size, align, PayloadAt(b, align))
    ensures forall p: nat :: Place(b, size, align, p) ==> PayloadAt(b, align) <= p
  {
    AlignUpOk(b.offset + CANARY, Effective(align));
    forall p: nat | Place(b, size, align, p) ensures PayloadAt(b, align) <= p { LowestMultiple(b.offset + CANARY, Effective(align), p); }
    if Fits(b, size, align) { assert Place(b, size, align, PayloadAt(b, align)); }
  }

  lemma LowestMultiple(n: nat, a: nat, p: nat)
    requires a > 0 && p % a == 0 && n <= p
    ensures AlignUp(n, a) <= p
  {
    AlignUpOk(n, a);
    var (q, r) := (AlignUp(n, a) / a, p / a);
    assert AlignUp(n, a) == q * a && p == r * a;
    if p < AlignUp(n, a) { Spaced(q, r, a); }
  }

  lemma Spaced(q: nat, r: nat, a: nat)
    requires r * a < q * a
    ensures r * a + a <= q * a
  {
    var d: int := q - r;
    assert d * a == q * a - r * a;
    assert d <= 0 ==> d * a <= 0;
    assert d >= 1 ==> d * a >= a;
  }

  /** The table after a payload at `p` was taken from block `j`. */
  ghost predicate Took(before: seq<Block>, after: seq<Block>, j: nat, size: nat, align: nat, p: nat)
    requires j < |before| && before[j].offset <= p && p + size + 8 <= before[j].offset + before[j].size
  {
    var (b, end) := (before[j], p + size + 8);
    if b.offset + b.size - end >= 32 && exists m :: 0 <= m < |before| && !before[m].active then
      exists m: nat ::
        && m < |before| && !before[m].active
        && after == before[j := Block(b.offset, end - b.offset, p, size, AtLeast8(align), true, true)]
                          [m := Block(end, b.offset + b.size - end, 0, 0, 0, false, true)]
    else after == before[j := Block(b.offset, b.size, p, size, AtLeast8(align), true, true)]
  }

  /** First fit: the lowest place in the first block that has one; at least 32 bytes left over become a free block if the table has room. */
  ghost predicate AllocAllowed(h: Heap, size: nat, align: nat, h': Heap, r: Option<nat>)
  {
    match r
    case None => h' == h && (GoodRequest(size, align) ==> forall j :: 0 <= j < |h.blocks| ==> !HasPlace(h.blocks[j], size, align))
    case Some(address) =>
      && GoodRequest(size, align)
      && exists j: nat, p: nat :: TookFirst(h, h', j, size, align, p) && address == 0xffff_8000_0100_1000 + p
  }

  ghost predicate TookFirst(h: Heap, h': Heap, j: nat, size: nat, align: nat, p: nat)
  {
    && j < |h.blocks| && Place(h.blocks[j], size, align, p) && (forall q: nat :: Place(h.blocks[j], size, align, q) ==> p <= q)
    && (forall i :: 0 <= i < j ==> !HasPlace(h.blocks[i], size, align))
    && Took(h.blocks, h'.blocks, j, size, align, p) && h'.recent == h.recent && h'.recentIndex == h.recentIndex
  }

  lemma CarveTook(blocks: seq<Block>, j: nat, size: nat, align: nat)
    requires j < |blocks| && Fits(blocks[j], size, align)
    ensures blocks[j].offset <= PayloadAt(blocks[j], align)
    ensures Took(blocks, Carve(blocks, j, size, align), j, size, align, PayloadAt(blocks[j], align))
  {
    CarvedShape(blocks, Carve(blocks, j, size, align), j, size, align, PayloadAt(blocks[j], align));
  }

  lemma CarvedShape(blocks: seq<Block>, after: seq<Block>, j: nat, size: nat, align: nat, p: nat)
    requires j < |blocks| && blocks[j].offset <= p && p + size + 8 <= End(blocks[j])
    requires var (b, end, slot) := (blocks[j], p + size + 8, FreeSlot(blocks));
             after == if End(b) - end < 32 || slot.None? then blocks[j := Block(b.offset, b.size, p, size, AtLeast8(align), true, true)]
                      else blocks[j := Block(b.offset, end - b.offset, p, size, AtLeast8(align), true, true)][slot.value := FreeBlock(end, End(b) - end)]
    ensures Took(blocks, after, j, size, align, p)
  {
    var slot := FreeSlot(blocks);
    if slot.Some? { assert !blocks[slot.value].active; }
  }

  lemma AllocAnswer(h: Heap, size: nat, align: nat)
    requires Inv(h)
    ensures AllocAllowed(h, size, align, Alloc(h, size, align).0, Alloc(h, size, align).1)
  {
    TiledMetadata(h.blocks);
    GoodIsValid(size, align);
    forall j | 0 <= j < |h.blocks| ensures Fits(h.blocks[j], size, align) <==> HasPlace(h.blocks[j], size, align) { LowestPlace(h.blocks[j], size, align); }
    var found := FirstFit(h.blocks, size, align);
    if ValidRequest(size, align) && found.Some? {
      var j := found.value;
      LowestPlace(h.blocks[j], size, align);
      CarveTook(h.blocks, j, size, align);
      assert TookFirst(h, Alloc(h, size, align).0, j, size, align, PayloadAt(h.blocks[j], align));
    }
  }

  // ---- freeing

  /** Both canaries around a payload, byte by byte. */
  predicate Intact(bytes: seq<Byte>, from: nat, to: nat)
  {
    && 8 <= from && to + 8 <= |bytes| && from <= to
    && bytes[from - 8..from] == [0x44, 0x41, 0x45, 0x48, 0x50, 0x41, 0x45, 0x48]
    && bytes[to..to + 8] == [0x4c, 0x49, 0x41, 0x54, 0x50, 0x41, 0x45, 0x48]
  }

  ghost predicate LiveBlockAt(h: Heap, address: nat, i: int)
  {
    0 <= i < |h.blocks| && h.blocks[i].active && h.blocks[i].live && address == 0xffff_8000_0100_1000 + h.blocks[i].payload
  }

  /**
   Whatever state the heap is in: a live block is refused exactly if a canary is damaged; an address
   without one is a double free exactly if it is among the last sixteen freed, else no pointer at all.
   */
  lemma FreeAnswer(h: Heap, address: nat)
    requires |h.recent| == RECENT && h.recentIndex < RECENT
    ensures var (h', r) := Free(h, address);
            && (r.Err? ==> h' == h)
            && ((exists i :: LiveBlockAt(h, address, i)) ==>
                  exists i :: LiveBlockAt(h, address, i) && (if Intact(h.bytes, h.blocks[i].payload, PayloadEnd(h.blocks[i])) then r == Ok(()) else r == Err(Corruption)))
            && (!(exists i :: LiveBlockAt(h, address, i)) ==> r == Err(if address in h.recent && address != 0 then DoubleFree else InvalidPointer))
  {
    var found := if address < HEAP_BASE then None else FindLive(h.blocks, address - HEAP_BASE);
    if found.Some? {
      var b := h.blocks[found.value];
      assert LiveBlockAt(h, address, found.value);
      assert CanariesOk(h.bytes, b) <==> Intact(h.bytes, b.payload, PayloadEnd(b));
    }
  }

  // ---- the metadata check

  ghost function Between(a: int, b: int): (r: set<int>)
    ensures forall x :: x in r <==> a <= x < b
    decreases b - a
  {
    if a >= b then {} else Between(a, b - 1) + {b - 1}
  }

  lemma {:induction false} BetweenSize(a: int, b: int)
    requires a <= b
    ensures |Between(a, b)| == b - a
    decreases b - a
  {
    if a < b {
      BetweenSize(a, b - 1);
      assert Between(a, b) == Between(a, b - 1) + {b - 1};
    }
  }

  /** The bytes that lie in some block. */
  ghost function HeldBytes(blocks: seq<Block>): set<int> { set x | SENTINEL <= x < HEAP_SIZE && Held(blocks, x) }

  lemma {:induction false} HeldCount(blocks: seq<Block>)
    requires Apart(blocks) && forall i :: 0 <= i < |blocks| && blocks[i].active ==> SENTINEL <= blocks[i].offset && End(blocks[i]) <= HEAP_SIZE
    ensures |HeldBytes(blocks)| == Covered(blocks)
  {
    if blocks == [] {
      assert HeldBytes(blocks) == {};
    } else {
      var (n, b) := (|blocks| - 1, blocks[|blocks| - 1]);
      var rest := blocks[..n];
      assert forall i :: 0 <= i < n ==> rest[i] == blocks[i];
      HeldCount(rest);
      HeldMore(blocks, rest, n);
      if b.active { BetweenSize(b.offset, End(b)); }
    }
  }

  lemma HeldMore(blocks: seq<Block>, rest: seq<Block>, n: nat)
    requires n + 1 == |blocks| && rest == blocks[..n] && Apart(blocks)
    requires forall i :: 0 <= i < |blocks| && blocks[i].active ==> SENTINEL <= blocks[i].offset && End(blocks[i]) <= HEAP_SIZE
    ensures var own := if blocks[n].active then Between(blocks[n].offset, End(blocks[n])) else {};
            HeldBytes(blocks) == HeldBytes(rest) + own && HeldBytes(rest) !! own
  {
    var own := if blocks[n].active then Between(blocks[n].offset, End(blocks[n])) else {};
    assert forall i :: 0 <= i < n ==> rest[i] == blocks[i];
    forall x ensures x in HeldBytes(blocks) <==> x in HeldBytes(rest) + own {
      forall i | 0 <= i < n ensures In(rest, i, x) <==> In(blocks, i, x) {}
      if x in own { assert In(blocks, n, x); }
      if x in HeldBytes(blocks) {
        var i :| In(blocks, i, x);
        if i < n { assert In(rest, i, x); }
      }
      if x in HeldBytes(rest) {
        var i :| In(rest, i, x);
        assert In(blocks, i, x);
      }
    }
    forall x | x in HeldBytes(rest) ensures x !in own {
      var i :| In(rest, i, x);
      assert !blocks[n].active || !RangesOverlap(blocks[i], blocks[n]);
    }
  }

  /** One block as the check wants it. */
  predicate BlockGood(b: Block)
  {
    && b.size > 0 && 64 <= b.offset && b.offset + b.size <= 0x1_0000
    && (b.live ==> && b.offset + 8 <= b.payload && b.payload + b.requested + 8 <= b.offset + b.size
                   && b.alignment >= 8 && PowerOfTwo(b.alignment) && b.payload % b.alignment == 0)
  }

  /** The check passes exactly if every block is good and every byte after the sentinel lies in exactly one. */
  lemma MetadataAnswer(blocks: seq<Block>)
    ensures MetadataOk(blocks) <==>
              && (forall i :: 0 <= i < |blocks| && blocks[i].active ==> BlockGood(blocks[i]))
              && (forall x :: 64 <= x < 0x1_0000 ==> Held(blocks, x))
              && (forall i, j, x :: In(blocks, i, x) && In(blocks, j, x) ==> i == j)
  {
    forall i | 0 <= i < |blocks| ensures BlockSane(blocks[i]) <==> BlockGood(blocks[i]) { GoodIsSane(blocks[i]); }
    if forall i :: 0 <= i < |blocks| && blocks[i].active ==> BlockGood(blocks[i]) { GoodCover(blocks); }
  }

  lemma GoodIsSane(b: Block)
    ensures BlockSane(b) <==> BlockGood(b)
    ensures BlockGood(b) ==> b.size > 0 && SENTINEL <= b.offset && End(b) <= HEAP_SIZE && (b.live ==> b.requested <= b.size)
  {
  }

  lemma GoodCover(blocks: seq<Block>)
    requires forall i :: 0 <= i < |blocks| && blocks[i].active ==> BlockGood(blocks[i])
    ensures Apart(blocks) <==> forall i, j, x :: In(blocks, i, x) && In(blocks, j, x) ==> i == j
    ensures Apart(blocks) ==> (Covered(blocks) == HEAP_SIZE - SENTINEL <==> forall x :: SENTINEL <= x < HEAP_SIZE ==> Held(blocks, x))
    ensures Accounted(blocks) <= Covered(blocks)
  {
    forall i | 0 <= i < |blocks| && blocks[i].active
      ensures blocks[i].size > 0 && SENTINEL <= blocks[i].offset && End(blocks[i]) <= HEAP_SIZE && (blocks[i].live ==> blocks[i].requested <= blocks[i].size)
    {
      GoodIsSane(blocks[i]);
    }
    ApartIff(blocks);
    AccountedBound(blocks);
    if Apart(blocks) {
      HeldCount(blocks);
      BetweenSize(SENTINEL, HEAP_SIZE);
      AllHeld(blocks);
    }
  }

  lemma ApartIff(blocks: seq<Block>)
    requires forall i :: 0 <= i < |blocks| && blocks[i].active ==> blocks[i].size > 0
    ensures Apart(blocks) <==> forall i, j, x :: In(blocks, i, x) && In(blocks, j, x) ==> i == j
  {
    if forall i, j, x :: In(blocks, i, x) && In(blocks, j, x) ==> i == j {
      forall i, j | 0 <= i < j < |blocks| && blocks[i].active && blocks[j].active ensures !RangesOverlap(blocks[i], blocks[j]) {
        var x := if blocks[i].offset < blocks[j].offset then blocks[j].offset else blocks[i].offset;
        assert In(blocks, i, x) && In(blocks, j, x) ==> i == j;
      }
    }
  }

  lemma AllHeld(blocks: seq<Block>)
    ensures |HeldBytes(blocks)| == |Between(SENTINEL, HEAP_SIZE)| <==> forall x :: SENTINEL <= x < HEAP_SIZE ==> Held(blocks, x)
  {
    var (held, all) := (HeldBytes(blocks), Between(SENTINEL, HEAP_SIZE));
    assert held <= all;
    if |held| == |all| {
      SameSizeSame(held, all);
      forall x | SENTINEL <= x < HEAP_SIZE ensures Held(blocks, x) { assert x in all; }
    }
    if forall x :: SENTINEL <= x < HEAP_SIZE ==> Held(blocks, x) { assert held == all; }
  }

  lemma SameSizeSame(a: set<int>, b: set<int>)
    requires a <= b && |a| == |b|
    ensures a == b
  {
    if exists x :: x in b && x !in a {
      var x :| x in b && x !in a;
      SubsetSize(a + {x}, b);
      assert false;
    }
  }
}
