/** Canaries, sentinel and the recent-free ring over whole runs of the heap. */
module HeapSafety {
  import opened Common
  import opened HeapModel
  import opened HeapLaws
  import opened HeapBlocks

  // ---- the heap invariant

  ghost predicate Guarded(h: Heap)
  {
    && |h.bytes| == HEAP_SIZE && SentinelOk(h.bytes)
    && (forall i :: 0 <= i < |h.blocks| && h.blocks[i].active && h.blocks[i].live ==> CanariesOk(h.bytes, h.blocks[i]))
  }

  ghost predicate Inv(h: Heap)
  {
    Normal(h.blocks) && Guarded(h) && |h.recent| == RECENT && h.recentIndex < RECENT
  }

  lemma ResetOk(bytes: seq<Byte>)
    requires |bytes| == HEAP_SIZE
    ensures Inv(Reset(bytes)) && LiveSet(Reset(bytes).blocks) == {}
  {
    var h := Reset(bytes);
    forall x | SENTINEL <= x < HEAP_SIZE ensures Held(h.blocks, x) { assert In(h.blocks, 0, x); }
    EmptyCovered(h.blocks, |h.blocks|);
    assert h.blocks[..|h.blocks|] == h.blocks;
  }

  lemma {:induction false} EmptyCovered(blocks: seq<Block>, n: nat)
    requires 1 <= n <= |blocks| && blocks[0].active && forall i :: 1 <= i < |blocks| ==> !blocks[i].active
    ensures Covered(blocks[..n]) == blocks[0].size
  {
    assert blocks[..n][..n - 1] == blocks[..n - 1];
    if n > 1 { EmptyCovered(blocks, n - 1); } else { assert blocks[..0] == []; }
  }

  // ---- memory

  lemma PutElsewhere(bytes: seq<Byte>, at: nat, data: seq<Byte>, from: int, word: seq<Byte>)
    requires at + |data| <= |bytes| && Holds(bytes, from, word) && (from + |word| <= at || at + |data| <= from)
    ensures Holds(Put(bytes, at, data), from, word)
  {
    var after := Put(bytes, at, data);
    forall k | 0 <= k < |word| ensures after[from + k] == word[k] { assert bytes[from..from + |word|][k] == word[k]; }
    assert after[from..from + |word|] == word;
  }

  lemma PutHere(bytes: seq<Byte>, at: nat, data: seq<Byte>)
    requires at + |data| <= |bytes|
    ensures Holds(Put(bytes, at, data), at, data)
  {
    assert Put(bytes, at, data)[at..at + |data|] == data;
  }

  /** Bytes between the canaries, canaries included. */
  lemma Extent(b: Block)
    requires BlockSane(b) && b.live
    ensures SENTINEL <= b.offset <= b.payload - CANARY && PayloadEnd(b) + CANARY <= End(b) <= HEAP_SIZE
  {
  }

  lemma CanariesKept(bytes: seq<Byte>, at: nat, data: seq<Byte>, b: Block)
    requires at + |data| <= |bytes| && CanariesOk(bytes, b)
    requires at + |data| <= b.payload - CANARY || PayloadEnd(b) + CANARY <= at || (b.payload <= at && at + |data| <= PayloadEnd(b))
    ensures CanariesOk(Put(bytes, at, data), b)
  {
    PutElsewhere(bytes, at, data, b.payload - CANARY, HEAD_CANARY);
    PutElsewhere(bytes, at, data, PayloadEnd(b), TAIL_CANARY);
  }

  lemma SentinelKept(bytes: seq<Byte>, at: nat, data: seq<Byte>)
    requires at + |data| <= |bytes| && SentinelOk(bytes) && SENTINEL <= at
    ensures SentinelOk(Put(bytes, at, data))
  {
  }

  /** Two live blocks: whatever lies in one lies outside the other, canaries included. */
  lemma LiveApart(blocks: seq<Block>, i: nat, j: nat)
    requires Tiled(blocks) && i < |blocks| && j < |blocks| && i != j
    requires blocks[i].active && blocks[i].live && blocks[j].active && blocks[j].live
    ensures PayloadEnd(blocks[i]) + CANARY <= blocks[j].payload - CANARY || PayloadEnd(blocks[j]) + CANARY <= blocks[i].payload - CANARY
    ensures blocks[i].payload != blocks[j].payload
  {
    assert BlockSane(blocks[i]) && BlockSane(blocks[j]);
    Extent(blocks[i]);
    Extent(blocks[j]);
    assert i < j ==> !RangesOverlap(blocks[i], blocks[j]);
    assert j < i ==> !RangesOverlap(blocks[j], blocks[i]);
  }

  /** Clients that stay inside their own payloads never disturb a canary or the sentinel. */
  lemma ClientWriteOk(h: Heap, i: nat, at: nat, data: seq<Byte>)
    requires Inv(h) && InsidePayload(h, i, at, |data|)
    ensures at + |data| <= |h.bytes| && Inv(ClientWrite(h, at, data))
  {
    assert BlockSane(h.blocks[i]);
    Extent(h.blocks[i]);
    SentinelKept(h.bytes, at, data);
    var after := Put(h.bytes, at, data);
    forall j | 0 <= j < |h.blocks| && h.blocks[j].active && h.blocks[j].live ensures CanariesOk(after, h.blocks[j]) {
      if j != i { LiveApart(h.blocks, i, j); }
      CanariesKept(h.bytes, at, data, h.blocks[j]);
    }
  }

  // ---- allocation

  lemma MarkOk(bytes: seq<Byte>, b: Block)
    requires |bytes| == HEAP_SIZE && BlockSane(b) && b.live
    ensures CanariesOk(Mark(bytes, b), b) && (SentinelOk(bytes) ==> SentinelOk(Mark(bytes, b)))
  {
    Extent(b);
    var once := Put(bytes, b.payload - CANARY, HEAD_CANARY);
    PutHere(bytes, b.payload - CANARY, HEAD_CANARY);
    PutHere(once, PayloadEnd(b), TAIL_CANARY);
    PutElsewhere(once, PayloadEnd(b), TAIL_CANARY, b.payload - CANARY, HEAD_CANARY);
    if SentinelOk(bytes) {
      SentinelKept(bytes, b.payload - CANARY, HEAD_CANARY);
      SentinelKept(once, PayloadEnd(b), TAIL_CANARY);
    }
  }

  lemma MarkKeeps(bytes: seq<Byte>, b: Block, c: Block)
    requires |bytes| == HEAP_SIZE && BlockSane(b) && b.live && CanariesOk(bytes, c)
    requires PayloadEnd(b) + CANARY <= c.payload - CANARY || PayloadEnd(c) + CANARY <= b.payload - CANARY
    ensures CanariesOk(Mark(bytes, b), c)
  {
    Extent(b);
    var once := Put(bytes, b.payload - CANARY, HEAD_CANARY);
    CanariesKept(bytes, b.payload - CANARY, HEAD_CANARY, c);
    CanariesKept(once, PayloadEnd(b), TAIL_CANARY, c);
  }

  /** The live set after carving: every old live block is still there, and apart from the new one. */
  lemma CarvedLive(blocks: seq<Block>, i: nat, size: nat, align: nat, j: nat)
    requires Normal(blocks) && i < |blocks| && Fits(blocks[i], size, align) && ValidRequest(size, align)
    requires j < |Carve(blocks, i, size, align)| && j != i
    requires Carve(blocks, i, size, align)[j].active && Carve(blocks, i, size, align)[j].live
    ensures blocks[j] == Carve(blocks, i, size, align)[j]
  {
  }

  lemma AllocGuarded(h: Heap, i: nat, size: nat, align: nat)
    requires Inv(h) && i < |h.blocks| && Fits(h.blocks[i], size, align) && ValidRequest(size, align)
    ensures var blocks := Carve(h.blocks, i, size, align);
            i < |blocks| && Guarded(Heap(blocks, h.recent, h.recentIndex, Mark(h.bytes, blocks[i])))
  {
    CarveOk(h.blocks, i, size, align);
    var blocks := Carve(h.blocks, i, size, align);
    assert BlockSane(blocks[i]);
    MarkOk(h.bytes, blocks[i]);
    forall j | 0 <= j < |blocks| && blocks[j].active && blocks[j].live ensures CanariesOk(Mark(h.bytes, blocks[i]), blocks[j]) {
      if j != i {
        CarvedLive(h.blocks, i, size, align, j);
        LiveApart(blocks, i, j);
        MarkKeeps(h.bytes, blocks[i], blocks[j]);
      }
    }
  }

  /** What a successful allocation adds: one live block, aligned, of the requested size. */
  ghost predicate Allocated(h: Heap, h': Heap, size: nat, align: nat, address: nat, b: Block)
  {
    && b !in LiveSet(h.blocks) && LiveSet(h'.blocks) == LiveSet(h.blocks) + {b}
    && address == HEAP_BASE + b.payload && b.requested == size && b.live && b.active && BlockSane(b)
    && b.payload % Effective(align) == 0 && h'.recent == h.recent && h'.recentIndex == h.recentIndex
  }

  /** A valid request fails only if no free block fits it with its alignment and canaries. */
  lemma AllocOk(h: Heap, size: nat, align: nat)
    requires Inv(h)
    ensures var (h', r) := Alloc(h, size, align);
            && Inv(h')
            && (r.Some? <==> ValidRequest(size, align) && exists j :: 0 <= j < |h.blocks| && Fits(h.blocks[j], size, align))
            && (r.None? ==> h' == h)
            && (r.Some? ==> exists b :: Allocated(h, h', size, align, r.value, b))
  {
    TiledMetadata(h.blocks);
    var found := FirstFit(h.blocks, size, align);
    if ValidRequest(size, align) && found.Some? {
      var i := found.value;
      CarveOk(h.blocks, i, size, align);
      AllocGuarded(h, i, size, align);
      var (h', r) := Alloc(h, size, align);
      assert BlockSane(h'.blocks[i]);
      assert Allocated(h, h', size, align, r.value, h'.blocks[i]);
    }
  }

  // ---- freeing

  lemma FreedGuarded(h: Heap, blocks: seq<Block>)
    requires Guarded(h) && LiveSet(blocks) <= LiveSet(h.blocks)
    ensures Guarded(h.(blocks := blocks))
  {
    forall j | 0 <= j < |blocks| && blocks[j].active && blocks[j].live ensures CanariesOk(h.bytes, blocks[j]) {
      assert blocks[j] in LiveSet(blocks);
      var k :| 0 <= k < |h.blocks| && h.blocks[k].active && h.blocks[k].live && h.blocks[k] == blocks[j];
    }
  }

  ghost predicate LiveHere(h: Heap, address: nat, b: Block) { b in LiveSet(h.blocks) && address == HEAP_BASE + b.payload }

  /** At most one live block starts at an address. */
  lemma OneAtAddress(h: Heap, address: nat, b: Block, c: Block)
    requires Inv(h) && LiveHere(h, address, b) && LiveHere(h, address, c)
    ensures b == c
  {
    var i :| 0 <= i < |h.blocks| && h.blocks[i].active && h.blocks[i].live && h.blocks[i] == b;
    var j :| 0 <= j < |h.blocks| && h.blocks[j].active && h.blocks[j].live && h.blocks[j] == c;
    if i != j { LiveApart(h.blocks, i, j); }
  }

  /** Freeing succeeds exactly on the address of a live block and never reports corruption. */
  lemma FreeOk(h: Heap, address: nat)
    requires Inv(h)
    ensures var (h', r) := Free(h, address);
            && Inv(h') && r != Err(Corruption)
            && (r.Ok? <==> exists b :: LiveHere(h, address, b))
            && (r.Err? ==> h' == h && forall b :: !LiveHere(h, address, b))
            && (r.Ok? ==> && h'.bytes == h.bytes && h'.recent == h.recent[h.recentIndex := address]
                          && h'.recentIndex == (h.recentIndex + 1) % RECENT
                          && exists b :: LiveHere(h, address, b) && LiveSet(h'.blocks) == LiveSet(h.blocks) - {b})
  {
    var found := if address < HEAP_BASE then None else FindLive(h.blocks, address - HEAP_BASE);
    if found.Some? {
      var i := found.value;
      assert LiveHere(h, address, h.blocks[i]);
      ReleasedOk(h.blocks, i);
      FreedGuarded(h, Released(h.blocks, i));
      assert LiveSet(Free(h, address).0.blocks) == LiveSet(h.blocks) - {h.blocks[i]};
    }
  }

  // ---- round trips

  /** Allocating and freeing again restores the same live and free blocks. */
  lemma AllocFreeRestores(h: Heap, size: nat, align: nat)
    requires Inv(h) && Alloc(h, size, align).1.Some?
    ensures var (h1, address) := (Alloc(h, size, align).0, Alloc(h, size, align).1.value);
            var (h2, r) := Free(h1, address);
            r.Ok? && LiveSet(h2.blocks) == LiveSet(h.blocks) && FreeSet(h2.blocks) == FreeSet(h.blocks)
  {
    AllocOk(h, size, align);
    var (h1, address) := (Alloc(h, size, align).0, Alloc(h, size, align).1.value);
    var b :| Allocated(h, h1, size, align, address, b);
    assert LiveHere(h1, address, b);
    FreeOk(h1, address);
    var h2 := Free(h1, address).0;
    var c :| LiveHere(h1, address, c) && LiveSet(h2.blocks) == LiveSet(h1.blocks) - {c};
    OneAtAddress(h1, address, b, c);
    NormalUnique(h2.blocks, h.blocks);
  }

  /** With nothing live, the whole heap is one free block. */
  lemma AllFree(h: Heap)
    requires Inv(h) && LiveSet(h.blocks) == {}
    ensures FreeSet(h.blocks) == {FreeBlock(SENTINEL, HEAP_SIZE - SENTINEL)}
  {
    ResetOk(h.bytes);
    var start := Reset(h.bytes);
    NormalUnique(h.blocks, start.blocks);
    assert FreeAt(start.blocks, 0) && start.blocks[0] == FreeBlock(SENTINEL, HEAP_SIZE - SENTINEL);
    assert forall i :: FreeAt(start.blocks, i) ==> i == 0;
  }
}
