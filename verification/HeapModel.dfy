/**
 The kernel heap over values: a table of blocks that tile the heap, canaries around live payloads,
 first-fit allocation with splitting, and coalescing on free. Offsets are relative to HEAP_BASE.
 */
module HeapModel {
  import opened Common

  const HEAP_BASE: nat := 0xffff_8000_0100_1000
  const HEAP_SIZE: nat := 0x1_0000
  const SENTINEL: nat := 64
  const CANARY: nat := 8
  const MIN_SPLIT: nat := 32
  const MAX_BLOCKS: nat := 96
  const RECENT: nat := 16
  const MAX_ALIGNMENT: nat := 4096

  datatype Block = Block(offset: nat, size: nat, payload: nat, requested: nat, alignment: nat, live: bool, active: bool)

  const NO_BLOCK := Block(0, 0, 0, 0, 0, false, false)

  function FreeBlock(offset: nat, size: nat): Block { Block(offset, size, 0, 0, 0, false, true) }

  function End(b: Block): nat { b.offset + b.size }

  function PayloadEnd(b: Block): nat { b.payload + b.requested }

  /** Block table, recent-free ring and heap memory. */
  datatype Heap = Heap(blocks: seq<Block>, recent: seq<nat>, recentIndex: nat, bytes: seq<Byte>)

  // ---- memory

  /** The two 64-bit canary words, least significant byte first. */
  const HEAD_CANARY: seq<Byte> := [0x44, 0x41, 0x45, 0x48, 0x50, 0x41, 0x45, 0x48]
  const TAIL_CANARY: seq<Byte> := [0x4c, 0x49, 0x41, 0x54, 0x50, 0x41, 0x45, 0x48]

  function SentinelByte(i: nat): Byte { Xor8(0x5a, i * 17 % 256) }

  function Xor8(a: Byte, b: Byte): Byte
  {
    (((a as bv8) ^ (b as bv8)) as int) as Byte
  }

  function Put(bytes: seq<Byte>, at: nat, data: seq<Byte>): (r: seq<Byte>)
    requires at + |data| <= |bytes|
    ensures |r| == |bytes|
  {
    bytes[..at] + data + bytes[at + |data|..]
  }

  predicate Holds(bytes: seq<Byte>, at: int, data: seq<Byte>)
  {
    0 <= at && at + |data| <= |bytes| && bytes[at..at + |data|] == data
  }

  predicate CanariesOk(bytes: seq<Byte>, b: Block)
  {
    Holds(bytes, b.payload - CANARY, HEAD_CANARY) && Holds(bytes, PayloadEnd(b), TAIL_CANARY)
  }

  function WriteCanaries(bytes: seq<Byte>, b: Block): (r: seq<Byte>)
    requires CANARY <= b.payload && PayloadEnd(b) + CANARY <= |bytes|
    ensures |r| == |bytes|
  {
    Put(Put(bytes, b.payload - CANARY, HEAD_CANARY), PayloadEnd(b), TAIL_CANARY)
  }

  // ---- requests

  predicate PowerOfTwo(n: nat)
    decreases n
  {
    n == 1 || (n > 1 && n % 2 == 0 && PowerOfTwo(n / 2))
  }

  function AlignUp(n: nat, a: nat): (r: nat)
    requires a > 0
    ensures n <= r
  {
    var q := (n + a - 1) / a;
    assert n + a - 1 == q * a + (n + a - 1) % a;
    q * a
  }

  function Effective(align: nat): (r: nat)
    ensures r >= CANARY
  {
    if align < CANARY then CANARY else align
  }

  function PayloadAt(b: Block, align: nat): nat { AlignUp(b.offset + CANARY, Effective(align)) }

  function UsedEnd(b: Block, size: nat, align: nat): nat { PayloadAt(b, align) + size + CANARY }

  /** A free block that can hold the request, its alignment and both canaries. */
  predicate Fits(b: Block, size: nat, align: nat) { b.active && !b.live && UsedEnd(b, size, align) <= End(b) }

  predicate ValidRequest(size: nat, align: nat) { size != 0 && PowerOfTwo(align) && align <= MAX_ALIGNMENT }

  // ---- the metadata check made before every allocation

  predicate RangesOverlap(a: Block, b: Block) { a.offset < End(b) && b.offset < End(a) }

  predicate ShapeOk(b: Block)
  {
    && b.offset + CANARY <= b.payload && PayloadEnd(b) + CANARY <= End(b)
    && b.alignment >= CANARY && PowerOfTwo(b.alignment) && b.payload % b.alignment == 0
  }

  predicate BlockSane(b: Block) { b.size != 0 && SENTINEL <= b.offset && End(b) <= HEAP_SIZE && (b.live ==> ShapeOk(b)) }

  function Covered(blocks: seq<Block>): nat
  {
    if blocks == [] then 0
    else Covered(blocks[..|blocks| - 1]) + (if blocks[|blocks| - 1].active then blocks[|blocks| - 1].size else 0)
  }

  /** Bytes asked for by live blocks plus bytes in free blocks. */
  function Accounted(blocks: seq<Block>): nat
  {
    if blocks == [] then 0
    else
      var b := blocks[|blocks| - 1];
      Accounted(blocks[..|blocks| - 1]) + (if !b.active then 0 else if b.live then b.requested else b.size)
  }

  predicate MetadataOk(blocks: seq<Block>)
  {
    && (forall i :: 0 <= i < |blocks| && blocks[i].active ==> BlockSane(blocks[i]))
    && (forall i, j :: 0 <= i < j < |blocks| && blocks[i].active && blocks[j].active ==> !RangesOverlap(blocks[i], blocks[j]))
    && Covered(blocks) == HEAP_SIZE - SENTINEL
    && Accounted(blocks) <= HEAP_SIZE
  }

  // ---- allocation

  function FirstFit(blocks: seq<Block>, size: nat, align: nat): (r: Option<nat>)
    ensures r.Some? ==> r.value < |blocks| && Fits(blocks[r.value], size, align)
    ensures r.None? ==> forall j :: 0 <= j < |blocks| ==> !Fits(blocks[j], size, align)
  {
    First(blocks, (b: Block) => Fits(b, size, align))
  }

  function FreeSlot(blocks: seq<Block>): (r: Option<nat>)
    ensures r.Some? ==> r.value < |blocks| && !blocks[r.value].active
    ensures r.None? ==> forall j :: 0 <= j < |blocks| ==> blocks[j].active
  {
    First(blocks, (b: Block) => !b.active)
  }

  function LiveBlock(b: Block, length: nat, size: nat, align: nat): Block
  {
    Block(b.offset, length, PayloadAt(b, align), size, Effective(align), true, true)
  }

  /** Block `i` becomes live; what is left over is split off if it is large enough and a slot is free. */
  function Carve(blocks: seq<Block>, i: nat, size: nat, align: nat): seq<Block>
    requires i < |blocks| && Fits(blocks[i], size, align)
  {
    var b := blocks[i];
    var used := UsedEnd(b, size, align);
    if End(b) - used < MIN_SPLIT then blocks[i := LiveBlock(b, b.size, size, align)]
    else
      match FreeSlot(blocks)
      case None => blocks[i := LiveBlock(b, b.size, size, align)]
      case Some(slot) =>
        blocks[i := LiveBlock(b, used - b.offset, size, align)][slot := FreeBlock(used, End(b) - used)]
  }

  function Alloc(h: Heap, size: nat, align: nat): (Heap, Option<nat>)
    requires |h.bytes| == HEAP_SIZE
  {
    if !MetadataOk(h.blocks) || !ValidRequest(size, align) then (h, None)
    else
      match FirstFit(h.blocks, size, align)
      case None => (h, None)
      case Some(i) => (Placed(h, i, size, align), Some(HEAP_BASE + PayloadAt(h.blocks[i], align)))
  }

  /** Block `i` taken for the request, with canaries around its payload. */
  function Placed(h: Heap, i: nat, size: nat, align: nat): Heap
    requires i < |h.blocks| && Fits(h.blocks[i], size, align)
  {
    var blocks := Carve(h.blocks, i, size, align);
    Heap(blocks, h.recent, h.recentIndex, Mark(h.bytes, blocks[i]))
  }

  /** Canaries are written around the payload of a well-shaped block. */
  function Mark(bytes: seq<Byte>, b: Block): (r: seq<Byte>)
    ensures |r| == |bytes|
  {
    if CANARY <= b.payload && PayloadEnd(b) + CANARY <= |bytes| then WriteCanaries(bytes, b) else bytes
  }

  // ---- coalescing

  predicate FreeAt(blocks: seq<Block>, i: int) { 0 <= i < |blocks| && blocks[i].active && !blocks[i].live }

  /** Two free blocks touch, in either order. */
  predicate Touch(blocks: seq<Block>, l: int, r: int)
  {
    l != r && FreeAt(blocks, l) && FreeAt(blocks, r) && (End(blocks[l]) == blocks[r].offset || End(blocks[r]) == blocks[l].offset)
  }

  function FirstTouch(blocks: seq<Block>, l: nat, r: nat): (k: Option<nat>)
    ensures k.Some? ==> r <= k.value < |blocks| && Touch(blocks, l, k.value)
    ensures k.Some? ==> forall j :: r <= j < k.value ==> !Touch(blocks, l, j)
    ensures k.None? ==> forall j :: r <= j < |blocks| ==> !Touch(blocks, l, j)
    decreases |blocks| - r
  {
    if r >= |blocks| then None else if Touch(blocks, l, r) then Some(r) else FirstTouch(blocks, l, r + 1)
  }

  /** The first free block, from `l` on, that touches another, and its partner. */
  function FirstPair(blocks: seq<Block>, l: nat): (p: Option<(nat, nat)>)
    ensures p.Some? ==> l <= p.value.0 < |blocks| && p.value.1 < |blocks| && Touch(blocks, p.value.0, p.value.1)
    ensures p.None? ==> forall i, j :: l <= i < |blocks| && 0 <= j < |blocks| ==> !Touch(blocks, i, j)
    decreases |blocks| - l
  {
    if l >= |blocks| then None
    else
      match FirstTouch(blocks, l, 0)
      case Some(r) => Some((l, r))
      case None => FirstPair(blocks, l + 1)
  }

  function Merge(blocks: seq<Block>, l: nat, r: nat): seq<Block>
    requires l < |blocks| && r < |blocks|
  {
    var (a, b) := (blocks[l], blocks[r]);
    var offset := if End(a) == b.offset then a.offset else b.offset;
    blocks[l := a.(offset := offset, size := a.size + b.size)][r := NO_BLOCK]
  }

  function ActiveCount(blocks: seq<Block>): nat
  {
    if blocks == [] then 0
    else ActiveCount(blocks[..|blocks| - 1]) + (if blocks[|blocks| - 1].active then 1 else 0)
  }

  lemma {:induction false} CountUpdate(blocks: seq<Block>, i: nat, b: Block)
    requires i < |blocks|
    ensures ActiveCount(blocks[i := b]) == ActiveCount(blocks) - (if blocks[i].active then 1 else 0) + (if b.active then 1 else 0)
  {
    var last := |blocks| - 1;
    if i < last {
      assert blocks[i := b][..last] == blocks[..last][i := b];
      CountUpdate(blocks[..last], i, b);
    } else {
      assert blocks[i := b][..last] == blocks[..last];
    }
  }

  lemma MergeCount(blocks: seq<Block>, l: nat, r: nat)
    requires Touch(blocks, l, r)
    ensures ActiveCount(Merge(blocks, l, r)) == ActiveCount(blocks) - 1
  {
    var (a, b) := (blocks[l], blocks[r]);
    var offset := if End(a) == b.offset then a.offset else b.offset;
    var merged := a.(offset := offset, size := a.size + b.size);
    CountUpdate(blocks, l, merged);
    CountUpdate(blocks[l := merged], r, NO_BLOCK);
  }

  /** Merges the first touching pair until none is left. */
  function Coalesce(blocks: seq<Block>): (r: seq<Block>)
    ensures |r| == |blocks|
    decreases ActiveCount(blocks)
  {
    match FirstPair(blocks, 0)
    case None => blocks
    case Some((l, r)) =>
      MergeCount(blocks, l, r);
      Coalesce(Merge(blocks, l, r))
  }

  // ---- freeing

  datatype FreeError = InvalidPointer | DoubleFree | Corruption

  function FindLive(blocks: seq<Block>, payload: nat): (r: Option<nat>)
    ensures r.Some? ==> r.value < |blocks| && blocks[r.value].active && blocks[r.value].live && blocks[r.value].payload == payload
    ensures r.None? ==> forall j :: 0 <= j < |blocks| ==> !(blocks[j].active && blocks[j].live && blocks[j].payload == payload)
  {
    First(blocks, (b: Block) => b.active && b.live && b.payload == payload)
  }

  function Released(blocks: seq<Block>, i: nat): seq<Block>
    requires i < |blocks|
  {
    Coalesce(blocks[i := FreeBlock(blocks[i].offset, blocks[i].size)])
  }

  function Free(h: Heap, address: nat): (Heap, Result<(), FreeError>)
    requires |h.recent| == RECENT && h.recentIndex < RECENT
  {
    var found := if address < HEAP_BASE then None else FindLive(h.blocks, address - HEAP_BASE);
    match found
    case Some(i) =>
      if !CanariesOk(h.bytes, h.blocks[i]) then (h, Err(Corruption))
      else
        (Heap(Released(h.blocks, i), h.recent[h.recentIndex := address], (h.recentIndex + 1) % RECENT, h.bytes), Ok(()))
    case None =>
      (h, Err(if address != 0 && address in h.recent then DoubleFree else InvalidPointer))
  }

  /** A client writes inside the payload of its own live block. */
  predicate InsidePayload(h: Heap, i: int, at: nat, length: nat)
  {
    0 <= i < |h.blocks| && h.blocks[i].active && h.blocks[i].live && h.blocks[i].payload <= at && at + length <= PayloadEnd(h.blocks[i])
  }

  function ClientWrite(h: Heap, at: nat, data: seq<Byte>): Heap
    requires at + |data| <= |h.bytes|
  {
    h.(bytes := Put(h.bytes, at, data))
  }

  predicate SentinelOk(bytes: seq<Byte>)
  {
    SENTINEL <= |bytes| && forall i :: 0 <= i < SENTINEL ==> bytes[i] == SentinelByte(i)
  }

  function Reset(bytes: seq<Byte>): Heap
    requires |bytes| == HEAP_SIZE
  {
    Heap([FreeBlock(SENTINEL, HEAP_SIZE - SENTINEL)] + seq(MAX_BLOCKS - 1, _ => NO_BLOCK), seq(RECENT, _ => 0), 0,
         seq(HEAP_SIZE, i requires 0 <= i < HEAP_SIZE => if i < SENTINEL then SentinelByte(i) else bytes[i]))
  }

  // ---- the corruption check

  predicate AllCanariesOk(h: Heap)
  {
    forall i :: 0 <= i < |h.blocks| && h.blocks[i].active && h.blocks[i].live ==> CanariesOk(h.bytes, h.blocks[i])
  }

  /** Metadata, sentinel, and the canaries of every live block. */
  predicate Uncorrupted(h: Heap) { MetadataOk(h.blocks) && SentinelOk(h.bytes) && AllCanariesOk(h) }
}
