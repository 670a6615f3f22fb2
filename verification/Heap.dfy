/** The kernel heap as it runs: block table, recent-free ring and heap bytes updated in place. */
module HeapImpl {
  import opened Common
  import opened HeapModel

  class KernelHeap {
    const blocks: array<Block>
    const recent: array<nat>
    const bytes: array<Byte>
    var recentIndex: nat

    ghost predicate Valid()
      reads this
    {
      blocks.Length == MAX_BLOCKS && recent.Length == RECENT && bytes.Length == HEAP_SIZE && recentIndex < RECENT
    }

    ghost function Model(): Heap
      reads this, blocks, recent, bytes
    {
      Heap(blocks[..], recent[..], recentIndex, bytes[..])
    }

    // ---- initialisation

    /** A heap over memory with arbitrary contents. */
    constructor (memory: seq<Byte>)
      requires |memory| == HEAP_SIZE
      ensures Valid() && Model() == Reset(memory) && fresh(blocks) && fresh(recent) && fresh(bytes)
    {
      blocks := new Block[MAX_BLOCKS](_ => NO_BLOCK);
      recent := new nat[RECENT](_ => 0);
      bytes := new Byte[HEAP_SIZE](i requires 0 <= i < HEAP_SIZE => memory[i]);
      recentIndex := 0;
      new;
      blocks[0] := FreeBlock(SENTINEL, HEAP_SIZE - SENTINEL);
      var i := 0;
      while i < SENTINEL
        invariant 0 <= i <= SENTINEL && recentIndex == 0
        invariant forall k :: 0 <= k < HEAP_SIZE ==> bytes[k] == if k < i then SentinelByte(k) else memory[k]
        invariant blocks[0] == FreeBlock(SENTINEL, HEAP_SIZE - SENTINEL) && forall k :: 1 <= k < MAX_BLOCKS ==> blocks[k] == NO_BLOCK
        invariant forall k :: 0 <= k < RECENT ==> recent[k] == 0
      {
        bytes[i] := SentinelByte(i);
        i := i + 1;
      }
      assert bytes[..] == Reset(memory).bytes;
      assert blocks[..] == Reset(memory).blocks;
      assert recent[..] == Reset(memory).recent;
    }

    // ---- checks

    /** No later block overlaps block `i`. */
    method ApartFrom(i: nat) returns (ok: bool)
      requires Valid() && i < MAX_BLOCKS
      ensures ok <==> forall j :: i < j < MAX_BLOCKS && blocks[j].active ==> !RangesOverlap(blocks[i], blocks[j])
    {
      ok := true;
      var j := i + 1;
      while j < MAX_BLOCKS
        invariant i < j <= MAX_BLOCKS
        invariant ok <==> forall k :: i < k < j && blocks[k].active ==> !RangesOverlap(blocks[i], blocks[k])
      {
        if blocks[j].active && RangesOverlap(blocks[i], blocks[j]) {
          ok := false;
        }
        j := j + 1;
      }
    }

    /** The metadata part of the statistics pass. */
    method CheckMetadata() returns (ok: bool)
      requires Valid()
      ensures ok == MetadataOk(blocks[..])
    {
      ok := true;
      var covered, accounted := 0, 0;
      var i := 0;
      while i < MAX_BLOCKS
        invariant 0 <= i <= MAX_BLOCKS
        invariant covered == Covered(blocks[..i]) && accounted == Accounted(blocks[..i])
        invariant ok <==> && (forall k :: 0 <= k < i && blocks[k].active ==> BlockSane(blocks[k]))
                          && (forall k, l :: 0 <= k < i && k < l < MAX_BLOCKS && blocks[k].active && blocks[l].active ==>
                                !RangesOverlap(blocks[k], blocks[l]))
      {
        assert blocks[..i + 1][..i] == blocks[..i];
        if blocks[i].active {
          var apart := ApartFrom(i);
          if !BlockSane(blocks[i]) || !apart {
            ok := false;
          }
          covered := covered + blocks[i].size;
          accounted := accounted + if blocks[i].live then blocks[i].requested else blocks[i].size;
        }
        i := i + 1;
      }
      assert blocks[..i] == blocks[..];
      ok := ok && covered == HEAP_SIZE - SENTINEL && accounted <= HEAP_SIZE;
    }

    // ---- lookups

    method FindFit(size: nat, align: nat) returns (r: Option<nat>)
      requires Valid()
      ensures r == FirstFit(blocks[..], size, align)
    {
      var index := 0;
      while index < MAX_BLOCKS
        invariant 0 <= index <= MAX_BLOCKS
        invariant forall k :: 0 <= k < index ==> !Fits(blocks[..][k], size, align)
      {
        if Fits(blocks[index], size, align) {
          return Some(index);
        }
        index := index + 1;
      }
      r := None;
    }

    method FindSlot() returns (r: Option<nat>)
      requires Valid()
      ensures r == FreeSlot(blocks[..])
    {
      var index := 0;
      while index < MAX_BLOCKS
        invariant 0 <= index <= MAX_BLOCKS
        invariant forall k :: 0 <= k < index ==> blocks[..][k].active
      {
        if !blocks[index].active {
          return Some(index);
        }
        index := index + 1;
      }
      r := None;
    }

    method FindPayload(payload: nat) returns (r: Option<nat>)
      requires Valid()
      ensures r == FindLive(blocks[..], payload)
    {
      var index := 0;
      while index < MAX_BLOCKS
        invariant 0 <= index <= MAX_BLOCKS
        invariant forall k :: 0 <= k < index ==> !(blocks[..][k].active && blocks[..][k].live && blocks[..][k].payload == payload)
      {
        if blocks[index].active && blocks[index].live && blocks[index].payload == payload {
          return Some(index);
        }
        index := index + 1;
      }
      r := None;
    }

    // ---- memory

    method WriteWord(at: nat, word: seq<Byte>)
      requires Valid() && at + |word| <= HEAP_SIZE
      modifies bytes
      ensures bytes[..] == Put(old(bytes[..]), at, word)
    {
      var k := 0;
      while k < |word|
        invariant 0 <= k <= |word|
        invariant forall x :: 0 <= x < HEAP_SIZE ==> bytes[x] == if at <= x < at + k then word[x - at] else old(bytes[x])
      {
        bytes[at + k] := word[k];
        k := k + 1;
      }
    }

    method ReadsWord(at: int, word: seq<Byte>) returns (ok: bool)
      requires Valid()
      ensures ok == Holds(bytes[..], at, word)
    {
      if at < 0 || at + |word| > HEAP_SIZE {
        return false;
      }
      var k := 0;
      while k < |word|
        invariant 0 <= k <= |word|
        invariant forall x :: 0 <= x < k ==> bytes[at + x] == word[x]
      {
        if bytes[at + k] != word[k] {
          assert bytes[..][at..at + |word|][k] != word[k];
          return false;
        }
        k := k + 1;
      }
      assert bytes[..][at..at + |word|] == word;
      ok := true;
    }

    method WriteAround(b: Block)
      requires Valid()
      modifies bytes
      ensures bytes[..] == Mark(old(bytes[..]), b)
    {
      if CANARY <= b.payload && PayloadEnd(b) + CANARY <= HEAP_SIZE {
        WriteWord(b.payload - CANARY, HEAD_CANARY);
        WriteWord(PayloadEnd(b), TAIL_CANARY);
      }
    }

    // ---- allocation

    method SplitBlock(i: nat, size: nat, align: nat)
      requires Valid() && i < MAX_BLOCKS && Fits(blocks[i], size, align)
      modifies blocks
      ensures blocks[..] == Carve(old(blocks[..]), i, size, align)
    {
      var b := blocks[i];
      var used := UsedEnd(b, size, align);
      var slot := FindSlot();
      ghost var before := blocks[..];
      if End(b) - used >= MIN_SPLIT && slot.Some? {
        blocks[i] := LiveBlock(b, used - b.offset, size, align);
        blocks[slot.value] := FreeBlock(used, End(b) - used);
        assert blocks[..] == before[i := LiveBlock(b, used - b.offset, size, align)][slot.value := FreeBlock(used, End(b) - used)];
      } else {
        blocks[i] := LiveBlock(b, b.size, size, align);
        assert blocks[..] == before[i := LiveBlock(b, b.size, size, align)];
      }
    }

    /** Takes block `i` for the request and surrounds its payload with canaries. */
    method Place(i: nat, size: nat, align: nat)
      requires Valid() && i < MAX_BLOCKS && Fits(blocks[i], size, align)
      modifies blocks, bytes
      ensures Model() == Placed(old(Model()), i, size, align)
    {
      SplitBlock(i, size, align);
      assert blocks[i] == blocks[..][i];
      WriteAround(blocks[i]);
    }

    method Allocate(size: nat, align: nat) returns (r: Option<nat>)
      requires Valid()
      modifies blocks, bytes
      ensures Valid() && Model() == Alloc(old(Model()), size, align).0 && r == Alloc(old(Model()), size, align).1
    {
      var sane := CheckMetadata();
      if !sane || !ValidRequest(size, align) {
        return None;
      }
      var fit := FindFit(size, align);
      if fit.None? {
        return None;
      }
      r := Some(HEAP_BASE + PayloadAt(blocks[fit.value], align));
      Place(fit.value, size, align);
    }

    // ---- coalescing

    /** The first block that touches free block `l`. */
    method FindTouching(l: nat) returns (r: Option<nat>)
      requires Valid() && l < MAX_BLOCKS
      ensures r == FirstTouch(blocks[..], l, 0)
    {
      var right := 0;
      while right < MAX_BLOCKS
        invariant 0 <= right <= MAX_BLOCKS
        invariant FirstTouch(blocks[..], l, 0) == FirstTouch(blocks[..], l, right)
      {
        if Touch(blocks[..], l, right) {
          return Some(right);
        }
        right := right + 1;
      }
      r := None;
    }

    method FindPair() returns (p: Option<(nat, nat)>)
      requires Valid()
      ensures p == FirstPair(blocks[..], 0)
    {
      var left := 0;
      while left < MAX_BLOCKS
        invariant 0 <= left <= MAX_BLOCKS
        invariant FirstPair(blocks[..], 0) == FirstPair(blocks[..], left)
      {
        var right := FindTouching(left);
        if right.Some? {
          return Some((left, right.value));
        }
        left := left + 1;
      }
      p := None;
    }

    /** Terminates because every merge uses up one active block. */
    method CoalesceFreeBlocks()
      requires Valid()
      modifies blocks
      ensures blocks[..] == Coalesce(old(blocks[..]))
    {
      var pair := FindPair();
      while pair.Some?
        invariant pair == FirstPair(blocks[..], 0)
        invariant Coalesce(blocks[..]) == Coalesce(old(blocks[..]))
        decreases ActiveCount(blocks[..])
      {
        var (l, r) := pair.value;
        MergeCount(blocks[..], l, r);
        ghost var before := blocks[..];
        var (a, b) := (blocks[l], blocks[r]);
        blocks[l] := a.(offset := if End(a) == b.offset then a.offset else b.offset, size := a.size + b.size);
        blocks[r] := NO_BLOCK;
        assert blocks[..] == Merge(before, l, r);
        pair := FindPair();
      }
    }

    // ---- freeing

    method WasRecentlyFreed(address: nat) returns (found: bool)
      requires Valid()
      ensures found == (address != 0 && address in recent[..])
    {
      if address == 0 {
        return false;
      }
      var k := 0;
      while k < RECENT
        invariant 0 <= k <= RECENT
        invariant forall x :: 0 <= x < k ==> recent[x] != address
      {
        if recent[k] == address {
          assert recent[..][k] == address;
          return true;
        }
        k := k + 1;
      }
      found := false;
    }

    method Release(address: nat) returns (r: Result<(), FreeError>)
      requires Valid()
      modifies this`recentIndex, blocks, recent
      ensures Valid() && Model() == Free(old(Model()), address).0 && r == Free(old(Model()), address).1
    {
      var found: Option<nat> := None;
      if address >= HEAP_BASE {
        found := FindPayload(address - HEAP_BASE);
      }
      if found.Some? {
        var i := found.value;
        var head := ReadsWord(blocks[i].payload - CANARY, HEAD_CANARY);
        var tail := ReadsWord(PayloadEnd(blocks[i]), TAIL_CANARY);
        if !head || !tail {
          return Err(Corruption);
        }
        blocks[i] := FreeBlock(blocks[i].offset, blocks[i].size);
        recent[recentIndex] := address;
        recentIndex := (recentIndex + 1) % RECENT;
        CoalesceFreeBlocks();
        return Ok(());
      }
      var again := WasRecentlyFreed(address);
      r := Err(if again then DoubleFree else InvalidPointer);
    }
  }
}
