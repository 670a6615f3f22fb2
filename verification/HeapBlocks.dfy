/** Splitting, merging and releasing keep the tiling; coalescing restores the normal form. */
module HeapBlocks {
  import opened Common
  import opened HeapModel
  import opened HeapLaws

  // ---- merging

  lemma MergeHolds(blocks: seq<Block>, l: nat, r: nat, x: int)
    requires Tiled(blocks) && Touch(blocks, l, r)
    ensures In(Merge(blocks, l, r), l, x) <==> In(blocks, l, x) || In(blocks, r, x)
    ensures !In(Merge(blocks, l, r), r, x)
    ensures forall i :: i != l && i != r ==> (In(Merge(blocks, l, r), i, x) <==> In(blocks, i, x))
  {
    assert BlockSane(blocks[l]) && BlockSane(blocks[r]);
  }

  lemma MergeApart(blocks: seq<Block>, l: nat, r: nat)
    requires Tiled(blocks) && Touch(blocks, l, r)
    ensures Sane(Merge(blocks, l, r)) && Apart(Merge(blocks, l, r))
  {
    var after := Merge(blocks, l, r);
    assert BlockSane(blocks[l]) && BlockSane(blocks[r]);
    forall i | 0 <= i < |after| && after[i].active && i != l ensures !RangesOverlap(after[i], after[l]) {
      assert BlockSane(blocks[i]);
      assert i < l ==> !RangesOverlap(blocks[i], blocks[l]);
      assert l < i ==> !RangesOverlap(blocks[l], blocks[i]);
      assert i < r ==> !RangesOverlap(blocks[i], blocks[r]);
      assert r < i ==> !RangesOverlap(blocks[r], blocks[i]);
    }
  }

  lemma MergeOk(blocks: seq<Block>, l: nat, r: nat)
    requires Tiled(blocks) && Touch(blocks, l, r)
    ensures Tiled(Merge(blocks, l, r)) && LiveSet(Merge(blocks, l, r)) == LiveSet(blocks)
  {
    var after := Merge(blocks, l, r);
    MergeApart(blocks, l, r);
    forall x | SENTINEL <= x < HEAP_SIZE ensures Held(after, x) {
      assert Held(blocks, x);
      var i :| In(blocks, i, x);
      MergeHolds(blocks, l, r, x);
      assert In(after, if i == r then l else i, x);
    }
    CoveredUpdate(blocks, l, after[l]);
    CoveredUpdate(blocks[l := after[l]], r, NO_BLOCK);
    forall b | b in LiveSet(blocks) ensures b in LiveSet(after) {
      var i :| 0 <= i < |blocks| && blocks[i].active && blocks[i].live && blocks[i] == b;
      assert after[i] == b;
    }
  }

  /** Coalescing ends in the normal form and leaves live blocks alone. */
  lemma {:induction false} CoalesceOk(blocks: seq<Block>)
    requires Tiled(blocks)
    ensures Normal(Coalesce(blocks)) && LiveSet(Coalesce(blocks)) == LiveSet(blocks)
    decreases ActiveCount(blocks)
  {
    match FirstPair(blocks, 0)
    case None =>
    case Some((l, r)) =>
      MergeCount(blocks, l, r);
      MergeOk(blocks, l, r);
      CoalesceOk(Merge(blocks, l, r));
  }

  // ---- one block changes its use, not its place

  lemma SamePlace(blocks: seq<Block>, i: nat, b: Block)
    requires Tiled(blocks) && i < |blocks| && blocks[i].active && b.active && BlockSane(b)
    requires b.offset == blocks[i].offset && b.size == blocks[i].size && (!b.live ==> b == FreeBlock(b.offset, b.size))
    ensures Tiled(blocks[i := b])
  {
    var after := blocks[i := b];
    forall x | SENTINEL <= x < HEAP_SIZE ensures Held(after, x) {
      assert Held(blocks, x);
      var j :| In(blocks, j, x);
      assert In(after, j, x);
    }
    CoveredUpdate(blocks, i, b);
  }

  lemma LiveAdded(blocks: seq<Block>, i: nat, b: Block)
    requires i < |blocks| && !(blocks[i].active && blocks[i].live) && b.active && b.live
    ensures LiveSet(blocks[i := b]) == LiveSet(blocks) + {b}
  {
    var after := blocks[i := b];
    forall c | c in LiveSet(blocks) ensures c in LiveSet(after) {
      var j :| 0 <= j < |blocks| && blocks[j].active && blocks[j].live && blocks[j] == c;
      assert after[j] == c;
    }
    assert after[i] == b;
  }

  lemma LiveSame(blocks: seq<Block>, i: nat, b: Block)
    requires i < |blocks| && !(blocks[i].active && blocks[i].live) && !(b.active && b.live)
    ensures LiveSet(blocks[i := b]) == LiveSet(blocks)
  {
    var after := blocks[i := b];
    forall c | c in LiveSet(blocks) ensures c in LiveSet(after) {
      var j :| 0 <= j < |blocks| && blocks[j].active && blocks[j].live && blocks[j] == c;
      assert after[j] == c;
    }
  }

  lemma LiveRemoved(blocks: seq<Block>, i: nat, b: Block)
    requires Tiled(blocks) && i < |blocks| && blocks[i].active && blocks[i].live && !b.live
    ensures LiveSet(blocks[i := b]) == LiveSet(blocks) - {blocks[i]}
  {
    var after := blocks[i := b];
    forall c | c in LiveSet(blocks) && c != blocks[i] ensures c in LiveSet(after) {
      var j :| 0 <= j < |blocks| && blocks[j].active && blocks[j].live && blocks[j] == c;
      assert after[j] == c;
    }
    forall j | 0 <= j < |blocks| && j != i && blocks[j].active ensures blocks[j] != blocks[i] {
      assert BlockSane(blocks[i]);
      assert i < j ==> !RangesOverlap(blocks[i], blocks[j]);
      assert j < i ==> !RangesOverlap(blocks[j], blocks[i]);
    }
  }

  /** Releasing a live block removes exactly it and returns to the normal form. */
  lemma ReleasedOk(blocks: seq<Block>, i: nat)
    requires Tiled(blocks) && i < |blocks| && blocks[i].active && blocks[i].live
    ensures Normal(Released(blocks, i)) && LiveSet(Released(blocks, i)) == LiveSet(blocks) - {blocks[i]}
  {
    var b := FreeBlock(blocks[i].offset, blocks[i].size);
    assert BlockSane(blocks[i]);
    SamePlace(blocks, i, b);
    LiveRemoved(blocks, i, b);
    CoalesceOk(blocks[i := b]);
  }

  // ---- carving

  lemma AlignUpOk(n: nat, a: nat)
    requires a > 0
    ensures n <= AlignUp(n, a) < n + a && AlignUp(n, a) % a == 0
  {
    var q := (n + a - 1) / a;
    assert (n + a - 1) == q * a + (n + a - 1) % a;
    assert q * a % a == 0 by { ModZero(q, a); }
  }

  lemma ModZero(q: nat, a: nat)
    requires a > 0
    ensures q * a % a == 0
  {
    var x := q * a;
    var d: int := q - x / a;
    assert a * d == x % a;
    assert d >= 1 ==> a * d >= a;
    assert d <= -1 ==> a * d + a <= 0;
  }

  lemma EffectivePower(align: nat)
    requires PowerOfTwo(align)
    ensures PowerOfTwo(Effective(align))
  {
    assert PowerOfTwo(8);
  }

  /** The live block cut from a free one is well shaped. */
  lemma LiveBlockSane(b: Block, length: nat, size: nat, align: nat)
    requires BlockSane(b) && Fits(b, size, align) && ValidRequest(size, align)
    requires UsedEnd(b, size, align) <= b.offset + length && length <= b.size
    ensures BlockSane(LiveBlock(b, length, size, align))
  {
    AlignUpOk(b.offset + CANARY, Effective(align));
    EffectivePower(align);
  }

  lemma WholeCarved(blocks: seq<Block>, i: nat, size: nat, align: nat)
    requires Normal(blocks) && i < |blocks| && Fits(blocks[i], size, align) && ValidRequest(size, align)
    ensures var live := LiveBlock(blocks[i], blocks[i].size, size, align);
            Normal(blocks[i := live]) && LiveSet(blocks[i := live]) == LiveSet(blocks) + {live}
  {
    var live := LiveBlock(blocks[i], blocks[i].size, size, align);
    assert BlockSane(blocks[i]);
    LiveBlockSane(blocks[i], blocks[i].size, size, align);
    SamePlace(blocks, i, live);
    LiveAdded(blocks, i, live);
    var after := blocks[i := live];
    forall l, r ensures !Touch(after, l, r) { assert !Touch(blocks, l, r); }
  }

  /** Cutting a block in two keeps the tiling. */
  lemma SplitTiled(blocks: seq<Block>, i: nat, slot: nat, a: Block, b: Block)
    requires Tiled(blocks) && i < |blocks| && slot < |blocks| && blocks[i].active && !blocks[slot].active
    requires BlockSane(a) && a.active && a.live && a.offset == blocks[i].offset && End(a) < End(blocks[i])
    requires b == FreeBlock(End(a), End(blocks[i]) - End(a))
    ensures Tiled(blocks[i := a][slot := b])
  {
    var after := blocks[i := a][slot := b];
    assert BlockSane(blocks[i]);
    forall x | SENTINEL <= x < HEAP_SIZE ensures Held(after, x) {
      assert Held(blocks, x);
      var j :| In(blocks, j, x);
      assert In(after, if j == i && x >= End(a) then slot else j, x);
    }
    SplitApart(blocks, i, slot, a, b);
    CoveredUpdate(blocks, i, a);
    CoveredUpdate(blocks[i := a], slot, b);
  }

  lemma SplitApart(blocks: seq<Block>, i: nat, slot: nat, a: Block, b: Block)
    requires Tiled(blocks) && i < |blocks| && slot < |blocks| && blocks[i].active && !blocks[slot].active
    requires BlockSane(a) && a.active && a.live && a.offset == blocks[i].offset && End(a) < End(blocks[i])
    requires b == FreeBlock(End(a), End(blocks[i]) - End(a))
    ensures Apart(blocks[i := a][slot := b])
  {
    var after := blocks[i := a][slot := b];
    forall j | 0 <= j < |after| && after[j].active && j != i && j != slot
      ensures !RangesOverlap(after[j], a) && !RangesOverlap(after[j], b)
    {
      assert j < i ==> !RangesOverlap(blocks[j], blocks[i]);
      assert i < j ==> !RangesOverlap(blocks[i], blocks[j]);
    }
  }

  lemma SplitCarved(blocks: seq<Block>, i: nat, slot: nat, size: nat, align: nat)
    requires Normal(blocks) && i < |blocks| && Fits(blocks[i], size, align) && ValidRequest(size, align)
    requires slot < |blocks| && !blocks[slot].active && UsedEnd(blocks[i], size, align) < End(blocks[i])
    ensures var used := UsedEnd(blocks[i], size, align);
            && blocks[i].offset <= used
            && var live := LiveBlock(blocks[i], used - blocks[i].offset, size, align);
            var after := blocks[i := live][slot := FreeBlock(used, End(blocks[i]) - used)];
            Normal(after) && LiveSet(after) == LiveSet(blocks) + {live}
  {
    var used := UsedEnd(blocks[i], size, align);
    AlignUpOk(blocks[i].offset + CANARY, Effective(align));
    var live := LiveBlock(blocks[i], used - blocks[i].offset, size, align);
    var rest := FreeBlock(used, End(blocks[i]) - used);
    assert BlockSane(blocks[i]);
    LiveBlockSane(blocks[i], used - blocks[i].offset, size, align);
    SplitTiled(blocks, i, slot, live, rest);
    LiveAdded(blocks, i, live);
    LiveSame(blocks[i := live], slot, rest);
    SplitNormal(blocks, i, slot, live, rest);
  }

  /** What is cut off touches no free block: its old right neighbour was not free. */
  lemma SplitNormal(blocks: seq<Block>, i: nat, slot: nat, a: Block, b: Block)
    requires Normal(blocks) && FreeAt(blocks, i) && slot < |blocks| && !blocks[slot].active
    requires a.active && a.live && a.offset == blocks[i].offset && a.size > 0 && End(a) < End(blocks[i])
    requires b == FreeBlock(End(a), End(blocks[i]) - End(a))
    ensures var after := blocks[i := a][slot := b]; forall l, r :: !Touch(after, l, r)
  {
    var after := blocks[i := a][slot := b];
    forall l, r ensures !Touch(after, l, r) {
      if l == slot || r == slot {
        var o := if l == slot then r else l;
        if FreeAt(after, o) && o != slot {
          assert o != i && blocks[o] == after[o];
          assert !Touch(blocks, i, o) && BlockSane(blocks[o]) && BlockSane(blocks[i]);
          assert o < i ==> !RangesOverlap(blocks[o], blocks[i]);
          assert i < o ==> !RangesOverlap(blocks[i], blocks[o]);
        }
      } else {
        assert !Touch(blocks, l, r);
      }
    }
  }

  /** The new live block, and the table after an allocation. */
  lemma CarveOk(blocks: seq<Block>, i: nat, size: nat, align: nat)
    requires Normal(blocks) && i < |blocks| && Fits(blocks[i], size, align) && ValidRequest(size, align)
    ensures var after := Carve(blocks, i, size, align);
            && Normal(after) && i < |after| && after[i].active && after[i].live
            && after[i].payload == PayloadAt(blocks[i], align) && after[i].requested == size && after[i].alignment == Effective(align)
            && after[i] !in LiveSet(blocks) && LiveSet(after) == LiveSet(blocks) + {after[i]}
            && after[i].offset == blocks[i].offset && End(after[i]) <= End(blocks[i])
  {
    var used := UsedEnd(blocks[i], size, align);
    AlignUpOk(blocks[i].offset + CANARY, Effective(align));
    WholeCarved(blocks, i, size, align);
    var slot := FreeSlot(blocks);
    if End(blocks[i]) - used >= MIN_SPLIT && slot.Some? { SplitCarved(blocks, i, slot.value, size, align); }
    NotLiveYet(blocks, i, Carve(blocks, i, size, align)[i]);
  }

  lemma NotLiveYet(blocks: seq<Block>, i: nat, b: Block)
    requires Tiled(blocks) && FreeAt(blocks, i) && b.offset == blocks[i].offset && b.size > 0
    ensures b !in LiveSet(blocks)
  {
    forall j | 0 <= j < |blocks| && blocks[j].active && blocks[j].live ensures blocks[j] != b {
      assert BlockSane(blocks[i]) && BlockSane(blocks[j]);
      assert j < i ==> !RangesOverlap(blocks[j], blocks[i]);
      assert i < j ==> !RangesOverlap(blocks[i], blocks[j]);
    }
  }
}
