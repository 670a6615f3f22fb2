/** Blocks always tile the heap in normal form, and the normal form is unique. */
module HeapLaws {
  import opened Common
  import opened HeapModel

  // ---- tilings

  predicate In(blocks: seq<Block>, i: int, x: int)
  {
    0 <= i < |blocks| && blocks[i].active && blocks[i].offset <= x < End(blocks[i])
  }

  ghost predicate Held(blocks: seq<Block>, x: int) { exists i :: In(blocks, i, x) }

  ghost predicate Sane(blocks: seq<Block>)
  {
    && |blocks| == MAX_BLOCKS
    && (forall i :: 0 <= i < |blocks| && blocks[i].active ==> BlockSane(blocks[i]))
    && (forall i :: FreeAt(blocks, i) ==> blocks[i] == FreeBlock(blocks[i].offset, blocks[i].size))
  }

  ghost predicate Apart(blocks: seq<Block>)
  {
    forall i, j :: 0 <= i < j < |blocks| && blocks[i].active && blocks[j].active ==> !RangesOverlap(blocks[i], blocks[j])
  }

  /** Every byte after the sentinel lies in exactly one block. */
  ghost predicate Tiled(blocks: seq<Block>)
  {
    && Sane(blocks) && Apart(blocks)
    && (forall x :: SENTINEL <= x < HEAP_SIZE ==> Held(blocks, x))
    && Covered(blocks) == HEAP_SIZE - SENTINEL
  }

  /** Tiled, with no two free blocks side by side. */
  ghost predicate Normal(blocks: seq<Block>) { Tiled(blocks) && forall l, r :: !Touch(blocks, l, r) }

  ghost function LiveSet(blocks: seq<Block>): set<Block> { set i | 0 <= i < |blocks| && blocks[i].active && blocks[i].live :: blocks[i] }

  ghost function FreeSet(blocks: seq<Block>): set<Block> { set i | 0 <= i < |blocks| && FreeAt(blocks, i) :: blocks[i] }

  // ---- uniqueness

  lemma OneHolder(blocks: seq<Block>, i: int, j: int, x: int)
    requires Apart(blocks) && In(blocks, i, x) && In(blocks, j, x)
    ensures i == j
  {
  }

  /** A byte is in a live block of one tiling exactly when it is in one of the other. */
  lemma SameFree(b: seq<Block>, c: seq<Block>, i: int, x: int) returns (j: int)
    requires Tiled(b) && Tiled(c) && LiveSet(b) == LiveSet(c) && FreeAt(b, i) && In(b, i, x)
    ensures FreeAt(c, j) && In(c, j, x)
  {
    assert BlockSane(b[i]);
    assert Held(c, x);
    j :| In(c, j, x);
    if c[j].live {
      assert c[j] in LiveSet(c);
      var k :| 0 <= k < |b| && b[k].active && b[k].live && b[k] == c[j];
      OneHolder(b, i, k, x);
      assert false;
    }
  }

  /** Free neighbours would touch, so a free block of one normal tiling cannot reach beyond one of the other. */
  lemma SameStart(b: seq<Block>, c: seq<Block>, i: int, j: int, x: int)
    requires Normal(b) && Tiled(c) && LiveSet(b) == LiveSet(c)
    requires FreeAt(b, i) && FreeAt(c, j) && In(b, i, x) && In(c, j, x)
    ensures b[i].offset <= c[j].offset && End(c[j]) <= End(b[i])
  {
    assert BlockSane(c[j]);
    if c[j].offset < b[i].offset {
      var y := b[i].offset - 1;
      assert In(c, j, y);
      var k := SameFree(c, b, j, y);
      NextTo(b, k, i, y);
      assert false;
    }
    if End(b[i]) < End(c[j]) {
      var y := End(b[i]);
      assert In(c, j, y);
      var k := SameFree(c, b, j, y);
      NextTo(b, i, k, y - 1);
      assert false;
    }
  }

  /** In a normal tiling, free blocks that hold neighbouring bytes are the same block. */
  lemma NextTo(b: seq<Block>, i: int, j: int, y: int)
    requires Normal(b) && FreeAt(b, i) && FreeAt(b, j) && In(b, i, y) && In(b, j, y + 1)
    ensures i == j
  {
    if b[j].offset <= y { OneHolder(b, i, j, y); }
    if y + 1 < End(b[i]) { OneHolder(b, i, j, y + 1); }
    assert i == j || Touch(b, i, j);
  }

  lemma FreeSubset(b: seq<Block>, c: seq<Block>)
    requires Normal(b) && Normal(c) && LiveSet(b) == LiveSet(c)
    ensures FreeSet(b) <= FreeSet(c)
  {
    forall f | f in FreeSet(b) ensures f in FreeSet(c) {
      var i :| 0 <= i < |b| && FreeAt(b, i) && b[i] == f;
      assert BlockSane(b[i]);
      var x := b[i].offset;
      var j := SameFree(b, c, i, x);
      SameStart(b, c, i, j, x);
      SameStart(c, b, j, i, x);
      assert c[j] == f;
    }
  }

  /** The live blocks determine the free ones: the normal tiling is unique. */
  lemma NormalUnique(b: seq<Block>, c: seq<Block>)
    requires Normal(b) && Normal(c) && LiveSet(b) == LiveSet(c)
    ensures FreeSet(b) == FreeSet(c)
  {
    FreeSubset(b, c);
    FreeSubset(c, b);
  }

  // ---- sums

  lemma {:induction false} CoveredUpdate(blocks: seq<Block>, i: nat, b: Block)
    requires i < |blocks|
    ensures Covered(blocks[i := b]) == Covered(blocks) - (if blocks[i].active then blocks[i].size else 0) + (if b.active then b.size else 0)
  {
    var last := |blocks| - 1;
    if i < last {
      assert blocks[i := b][..last] == blocks[..last][i := b];
      CoveredUpdate(blocks[..last], i, b);
    } else {
      assert blocks[i := b][..last] == blocks[..last];
    }
  }

  lemma {:induction false} AccountedBound(blocks: seq<Block>)
    requires forall i :: 0 <= i < |blocks| && blocks[i].active && blocks[i].live ==> blocks[i].requested <= blocks[i].size
    ensures Accounted(blocks) <= Covered(blocks)
  {
    if blocks != [] {
      var last := |blocks| - 1;
      assert forall i :: 0 <= i < last ==> blocks[..last][i] == blocks[i];
      AccountedBound(blocks[..last]);
    }
  }

  /** The check made before every allocation passes on every tiling. */
  lemma TiledMetadata(blocks: seq<Block>)
    requires Tiled(blocks)
    ensures MetadataOk(blocks)
  {
    forall i | 0 <= i < |blocks| && blocks[i].active && blocks[i].live ensures blocks[i].requested <= blocks[i].size {
      assert BlockSane(blocks[i]);
    }
    AccountedBound(blocks);
  }
}
