/** Capability lineage: what erasing a set of generations does, and what a branch contains. */
module IpcLineage {
  import opened Common
  import opened IpcModel

  lemma EraseLive(eps: seq<Endpoint>, gens: set<nat>, i: int, s: int)
    ensures Live(Erase(eps, gens), i, s) <==> Live(eps, i, s) && CapAt(eps, i, s).generation !in gens
    ensures Live(Erase(eps, gens), i, s) ==> CapAt(Erase(eps, gens), i, s) == CapAt(eps, i, s)
  {
  }

  lemma EraseGenerations(eps: seq<Endpoint>, gens: set<nat>)
    ensures Generations(Erase(eps, gens)) == Generations(eps) - gens
  {
    var after := Erase(eps, gens);
    forall i, s ensures Live(after, i, s) <==> Live(eps, i, s) && CapAt(eps, i, s).generation !in gens
      ensures Live(after, i, s) ==> CapAt(after, i, s) == CapAt(eps, i, s)
    {
      EraseLive(eps, gens, i, s);
    }
    forall h | h in Generations(eps) - gens ensures h in Generations(after) {
      var i, s :| Live(eps, i, s) && CapAt(eps, i, s).generation == h;
      assert Live(after, i, s);
    }
  }

  lemma EraseLink(eps: seq<Endpoint>, gens: set<nat>, c: nat, p: nat)
    ensures Link(Erase(eps, gens), c, p) <==> Link(eps, c, p) && c !in gens
  {
    var after := Erase(eps, gens);
    forall i, s ensures Live(after, i, s) <==> Live(eps, i, s) && CapAt(eps, i, s).generation !in gens
      ensures Live(after, i, s) ==> CapAt(after, i, s) == CapAt(eps, i, s)
    {
      EraseLive(eps, gens, i, s);
    }
    if Link(eps, c, p) && c !in gens {
      var i, s :| Live(eps, i, s) && CapAt(eps, i, s).generation == c && CapAt(eps, i, s).parent == p;
      assert Live(after, i, s);
    }
  }

  lemma EraseTwice(eps: seq<Endpoint>, first: set<nat>, second: set<nat>)
    ensures Erase(Erase(eps, first), second) == Erase(eps, first + second)
  {
    var once, twice, both := Erase(eps, first), Erase(Erase(eps, first), second), Erase(eps, first + second);
    forall i | 0 <= i < |eps| ensures twice[i] == both[i] {
      assert Decode(0).None?;
      forall s | 0 <= s < |eps[i].caps| ensures twice[i].caps[s] == both[i].caps[s] {
        assert once[i].caps[s] == EraseCap(eps[i].caps[s], first);
      }
      forall k | 0 <= k < |eps[i].queue| ensures twice[i].queue[k] == both[i].queue[k] {
        assert once[i].queue[k] == StripMessage(eps[i].queue[k], first);
      }
      assert twice[i].caps == both[i].caps && twice[i].queue == both[i].queue;
    }
  }

  lemma AttachedAfterErase(eps: seq<Endpoint>, first: set<nat>, second: set<nat>)
    requires first !! second
    ensures Attached(Erase(eps, first), second) == Attached(eps, second)
    ensures Attached(eps, first + second) == Attached(eps, first) + Attached(eps, second)
    ensures Attached(eps, first) !! Attached(eps, second)
    ensures |Attached(eps, first + second)| == |Attached(eps, first)| + |Attached(eps, second)|
  {
    var after := Erase(eps, first);
    assert Decode(0).None?;
    forall i, k | 0 <= i < |eps| && 0 <= k < |eps[i].queue|
      ensures |after[i].queue| == |eps[i].queue| && after[i].queue[k] == StripMessage(eps[i].queue[k], first)
    {
    }
    assert Attached(after, second) == Attached(eps, second);
    assert Attached(eps, first + second) == Attached(eps, first) + Attached(eps, second);
  }

  lemma EraseKeepsUnique(eps: seq<Endpoint>, gens: set<nat>)
    requires UniqueGenerations(eps)
    ensures UniqueGenerations(Erase(eps, gens))
  {
    var after := Erase(eps, gens);
    forall i, s ensures Live(after, i, s) ==> Live(eps, i, s) && CapAt(after, i, s) == CapAt(eps, i, s) {
      EraseLive(eps, gens, i, s);
    }
  }

  lemma LiveGeneration(eps: seq<Endpoint>, i: int, s: int)
    requires Live(eps, i, s)
    ensures CapAt(eps, i, s).generation in Generations(eps)
    ensures Link(eps, CapAt(eps, i, s).generation, CapAt(eps, i, s).parent)
  {
  }

  lemma LinkGeneration(eps: seq<Endpoint>, c: nat, p: nat)
    requires Link(eps, c, p)
    ensures c in Generations(eps)
  {
  }

  // ---- branches

  /** A set that contains `g` and is closed under children contains the whole branch of `g`. */
  lemma {:induction false} ClosedContains(eps: seq<Endpoint>, gens: set<nat>, h: nat, g: nat, n: nat)
    requires g in gens && Descends(eps, h, g, n)
    requires forall c: nat, p: nat :: Link(eps, c, p) && p in gens ==> c in gens
    ensures h in gens
    decreases n
  {
    if n != 0 {
      var p: nat :| Link(eps, h, p) && Descends(eps, p, g, n - 1);
      ClosedContains(eps, gens, p, g, n - 1);
    }
  }

  /** Chains in a table with fewer links are chains in the larger one. */
  lemma {:induction false} DescendsMonotone(less: seq<Endpoint>, more: seq<Endpoint>, h: nat, g: nat, n: nat)
    requires Descends(less, h, g, n)
    requires Generations(less) <= Generations(more)
    requires forall c: nat, p: nat :: Link(less, c, p) ==> Link(more, c, p)
    ensures Descends(more, h, g, n)
    decreases n
  {
    if n != 0 {
      var p: nat :| Link(less, h, p) && Descends(less, p, g, n - 1);
      DescendsMonotone(less, more, p, g, n - 1);
    }
  }

  lemma {:induction false} DescendsJoin(eps: seq<Endpoint>, h: nat, c: nat, g: nat, n: nat, m: nat)
    requires Descends(eps, h, c, n) && Descends(eps, c, g, m)
    ensures Descends(eps, h, g, n + m)
    decreases n
  {
    if n != 0 {
      var p: nat :| Link(eps, h, p) && Descends(eps, p, c, n - 1);
      DescendsJoin(eps, p, c, g, n - 1, m);
    }
  }

  lemma BranchClosed(eps: seq<Endpoint>, g: nat, c: nat, p: nat)
    requires Link(eps, c, p) && p in Branch(eps, g)
    ensures c in Branch(eps, g)
  {
    var n: nat :| Descends(eps, p, g, n);
    assert Descends(eps, c, g, n + 1);
    LinkGeneration(eps, c, p);
  }

  lemma BranchRoot(eps: seq<Endpoint>, g: nat)
    ensures g in Branch(eps, g) <==> g in Generations(eps)
    ensures g !in Generations(eps) ==> Branch(eps, g) == {}
  {
    if g in Generations(eps) {
      assert Descends(eps, g, g, 0);
    } else {
      forall h, n: nat | Descends(eps, h, g, n) ensures false { DescendsToLive(eps, h, g, n); }
    }
  }

  lemma {:induction false} DescendsToLive(eps: seq<Endpoint>, h: nat, g: nat, n: nat)
    requires Descends(eps, h, g, n)
    ensures g in Generations(eps)
    decreases n
  {
    if n != 0 {
      var p: nat :| Link(eps, h, p) && Descends(eps, p, g, n - 1);
      DescendsToLive(eps, p, g, n - 1);
    }
  }

  /** Whatever a revocation removed, if it is sound and leaves no orphan, is exactly the branch. */
  lemma BranchCharacterised(eps: seq<Endpoint>, gens: set<nat>, g: nat)
    requires gens <= Generations(eps)
    requires g in gens
    requires forall h :: h in gens ==> InBranch(eps, h, g)
    requires forall c: nat, p: nat :: Link(eps, c, p) && p in gens ==> c in gens
    ensures gens == Branch(eps, g)
  {
    forall h | h in Branch(eps, g) ensures h in gens {
      var n: nat :| Descends(eps, h, g, n);
      ClosedContains(eps, gens, h, g, n);
    }
  }

  /** A branch of what is left after an erasure lies inside the original branch. */
  lemma BranchAfterErase(eps: seq<Endpoint>, gone: set<nat>, c: nat, h: nat)
    requires h in Branch(Erase(eps, gone), c)
    ensures h in Branch(eps, c) && h !in gone
  {
    var less := Erase(eps, gone);
    EraseGenerations(eps, gone);
    forall x: nat, p: nat ensures Link(less, x, p) ==> Link(eps, x, p) { EraseLink(eps, gone, x, p); }
    var n: nat :| Descends(less, h, c, n);
    DescendsMonotone(less, eps, h, c, n);
  }
}
