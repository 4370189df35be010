/** The leaves of the block tree and the choice of the head (core/block_index.go, core/blockchain.go). */
module Leaves {
  import opened Common
  import opened Heap

  /** A leaf: what BlockIndex compares by. */
  datatype BlockIndex = BlockIndex(height: nat, td: int)

  type Indices = map<nat, BlockIndex>

  const PURGE_BLOCK_LIMIT: nat := 500

  /** BlockIndex.cmp: by total difficulty, then by height. */
  function Cmp(a: BlockIndex, b: BlockIndex): int {
    if a.td != b.td then (if a.td > b.td then 1 else -1)
    else if a.height > b.height then 1
    else if a.height < b.height then -1
    else 0
  }

  /** A higher total difficulty, or the same one at a greater height. */
  predicate Better(a: BlockIndex, b: BlockIndex) {
    a.td > b.td || (a.td == b.td && a.height > b.height)
  }

  lemma CmpOrder(a: BlockIndex, b: BlockIndex, c: BlockIndex)
    ensures Cmp(a, b) == -Cmp(b, a) && (Cmp(a, b) > 0 <==> Better(a, b))
    ensures Cmp(a, b) >= 0 && Cmp(b, c) >= 0 ==> Cmp(a, c) >= 0
  {
  }

  /** A hash that is not a leaf is never compared with others in a heap; any index stands for it. */
  function At(indices: Indices, h: nat): BlockIndex {
    if h in indices then indices[h] else BlockIndex(0, 0)
  }

  function BestLess(indices: Indices): (nat, nat) -> bool {
    (a: nat, b: nat) => Cmp(At(indices, a), At(indices, b)) > 0
  }

  function WorstLess(indices: Indices): (nat, nat) -> bool {
    (a: nat, b: nat) => Cmp(At(indices, a), At(indices, b)) < 0
  }

  lemma LessTransitive(indices: Indices)
    ensures Transitive(BestLess(indices)) && Transitive(WorstLess(indices))
  {
    forall a, b, c
      ensures Le(BestLess(indices), a, b) && Le(BestLess(indices), b, c) ==> Le(BestLess(indices), a, c)
      ensures Le(WorstLess(indices), a, b) && Le(WorstLess(indices), b, c) ==> Le(WorstLess(indices), a, c)
    {
      CmpOrder(At(indices, a), At(indices, b), At(indices, c));
      CmpOrder(At(indices, c), At(indices, b), At(indices, a));
    }
  }

  ghost predicate Ordered(indices: Indices, best: seq<nat>, worst: seq<nat>) {
    Heaped(BestLess(indices), best, |best|) && Heaped(WorstLess(indices), worst, |worst|)
  }

  /** When only the index of one leaf has changed, both heaps are in order but for it. */
  lemma IndexChanged(was: Indices, indices: Indices, best: seq<nat>, i: nat, worst: seq<nat>, j: nat)
    requires Ordered(was, best, worst)
    requires i < |best| && j < |worst| && best[i] == worst[j]
    requires forall k :: 0 <= k < |best| && k != i ==> best[k] != best[i]
    requires forall k :: 0 <= k < |worst| && k != j ==> worst[k] != worst[j]
    requires forall h :: h != best[i] ==> At(indices, h) == At(was, h)
    ensures HeapedBut(BestLess(indices), best, |best|, i)
    ensures HeapedBut(WorstLess(indices), worst, |worst|, j)
  {
    LessTransitive(was);
    Reranked(BestLess(was), BestLess(indices), best, i);
    Reranked(WorstLess(was), WorstLess(indices), worst, j);
  }

  /** No leaf has a higher total difficulty, or the same one and a greater height. */
  ghost predicate IsBest(indices: Indices, h: nat) {
    h in indices && forall k :: k in indices ==> !Better(indices[k], indices[h])
  }

  ghost predicate IsWorst(indices: Indices, h: nat) {
    h in indices && forall k :: k in indices ==> !Better(indices[h], indices[k])
  }

  /** The heights of a best and a worst leaf are far apart, in 64-bit arithmetic. */
  ghost predicate TooFar(indices: Indices) {
    exists b, w :: FarBelow(indices, b, w)
  }

  ghost predicate FarBelow(indices: Indices, b: nat, w: nat) {
    IsBest(indices, b) && IsWorst(indices, w) && (indices[b].height - indices[w].height) % TWO_64 >= PURGE_BLOCK_LIMIT
  }

  /** A worst leaf has gone when it was far below a best one, and nothing else. */
  ghost predicate Purged(was: Indices, indices: Indices) {
    if !TooFar(was) then indices == was
    else exists h :: IsWorst(was, h) && !IsBest(was, h) && indices == was - {h}
  }

  class BlockLeaves {
    var indices: Indices
    const best: Heap<nat>
    const worst: Heap<nat>

    ghost predicate Valid()
      reads this, best, worst
    {
      && best != worst && best.Indexed() && worst.Indexed()
      && best.index.Keys == indices.Keys && worst.index.Keys == indices.Keys
      && Ordered(indices, best.data, worst.data)
    }

    constructor ()
      ensures Valid() && indices == map[] && fresh(best) && fresh(worst)
    {
      indices := map[];
      best := new Heap<nat>();
      worst := new Heap<nat>();
    }

    method Add(h: nat, index: BlockIndex)
      requires Valid()
      modifies this, best, worst
      ensures Valid() && indices == old(indices)[h := index]
    {
      ghost var was := indices;
      indices := indices[h := index];
      LessTransitive(indices);
      if h in best.index {
        IndexChanged(was, indices, best.data, best.index[h], worst.data, worst.index[h]);
        best.Fix(best.index[h], BestLess(indices));
        worst.Fix(worst.index[h], WorstLess(indices));
      } else {
        SameOrder(was, indices, best.data, worst.data);
        best.Push(h, BestLess(indices));
        worst.Push(h, WorstLess(indices));
      }
    }

    method Remove(h: nat)
      requires Valid()
      modifies this, best, worst
      ensures Valid() && indices == old(indices) - {h}
    {
      if h !in indices {
        assert indices - {h} == indices;
        return;
      }
      ghost var was := indices;
      indices := indices - {h};
      LessTransitive(indices);
      IndexChanged(was, indices, best.data, best.index[h], worst.data, worst.index[h]);
      var _ := best.Remove(best.index[h], BestLess(indices));
      var _ := worst.Remove(worst.index[h], WorstLess(indices));
    }

    /** The tops of the heaps. */
    lemma Tops()
      requires Valid()
      ensures (best.data == [] <==> indices == map[]) && (worst.data == [] <==> indices == map[])
      ensures indices != map[] ==> IsBest(indices, best.data[0]) && IsWorst(indices, worst.data[0])
    {
      if best.data != [] {
        assert best.data[0] in best.index.Keys;
      }
      if worst.data != [] {
        assert worst.data[0] in worst.index.Keys;
      }
      if indices != map[] {
        var h :| h in indices;
        assert h in best.index && h in worst.index;
        LessTransitive(indices);
        forall k | k in indices
          ensures !Better(indices[k], indices[best.data[0]]) && !Better(indices[worst.data[0]], indices[k])
        {
          RootFirst(BestLess(indices), best.data, best.index[k]);
          RootFirst(WorstLess(indices), worst.data, worst.index[k]);
          CmpOrder(At(indices, best.data[0]), At(indices, k), At(indices, k));
          CmpOrder(At(indices, worst.data[0]), At(indices, k), At(indices, k));
        }
      }
    }

    /** IsBestBlockIndex: better than every leaf. */
    method IsBestBlockIndex(index: BlockIndex) returns (yes: bool)
      requires Valid()
      ensures yes <==> forall h :: h in indices ==> Better(index, indices[h])
    {
      Tops();
      if best.data == [] {
        return true;
      }
      var top := indices[best.data[0]];
      yes := Cmp(index, top) > 0;
      CmpOrder(index, top, top);
    }

    /** The part of PurgeAsync that runs at once: the worst leaf goes when it is far below the best one. */
    method Purge()
      requires Valid()
      modifies this, best, worst
      ensures Valid()
      ensures Purged(old(indices), indices)
    {
      Tops();
      if best.data == [] {
        return;
      }
      var bestIndex, worstIndex := indices[best.data[0]], indices[worst.data[0]];
      if (bestIndex.height - worstIndex.height) % TWO_64 < PURGE_BLOCK_LIMIT {
        return;
      }
      assert FarBelow(indices, best.data[0], worst.data[0]);
      Remove(worst.data[0]);
    }
  }

  lemma SameOrder(was: Indices, indices: Indices, best: seq<nat>, worst: seq<nat>)
    requires Ordered(was, best, worst)
    requires forall i :: 0 <= i < |best| ==> At(indices, best[i]) == At(was, best[i])
    requires forall i :: 0 <= i < |worst| ==> At(indices, worst[i]) == At(was, worst[i])
    ensures Ordered(indices, best, worst)
  {
  }

  /** The head of the chain over every block written. */
  class HeadChoice {
    const leaves: BlockLeaves
    /** Height and total difficulty of every block written. */
    var totals: Indices
    var head: nat

    ghost predicate Valid()
      reads this, leaves, leaves.best, leaves.worst
    {
      leaves.Valid() && Tracked(leaves.indices, totals, head)
    }

    constructor (genesis: nat, index: BlockIndex)
      ensures Valid() && fresh(leaves) && fresh(leaves.best) && fresh(leaves.worst)
      ensures totals == map[genesis := index] && head == genesis
    {
      totals, head := map[genesis := index], genesis;
      leaves := new BlockLeaves();
      new;
      leaves.Add(genesis, index);
    }

    /**
      The index part of doWriteBlock: the head changes exactly to a block better than every one written before. A
      block may come again.
     */
    method Write(h: nat, prev: nat, difficulty: int) returns (isHead: bool)
      requires Valid() && prev in totals && difficulty >= 1
      requires h in totals ==> totals[h] == BlockIndex(totals[prev].height + 1, totals[prev].td + difficulty)
      modifies this, leaves, leaves.best, leaves.worst
      ensures Valid()
      ensures totals == old(totals)[h := BlockIndex(old(totals)[prev].height + 1, old(totals)[prev].td + difficulty)]
      ensures isHead <==> forall w :: w in old(totals) ==> Better(totals[h], old(totals)[w])
      ensures head == if isHead then h else old(head)
      ensures var grown := old(leaves.indices)[h := totals[h]] - {prev};
        if isHead then Purged(grown, leaves.indices) else leaves.indices == grown
    {
      var index := BlockIndex(totals[prev].height + 1, totals[prev].td + difficulty);
      ghost var was := leaves.indices;
      isHead := leaves.IsBestBlockIndex(index);
      WriteStep(was, totals, head, h, prev, index, isHead);
      totals := totals[h := index];
      if isHead {
        head := h;
      }
      leaves.Add(h, index);
      leaves.Remove(prev);
      if isHead {
        ghost var left := leaves.indices;
        leaves.Purge();
        PurgeKeepsBest(left, leaves.indices, totals, head);
      }
    }
  }

  /** The leaves are among the blocks written, and the head is a leaf and the best block of all. */
  ghost predicate Tracked(leaves: Indices, totals: Indices, head: nat) {
    && head in leaves && (forall h :: h in leaves ==> h in totals && totals[h] == leaves[h])
    && IsBest(totals, head)
  }

  lemma WriteStep(leaves: Indices, totals: Indices, head: nat, h: nat, prev: nat, index: BlockIndex, isHead: bool)
    requires Tracked(leaves, totals, head) && prev in totals && index.td > totals[prev].td
    requires h in totals ==> totals[h] == index
    requires isHead <==> forall k :: k in leaves ==> Better(index, leaves[k])
    ensures Tracked(leaves[h := index] - {prev}, totals[h := index], if isHead then h else head)
    ensures isHead <==> forall k :: k in totals ==> Better(index, totals[k])
  {
    BestOfLeaves(leaves, totals, head, index);
  }

  lemma PurgeKeepsBest(leaves: Indices, left: Indices, totals: Indices, head: nat)
    requires Tracked(leaves, totals, head)
    requires left == leaves || exists k :: !IsBest(leaves, k) && left == leaves - {k}
    ensures Tracked(left, totals, head)
  {
  }

  /** The head is a leaf, so being better than the leaves is being better than every block. */
  lemma BestOfLeaves(leaves: Indices, totals: Indices, head: nat, index: BlockIndex)
    requires head in leaves && (forall h :: h in leaves ==> h in totals && totals[h] == leaves[h])
    requires IsBest(totals, head)
    ensures (forall h :: h in leaves ==> Better(index, leaves[h])) <==> Better(index, totals[head])
    ensures (forall h :: h in totals ==> Better(index, totals[h])) <==> Better(index, totals[head])
  {
  }
}
