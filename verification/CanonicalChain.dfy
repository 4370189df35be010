/** The height map and the indices on their way from one branch to another (core/blockchain.go). */
module CanonicalChain {
  import opened Common
  import opened ChainIndex
  import opened Chain

  type Heights = map<nat, BlockHash>

  /** A branch as a height map: every block holds its height and its parent's hash, genesis the empty one. */
  ghost predicate Linked(blocks: Blocks, path: Heights, top: nat) {
    && Spans(path, top)
    && EMPTY_HASH !in blocks
    && AtHeight(blocks, path)
    && (forall k: nat {:trigger LinkedAt(blocks, path, k)} :: k in path ==> LinkedAt(blocks, path, k))
  }

  /** The hash that the block at height `j` of a branch points to. */
  ghost function Below(path: Heights, j: nat): BlockHash {
    if j == 0 || j - 1 !in path then EMPTY_HASH else path[j - 1]
  }

  ghost predicate Spans(path: Heights, top: nat) {
    forall k: nat :: k in path <==> k <= top
  }

  ghost predicate LinkedAt(blocks: Blocks, path: Heights, k: nat) {
    k in path && path[k] in blocks && (k > 0 ==> k - 1 in path) &&
    blocks[path[k]].prev == if k == 0 then EMPTY_HASH else path[k - 1]
  }

  lemma PathLinked(blocks: Blocks, genesis: BlockHash, h: BlockHash)
    requires Tree(blocks, genesis) && h in blocks
    ensures Linked(blocks, Path(blocks, genesis, h), blocks[h].height)
  {
    var path := Path(blocks, genesis, h);
    forall k | k in path ensures path[k] in blocks && blocks[path[k]].height == k && LinkedAt(blocks, path, k) {
      assert Placed(blocks, genesis, path[k]);
      if k > 0 {
        ParentOf(blocks, genesis, h, k);
      }
    }
  }

  /** Branches that share a block share everything below it. */
  lemma {:induction false} SharedBelow(blocks: Blocks, path: Heights, top: nat, was: Heights, last: nat, i: nat, k: nat)
    requires Linked(blocks, path, top) && Linked(blocks, was, last)
    requires k <= i && i <= top && i <= last && path[i] == was[i]
    ensures path[k] == was[k]
    decreases i
  {
    if k < i {
      assert LinkedAt(blocks, path, i) && LinkedAt(blocks, was, i);
      SharedBelow(blocks, path, top, was, last, i - 1, k);
    }
  }

  /** The new branch from height `h` up, the old one below `h` and from `u` on. */
  ghost predicate Spliced(heights: Heights, path: Heights, was: Heights, h: nat, u: nat) {
    && (forall k: nat :: k in heights <==> (k in path && k >= h) || (k in was && (k < h || k >= u)))
    && forall k :: k in heights ==> heights[k] == if k in path && k >= h then path[k] else was[k]
  }

  /** Every canonical block is filed under its own height. */
  ghost predicate AtHeight(blocks: Blocks, heights: Heights) {
    forall k :: k in heights ==> heights[k] in blocks && blocks[heights[k]].height == k
  }

  lemma ValuesWithout(blocks: Blocks, heights: Heights, k: nat)
    requires AtHeight(blocks, heights) && k in heights
    ensures (heights - {k}).Values == heights.Values - {heights[k]}
  {
    var less := heights - {k};
    forall b ensures b in less.Values <==> b in heights.Values && b != heights[k] {
      if b in heights.Values && b != heights[k] {
        var j :| j in heights && heights[j] == b;
        assert j in less && less[j] == b;
      }
    }
  }

  lemma ValuesWith(blocks: Blocks, heights: Heights, k: nat, n: BlockHash)
    requires AtHeight(blocks, heights) && n in blocks && blocks[n].height == k
    ensures heights[k := n].Values == (if k in heights then heights.Values - {heights[k]} else heights.Values) + {n}
  {
    var more := heights[k := n];
    assert k in more && more[k] == n;
    forall b ensures b in more.Values <==> b == n || (b in heights.Values && (k in heights ==> b != heights[k])) {
      if b in heights.Values && (k in heights ==> b != heights[k]) {
        var j :| j in heights && heights[j] == b;
        assert j in more && more[j] == b;
      }
    }
  }

  /** What the store persists about the canonical chain: the height map and the indices. */
  datatype Canon = Canon(heights: Heights, txIndex: Index, debtIndex: Index)

  /** Always true: where it is mentioned, what is stated under it is opened for `c`. */
  ghost predicate Unfolded(c: Canon, k: nat) {
    true
  }

  /** The height map and the indices agree up to the blocks that are about to leave or to enter. */
  ghost predicate Ready(blocks: Blocks, c: Canon, recent: set<BlockHash>, weak: set<BlockHash>, extra: set<BlockHash>) {
    forall k: nat {:trigger Unfolded(c, k)} :: Unfolded(c, k) ==> Agreed(blocks, c, recent, weak, extra)
  }

  ghost predicate Agreed(blocks: Blocks, c: Canon, recent: set<BlockHash>, weak: set<BlockHash>,
                         extra: set<BlockHash>) {
    && AtHeight(blocks, c.heights) && (forall h :: h in blocks ==> blocks[h].hash == h)
    && recent <= c.heights.Values
    && Mixed(TxLists(blocks), c.txIndex, c.heights.Values, recent, weak, extra)
    && Mixed(DebtLists(blocks), c.debtIndex, c.heights.Values, recent, weak, extra)
  }

  /** The canonical block at height `k`, whose indices may be gone already. */
  ghost function Leaving(c: Canon, k: nat): set<BlockHash> {
    if k in c.heights then {c.heights[k]} else {}
  }

  lemma ReadyHasDebts(blocks: Blocks, c: Canon, recent: set<BlockHash>, weak: set<BlockHash>, extra: set<BlockHash>,
                      k: nat)
    requires Ready(blocks, c, recent, weak, extra) && k in c.heights && c.heights[k] !in weak
    ensures c.heights[k] in blocks && !Missing(blocks, c, k)
  {
    assert Unfolded(c, 0);
    var b := c.heights[k];
    forall d | d in blocks[b].debts ensures d in c.debtIndex {
      assert Holds(DebtLists(blocks), Place(b, LastAt(blocks[b].debts, d)), d);
    }
  }

  /** Deleting the indices of the canonical block at `k` fails: one of its debts is not indexed. */
  ghost predicate Missing(blocks: Blocks, c: Canon, k: nat) {
    k in c.heights && c.heights[k] in blocks && exists d :: d in blocks[c.heights[k]].debts && d !in c.debtIndex
  }

  /** A debt of `b` is in no block of `recent`. */
  ghost predicate Uncovered(blocks: Blocks, b: BlockHash, recent: set<BlockHash>) {
    b in blocks && exists d :: d in blocks[b].debts && forall r :: r in recent && r in blocks ==> d !in blocks[r].debts
  }

  /**
    Deleting the indices of a leaving block a second time fails exactly when one of its debts is in no block of the new
    branch that is in place.
   */
  lemma DeleteAgainFails(blocks: Blocks, c: Canon, recent: set<BlockHash>, k: nat)
    requires Ready(blocks, c, recent, {}, {}) && k in c.heights && c.heights[k] !in recent
    ensures c.heights[k] in blocks
    ensures Missing(blocks, Unindexed(c, blocks[c.heights[k]]), k) <==> Uncovered(blocks, c.heights[k], recent)
  {
    assert Unfolded(c, 0);
    var b, lists := c.heights[k], DebtLists(blocks);
    var after := Unindexed(c, blocks[b]);
    forall d | d in blocks[b].debts ensures d in after.debtIndex <==>
      exists r :: r in recent && r in blocks && d in blocks[r].debts {
      DeletedKeeps(lists, c.debtIndex, c.heights.Values, recent, b, d);
      if r :| r in recent && r in lists && d in lists[r] {
        assert d in blocks[r].debts;
      }
      if r :| r in recent && r in blocks && d in blocks[r].debts {
        assert d in lists[r];
      }
    }
  }

  /** The same after the indices of the entering block `n` have been added. */
  lemma AddedCovers(blocks: Blocks, c: Canon, recent: set<BlockHash>, k: nat, n: BlockHash)
    requires Ready(blocks, c, recent, {}, {}) && k in c.heights && c.heights[k] !in recent && n in blocks
    ensures c.heights[k] in blocks
    ensures Missing(blocks, Reindexed(Unindexed(c, blocks[c.heights[k]]), blocks[n]), k) <==>
      Uncovered(blocks, c.heights[k], recent + {n})
  {
    DeleteAgainFails(blocks, c, recent, k);
    var b := c.heights[k];
    var mid := Unindexed(c, blocks[b]);
    forall d ensures d in Reindexed(mid, blocks[n]).debtIndex <==> d in mid.debtIndex || d in blocks[n].debts {
      AddedAt(mid.debtIndex, blocks[n].debts, blocks[n].hash, d);
    }
    assert Unfolded(c, 0);
    forall d | d in blocks[b].debts ensures d in mid.debtIndex <==>
      exists r :: r in recent && r in blocks && d in blocks[r].debts {
      DeletedKeeps(DebtLists(blocks), c.debtIndex, c.heights.Values, recent, b, d);
      if r :| r in recent && r in blocks && d in blocks[r].debts {
        assert d in DebtLists(blocks)[r];
      }
    }
  }

  lemma ReadyWeaken(blocks: Blocks, c: Canon, recent: set<BlockHash>, weak: set<BlockHash>, weaker: set<BlockHash>,
                    extra: set<BlockHash>, more: set<BlockHash>)
    requires Ready(blocks, c, recent, weak, extra) && weak <= weaker && extra <= more
    ensures Ready(blocks, c, recent, weaker, more)
  {
    assert Unfolded(c, 0);
    Weaken(TxLists(blocks), c.txIndex, c.heights.Values, recent, weak, weaker, extra, more);
    Weaken(DebtLists(blocks), c.debtIndex, c.heights.Values, recent, weak, weaker, extra, more);
  }

  /** The indices of `b` deleted. */
  function Unindexed(c: Canon, b: Block): Canon {
    c.(txIndex := Deleted(c.txIndex, b.txs, b.hash), debtIndex := Deleted(c.debtIndex, b.debts, b.hash))
  }

  lemma ReadyDelete(blocks: Blocks, c: Canon, recent: set<BlockHash>, weak: set<BlockHash>, extra: set<BlockHash>,
                    k: nat)
    requires k in c.heights && Ready(blocks, c, recent, weak + {c.heights[k]}, extra) && c.heights[k] !in recent + extra
    ensures c.heights[k] in blocks && blocks[c.heights[k]].height == k
    ensures var c' := Unindexed(c, blocks[c.heights[k]]);
      && Ready(blocks, c', recent, weak + {c.heights[k]}, extra)
      && Ready(blocks, c'.(heights := c.heights - {k}), recent, weak, extra)
  {
    assert Unfolded(c, 0);
    var b := c.heights[k];
    DeleteStep(TxLists(blocks), c.txIndex, c.heights.Values, recent, weak, extra, b);
    DeleteStep(DebtLists(blocks), c.debtIndex, c.heights.Values, recent, weak, extra, b);
    ValuesWithout(blocks, c.heights, k);
  }

  /** `path` is the branch of the new head, `was` the old canonical one. */
  ghost predicate Scene(blocks: Blocks, path: Heights, top: nat, was: Heights, last: nat) {
    && Spans(path, top) && Spans(was, last) && AtHeight(blocks, path) && top > 0 && EMPTY_HASH !in blocks
    && forall k: nat {:trigger Seen(path, k)} :: Seen(path, k) ==> Branches(blocks, path, top, was, last)
  }

  /** Always true: opens Scene for `path`. */
  ghost predicate Seen(path: Heights, k: nat) {
    true
  }

  ghost predicate Branches(blocks: Blocks, path: Heights, top: nat, was: Heights, last: nat) {
    && Linked(blocks, path, top) && Linked(blocks, was, last)
    && NoRepeats(TxLists(blocks), path.Values) && NoRepeats(DebtLists(blocks), path.Values)
  }

  /** Cleared from above the new head up to `u`. */
  ghost predicate Cleared(blocks: Blocks, c: Canon, path: Heights, top: nat, was: Heights, u: nat) {
    && u > top && top in path
    && forall k: nat {:trigger Unfolded(c, k)} :: Unfolded(c, k) ==>
      Spliced(c.heights, path, was, top, u) && Ready(blocks, c, {path[top]}, {}, {})
  }

  /** As Cleared, but the block at `u` may have lost its indices or its place already. */
  ghost predicate Clearing(blocks: Blocks, c: Canon, path: Heights, top: nat, was: Heights, u: nat) {
    && u > top && top in path
    && (forall k: nat {:trigger Unfolded(c, k)} :: Unfolded(c, k) ==>
         (Spliced(c.heights, path, was, top, u) || Spliced(c.heights, path, was, top, u + 1)))
    && Ready(blocks, c, {path[top]}, Leaving(c, u), {})
  }

  lemma ClearedIsClearing(blocks: Blocks, c: Canon, path: Heights, top: nat, was: Heights, u: nat)
    requires Cleared(blocks, c, path, top, was, u)
    ensures Clearing(blocks, c, path, top, was, u)
  {
    assert Unfolded(c, 0);
    ReadyWeaken(blocks, c, {path[top]}, {}, Leaving(c, u), {}, {});
  }

  /** The block that has gone last may be looked for again. */
  lemma ClearingBelow(blocks: Blocks, c: Canon, path: Heights, top: nat, was: Heights, last: nat, u: nat, i: nat)
    requires u == i + 1 && i > top && Scene(blocks, path, top, was, last) && Cleared(blocks, c, path, top, was, u)
    ensures Clearing(blocks, c, path, top, was, i) && i !in c.heights
  {
    assert Unfolded(c, 0);
    ReadyWeaken(blocks, c, {path[top]}, {}, Leaving(c, i), {}, {});
  }

  /** There is a block to clear at `u` as long as the old branch reaches that height. */
  lemma ClearedAt(blocks: Blocks, c: Canon, path: Heights, top: nat, was: Heights, last: nat, u: nat)
    requires Scene(blocks, path, top, was, last) && Cleared(blocks, c, path, top, was, u)
    ensures u in c.heights <==> u <= last
    ensures u <= last ==> c.heights[u] == was[u] && c.heights[u] != path[top]
  {
    assert Unfolded(c, 0);
    assert Seen(path, 0);
  }

  /** A crash between the two writes of deleteCanonicalBlock. */
  lemma ClearGap(blocks: Blocks, c: Canon, path: Heights, top: nat, was: Heights, last: nat, u: nat)
    requires Scene(blocks, path, top, was, last) && Cleared(blocks, c, path, top, was, u) && u <= last
    ensures u in c.heights && c.heights[u] == was[u] && was[u] in blocks
    ensures !Missing(blocks, c, u)
    ensures Missing(blocks, Unindexed(c, blocks[was[u]]), u) <==> Uncovered(blocks, was[u], {path[top]})
  {
    ClearedAt(blocks, c, path, top, was, last, u);
    assert Unfolded(c, 0);
    ReadyHasDebts(blocks, c, {path[top]}, {}, {}, u);
    DeleteAgainFails(blocks, c, {path[top]}, u);
  }

  lemma ClearedAll(blocks: Blocks, c: Canon, path: Heights, top: nat, was: Heights, last: nat, u: nat)
    requires Scene(blocks, path, top, was, last) && Cleared(blocks, c, path, top, was, u) && u > last
    ensures Cleared(blocks, c, path, top, was, End(top, last))
  {
    assert Unfolded(c, 0);
  }

  /** The two writes of deleteCanonicalBlock: the state between them and the state after them. */
  lemma ClearStep(blocks: Blocks, c: Canon, path: Heights, top: nat, was: Heights, last: nat, u: nat)
    requires Scene(blocks, path, top, was, last) && Clearing(blocks, c, path, top, was, u) && u in c.heights
    ensures c.heights[u] in blocks && blocks[c.heights[u]].height == u
    ensures var c' := Unindexed(c, blocks[c.heights[u]]);
      && Clearing(blocks, c', path, top, was, u)
      && Cleared(blocks, c'.(heights := c.heights - {u}), path, top, was, u + 1)
  {
    assert Seen(path, 0);
    assert Unfolded(c, 0);
    assert {} + {c.heights[u]} == {c.heights[u]};
    ReadyDelete(blocks, c, {path[top]}, {}, {}, u);
  }

  /** A height above both branches. */
  ghost function End(top: nat, last: nat): nat {
    top + last + 1
  }

  ghost function Top(path: Heights, h: nat): set<BlockHash> {
    set k | k in path && k >= h :: path[k]
  }

  /**
    What of the old branch is left above the new head: its blocks from `first` up, of which those in `lost` may have
    lost their indices.
   */
  datatype Rest = Rest(first: nat, lost: set<BlockHash>)

  ghost predicate Remains(blocks: Blocks, top: nat, rest: Rest) {
    rest.first > top && forall b :: b in rest.lost ==> b in blocks && blocks[b].height >= rest.first
  }

  /** Overwritten down to height `h`. */
  ghost predicate Overwritten(blocks: Blocks, c: Canon, path: Heights, was: Heights, h: nat, rest: Rest) {
    forall k: nat {:trigger Unfolded(c, k)} :: Unfolded(c, k) ==>
      Spliced(c.heights, path, was, h, rest.first) && Ready(blocks, c, Top(path, h), rest.lost, {})
  }

  /** The canonical block at `j` is not the one of the new branch. */
  predicate Stale(c: Canon, path: Heights, j: nat)
    requires j in path
  {
    j !in c.heights || c.heights[j] != path[j]
  }

  /** Overwritten down to `j`, or above it with the indices at `j` possibly on the way. */
  ghost predicate Overwriting(blocks: Blocks, c: Canon, path: Heights, was: Heights, j: nat, rest: Rest) {
    j in path &&
    if Stale(c, path, j) then Halfway(blocks, c, path, was, j, rest) else Overwritten(blocks, c, path, was, j, rest)
  }

  ghost predicate Halfway(blocks: Blocks, c: Canon, path: Heights, was: Heights, j: nat, rest: Rest)
    requires j in path
  {
    forall k: nat {:trigger Unfolded(c, k)} :: Unfolded(c, k) ==>
      Spliced(c.heights, path, was, j + 1, rest.first) &&
      Ready(blocks, c, Top(path, j + 1), rest.lost + Leaving(c, j), {path[j]})
  }

  function Reindexed(c: Canon, b: Block): Canon {
    c.(txIndex := Added(c.txIndex, b.txs, b.hash), debtIndex := Added(c.debtIndex, b.debts, b.hash))
  }

  lemma ReadyAdd(blocks: Blocks, c: Canon, recent: set<BlockHash>, weak: set<BlockHash>, n: BlockHash)
    requires n in blocks && NoRepeats(TxLists(blocks), recent + {n}) && NoRepeats(DebtLists(blocks), recent + {n})
    requires Ready(blocks, c, recent, weak, {n})
    ensures Ready(blocks, Reindexed(c, blocks[n]), recent, weak, {n})
  {
    assert Unfolded(c, 0);
    AddStep(TxLists(blocks), c.txIndex, c.heights.Values, recent, weak, n);
    AddStep(DebtLists(blocks), c.debtIndex, c.heights.Values, recent, weak, n);
  }

  lemma ReadyEnter(blocks: Blocks, c: Canon, recent: set<BlockHash>, weak: set<BlockHash>, n: BlockHash)
    requires n in blocks && NoRepeats(TxLists(blocks), recent + {n}) && NoRepeats(DebtLists(blocks), recent + {n})
    requires Ready(blocks, c, recent, weak, {n}) && blocks[n].height !in c.heights
    ensures Ready(blocks, Reindexed(c, blocks[n]).(heights := c.heights[blocks[n].height := n]), recent + {n}, weak, {})
  {
    assert Unfolded(c, 0);
    EnterStep(TxLists(blocks), c.txIndex, c.heights.Values, recent, weak, n);
    EnterStep(DebtLists(blocks), c.debtIndex, c.heights.Values, recent, weak, n);
    ValuesWith(blocks, c.heights, blocks[n].height, n);
  }

  /** The state after the old indices at `j` have been deleted. */
  function WithoutOld(blocks: Blocks, c: Canon, j: nat): Canon {
    if j in c.heights && c.heights[j] in blocks then Unindexed(c, blocks[c.heights[j]]) else c
  }

  lemma TopSound(blocks: Blocks, path: Heights, top: nat, was: Heights, last: nat, j: nat)
    requires Scene(blocks, path, top, was, last) && j in path
    ensures Top(path, j + 1) + {path[j]} == Top(path, j) <= path.Values
    ensures NoRepeats(TxLists(blocks), Top(path, j)) && NoRepeats(DebtLists(blocks), Top(path, j))
  {
    assert Seen(path, 0);
  }

  /** A canonical block at height `j` that is not on the new branch is not a recent one. */
  lemma OldNotRecent(blocks: Blocks, path: Heights, j: nat, b: BlockHash)
    requires AtHeight(blocks, path) && j in path && b in blocks && blocks[b].height == j && b != path[j]
    ensures b !in Top(path, j + 1) + {path[j]}
  {
  }

  lemma OverwriteDelete(blocks: Blocks, c: Canon, path: Heights, top: nat, was: Heights, last: nat, j: nat, rest: Rest)
    requires Scene(blocks, path, top, was, last) && Overwriting(blocks, c, path, was, j, rest) && Stale(c, path, j)
    ensures j in c.heights ==> c.heights[j] in blocks && blocks[c.heights[j]].height == j
    ensures var c1 := WithoutOld(blocks, c, j);
      && Overwriting(blocks, c1, path, was, j, rest)
      && Ready(blocks, c1.(heights := c.heights - {j}), Top(path, j + 1), rest.lost, {path[j]})
  {
    assert Seen(path, 0);
    assert Unfolded(c, 0);
    var recent := Top(path, j + 1);
    if j in c.heights {
      OldNotRecent(blocks, path, j, c.heights[j]);
      ReadyDelete(blocks, c, recent, rest.lost, {path[j]}, j);
    } else {
      assert c.heights - {j} == c.heights && rest.lost + {} == rest.lost;
    }
  }

  lemma OverwriteAdd(blocks: Blocks, c: Canon, path: Heights, top: nat, was: Heights, last: nat, j: nat, rest: Rest)
    requires Scene(blocks, path, top, was, last) && Overwriting(blocks, c, path, was, j, rest) && Stale(c, path, j)
    ensures Overwriting(blocks, Reindexed(c, blocks[path[j]]), path, was, j, rest)
  {
    assert Unfolded(c, 0);
    assert Seen(path, 0);
    TopSound(blocks, path, top, was, last, j);
    ReadyAdd(blocks, c, Top(path, j + 1), rest.lost + Leaving(c, j), path[j]);
  }

  lemma SpliceDown(heights: Heights, path: Heights, was: Heights, j: nat, first: nat)
    requires j in path && Spliced(heights, path, was, j + 1, first)
    ensures Spliced(heights[j := path[j]], path, was, j, first)
  {
  }

  lemma OverwriteEnter(blocks: Blocks, c: Canon, path: Heights, top: nat, was: Heights, last: nat, j: nat, rest: Rest)
    requires Scene(blocks, path, top, was, last) && Overwriting(blocks, c, path, was, j, rest) && Stale(c, path, j)
    requires Ready(blocks, c.(heights := c.heights - {j}), Top(path, j + 1), rest.lost, {path[j]})
    ensures Overwritten(blocks, Reindexed(c, blocks[path[j]]).(heights := c.heights[j := path[j]]), path, was, j, rest)
  {
    assert Unfolded(c, 0);
    assert Seen(path, 0);
    TopSound(blocks, path, top, was, last, j);
    ReadyEnter(blocks, c.(heights := c.heights - {j}), Top(path, j + 1), rest.lost, path[j]);
    assert (c.heights - {j})[j := path[j]] == c.heights[j := path[j]];
    SpliceDown(c.heights, path, was, j, rest.first);
  }

  lemma OverwrittenThere(blocks: Blocks, c: Canon, path: Heights, was: Heights, j: nat, rest: Rest)
    requires Overwritten(blocks, c, path, was, j, rest) && j in path
    ensures !Stale(c, path, j) && Overwriting(blocks, c, path, was, j, rest)
  {
    assert Unfolded(c, 0);
  }

  /** The next block down: either the walk stops there, or it is about to be overwritten. */
  lemma OverwriteNext(blocks: Blocks, c: Canon, path: Heights, top: nat, was: Heights, last: nat, j: nat, rest: Rest)
    requires Scene(blocks, path, top, was, last) && Overwritten(blocks, c, path, was, j + 1, rest) && j in path
    ensures Overwriting(blocks, c, path, was, j, rest)
  {
    assert Seen(path, 0);
    assert Unfolded(c, 0);
    if Stale(c, path, j) {
      ReadyWeaken(blocks, c, Top(path, j + 1), rest.lost, rest.lost + Leaving(c, j), {}, {path[j]});
    } else {
      TopSound(blocks, path, top, was, last, j);
      GrowRecent(TxLists(blocks), c.txIndex, c.heights.Values, Top(path, j + 1), rest.lost, path[j]);
      GrowRecent(DebtLists(blocks), c.debtIndex, c.heights.Values, Top(path, j + 1), rest.lost, path[j]);
      assert c.heights[j := path[j]] == c.heights;
      SpliceDown(c.heights, path, was, j, rest.first);
    }
  }

  /** A block of the new branch that the old one shares: everything below is shared, and the new branch is in place. */
  lemma OverwriteStops(blocks: Blocks, c: Canon, path: Heights, top: nat, was: Heights, last: nat, j: nat, rest: Rest)
    requires Scene(blocks, path, top, was, last) && rest.first > last && rest.first > top
    requires Overwritten(blocks, c, path, was, j, rest) && (j == 0 || (j <= last && j <= top && path[j] == was[j]))
    ensures c.heights == path
  {
    assert Unfolded(c, 0);
    assert Seen(path, 0);
    forall k: nat | k < j && j <= last && j <= top ensures path[k] == was[k] {
      SharedBelow(blocks, path, top, was, last, j, k);
    }
  }

  /** The canonical chain is exactly the branch `path`, with exactly its indices. */
  ghost predicate Settled(blocks: Blocks, c: Canon, path: Heights) {
    forall k: nat {:trigger Unfolded(c, k)} :: Unfolded(c, k) ==> Matches(blocks, c, path)
  }

  ghost predicate Matches(blocks: Blocks, c: Canon, path: Heights) {
    c.heights == path && Exact(TxLists(blocks), c.txIndex, path.Values) &&
    Exact(DebtLists(blocks), c.debtIndex, path.Values)
  }

  lemma OverwriteSettles(blocks: Blocks, c: Canon, path: Heights, top: nat, was: Heights, last: nat, j: nat, rest: Rest)
    requires Scene(blocks, path, top, was, last) && rest == Rest(End(top, last), {})
    requires Overwritten(blocks, c, path, was, j, rest) && (j == 0 || (j <= last && j <= top && path[j] == was[j]))
    ensures Settled(blocks, c, path)
  {
    assert Seen(path, 0);
    assert Unfolded(c, 0);
    OverwriteStops(blocks, c, path, top, was, last, j, rest);
    MixedIsExact(TxLists(blocks), c.txIndex, path.Values, Top(path, j));
    MixedIsExact(DebtLists(blocks), c.debtIndex, path.Values, Top(path, j));
  }

  lemma PathPrev(blocks: Blocks, path: Heights, top: nat, was: Heights, last: nat, j: nat)
    requires Scene(blocks, path, top, was, last) && j in path
    ensures path[j] in blocks && blocks[path[j]].prev == Below(path, j)
  {
    assert Seen(path, 0) && LinkedAt(blocks, path, j);
  }

  /** There is one such state: a recovered store is the store of an uninterrupted write. */
  lemma SettledUnique(blocks: Blocks, c: Canon, c': Canon, path: Heights)
    requires Settled(blocks, c, path) && Settled(blocks, c', path)
    ensures c == c'
  {
    assert Unfolded(c, 0) && Unfolded(c', 0);
    ExactUnique(TxLists(blocks), c.txIndex, c'.txIndex, path.Values);
    ExactUnique(DebtLists(blocks), c.debtIndex, c'.debtIndex, path.Values);
  }

  lemma NewScene(blocks: Blocks, genesis: BlockHash, b: Block, head: BlockHash)
    requires Fits(blocks, genesis, b) && head in blocks
    requires Tree(blocks[b.hash := b], genesis) && Sound(blocks[b.hash := b], genesis, b.hash)
    ensures Scene(blocks[b.hash := b], Path(blocks[b.hash := b], genesis, b.hash), b.height,
                  Path(blocks, genesis, head), blocks[head].height)
  {
    var more := blocks[b.hash := b];
    PathKept(blocks, more, genesis, head);
    PathLinked(more, genesis, b.hash);
    PathLinked(more, genesis, head);
  }

  lemma StillMixed(blocks: Blocks, b: Block, c: Canon, was: Heights)
    requires b.hash !in blocks && Matches(blocks, c, was) && AtHeight(blocks, was)
    ensures Mixed(TxLists(blocks[b.hash := b]), c.txIndex, was.Values, {}, {}, {})
    ensures Mixed(DebtLists(blocks[b.hash := b]), c.debtIndex, was.Values, {}, {}, {})
  {
    Stored(TxLists(blocks), TxLists(blocks[b.hash := b]), c.txIndex, was.Values);
    Stored(DebtLists(blocks), DebtLists(blocks[b.hash := b]), c.debtIndex, was.Values);
  }

  lemma StillReady(blocks: Blocks, genesis: BlockHash, b: Block, c: Canon, was: Heights)
    requires Fits(blocks, genesis, b) && Settled(blocks, c, was) && AtHeight(blocks, was)
    ensures Ready(blocks[b.hash := b], c, {}, {}, {})
  {
    assert Matches(blocks, c, was) by {
      assert Unfolded(c, 0);
    }
    forall h | h in blocks ensures blocks[h].hash == h {
      assert Placed(blocks, genesis, h);
    }
    StillMixed(blocks, b, c, was);
  }

  /** Storing a block beside the canonical chain changes nothing about it. */
  lemma SideSettled(blocks: Blocks, genesis: BlockHash, b: Block, c: Canon, head: BlockHash)
    requires Fits(blocks, genesis, b) && head in blocks && Settled(blocks, c, Path(blocks, genesis, head))
    ensures Tree(blocks[b.hash := b], genesis)
    ensures Settled(blocks[b.hash := b], c, Path(blocks[b.hash := b], genesis, head))
  {
    var more, path := blocks[b.hash := b], Path(blocks, genesis, head);
    FitsTree(blocks, genesis, b);
    PathKept(blocks, more, genesis, head);
    PathLinked(blocks, genesis, head);
    assert Unfolded(c, 0);
    StoredExact(TxLists(blocks), TxLists(more), c.txIndex, path.Values);
    StoredExact(DebtLists(blocks), DebtLists(more), c.debtIndex, path.Values);
  }

  /** Before the new head is filed, its branch is overwritten above it and the whole old branch is in place. */
  lemma BeforeHead(blocks: Blocks, genesis: BlockHash, b: Block, c: Canon, path: Heights, was: Heights)
    requires Fits(blocks, genesis, b) && Settled(blocks, c, was) && AtHeight(blocks, was) && Spans(path, b.height)
    ensures Overwritten(blocks[b.hash := b], c, path, was, b.height + 1, Rest(b.height + 1, {}))
  {
    assert Unfolded(c, 0);
    StillReady(blocks, genesis, b, c, was);
    assert Top(path, b.height + 1) == {};
  }

  /** How many leading debts are indexed: batchDeleteIndices stops at the first one that is not. */
  function Leading(debts: seq<ItemHash>, idx: Index): (n: nat)
    ensures n <= |debts|
  {
    if debts == [] || debts[0] !in idx then 0 else 1 + Leading(debts[1..], idx)
  }

  lemma {:induction false} AllLeading(debts: seq<ItemHash>, idx: Index)
    requires forall d :: d in debts ==> d in idx
    ensures Leading(debts, idx) == |debts|
  {
    if debts != [] {
      AllLeading(debts[1..], idx);
    }
  }

  /** The deletions of putBlockInternal, which ignores the error of batchDeleteIndices. */
  function BatchDeleted(blocks: Blocks, c: Canon, k: nat): Canon {
    if k !in c.heights || c.heights[k] !in blocks then c
    else
      var b := blocks[c.heights[k]];
      c.(txIndex := Deleted(c.txIndex, b.txs, b.hash),
         debtIndex := Deleted(c.debtIndex, b.debts[..Leading(b.debts, c.debtIndex)], b.hash))
  }

  /** The batch of putBlockInternal for a new head. */
  function HeadFiled(blocks: Blocks, c: Canon, b: Block): Canon {
    Reindexed(BatchDeleted(blocks, c, b.height), b).(heights := c.heights[b.height := b.hash])
  }

  lemma BatchDeletesAll(blocks: Blocks, c: Canon, b: Block, recent: set<BlockHash>)
    requires b.hash !in blocks && Ready(blocks[b.hash := b], c, recent, {}, {}) && AtHeight(blocks, c.heights)
    ensures BatchDeleted(blocks, c, b.height) == WithoutOld(blocks[b.hash := b], c, b.height)
  {
    if b.height in c.heights {
      var o := blocks[c.heights[b.height]];
      ReadyHasDebts(blocks[b.hash := b], c, recent, {}, {}, b.height);
      AllLeading(o.debts, c.debtIndex);
      assert o.debts[..|o.debts|] == o.debts;
    }
  }

  lemma HeadIsCleared(blocks: Blocks, c: Canon, path: Heights, top: nat, was: Heights, last: nat)
    requires Scene(blocks, path, top, was, last) && Overwritten(blocks, c, path, was, top, Rest(top + 1, {}))
    ensures Cleared(blocks, c, path, top, was, top + 1)
  {
    assert Unfolded(c, 0);
    assert Top(path, top) == {path[top]};
  }

  lemma SettledHeights(blocks: Blocks, c: Canon, was: Heights)
    requires Settled(blocks, c, was)
    ensures c.heights == was
  {
    assert Unfolded(c, 0);
  }

  lemma AfterHead(blocks: Blocks, genesis: BlockHash, b: Block, c: Canon, path: Heights, was: Heights, last: nat)
    requires Fits(blocks, genesis, b) && Settled(blocks, c, was) && AtHeight(blocks, was)
    requires Scene(blocks[b.hash := b], path, b.height, was, last) && path[b.height] == b.hash
    ensures Cleared(blocks[b.hash := b], HeadFiled(blocks, c, b), path, b.height, was, b.height + 1)
  {
    SettledHeights(blocks, c, was);
    var more, top := blocks[b.hash := b], b.height;
    BeforeHead(blocks, genesis, b, c, path, was);
    StillReady(blocks, genesis, b, c, was);
    BatchDeletesAll(blocks, c, b, {});
    OverwriteNext(more, c, path, top, was, last, top, Rest(top + 1, {}));
    OverwriteDelete(more, c, path, top, was, last, top, Rest(top + 1, {}));
    OverwriteEnter(more, WithoutOld(more, c, top), path, top, was, last, top, Rest(top + 1, {}));
    HeadIsCleared(more, HeadFiled(blocks, c, b), path, top, was, last);
  }

  lemma ClearedIsOverwritten(blocks: Blocks, c: Canon, path: Heights, top: nat, was: Heights, last: nat, u: nat)
    requires Scene(blocks, path, top, was, last) && Cleared(blocks, c, path, top, was, u)
    ensures Overwritten(blocks, c, path, was, top, Rest(u, {}))
  {
    assert Top(path, top) == {path[top]};
    assert Unfolded(c, 0);
  }

  /** With everything above the new head gone, the walk down from its parent can start. */
  lemma ClearedIsOverwriting(blocks: Blocks, c: Canon, path: Heights, top: nat, was: Heights, last: nat, u: nat, j: nat)
    requires top == j + 1 && Scene(blocks, path, top, was, last) && Cleared(blocks, c, path, top, was, u)
    ensures Overwriting(blocks, c, path, was, j, Rest(u, {})) && !Missing(blocks, c, j)
  {
    ClearedIsOverwritten(blocks, c, path, top, was, last, u);
    OverwriteNext(blocks, c, path, top, was, last, j, Rest(u, {}));
    WalkAbove(blocks, c, path, top, was, last, j, Rest(u, {}));
  }

  /** It can also start below a block that could not be cleared. */
  lemma TornIsOverwriting(blocks: Blocks, c: Canon, path: Heights, top: nat, was: Heights, last: nat, u: nat, j: nat)
    requires top == j + 1 && Scene(blocks, path, top, was, last) && Clearing(blocks, c, path, top, was, u)
    requires u in c.heights
    ensures u in was && c.heights[u] == was[u]
    ensures var rest := Rest(u, {c.heights[u]});
      Remains(blocks, top, rest) && Overwriting(blocks, c, path, was, j, rest)
  {
    TornIsOverwritten(blocks, c, path, top, was, last, u, j);
    OverwriteNext(blocks, c, path, top, was, last, j, Rest(u, {c.heights[u]}));
  }

  lemma TornIsOverwritten(blocks: Blocks, c: Canon, path: Heights, top: nat, was: Heights, last: nat, u: nat, j: nat)
    requires top == j + 1 && Scene(blocks, path, top, was, last) && Clearing(blocks, c, path, top, was, u)
    requires u in c.heights
    ensures u in was && c.heights[u] == was[u]
    ensures var rest := Rest(u, {c.heights[u]});
      Remains(blocks, top, rest) && Overwritten(blocks, c, path, was, j + 1, rest)
  {
    assert Unfolded(c, 0);
    assert Top(path, top) == {path[top]};
  }

  /** Always true: opens Canonical and Extendable. */
  ghost predicate Rooted(genesis: BlockHash, k: nat) {
    true
  }

  /** The walk has been recorded down to height `j`. */
  ghost predicate WalkAt(blocks: Blocks, c: Canon, stale: BlockHash, path: Heights, top: nat, was: Heights, rest: Rest,
                         j: nat) {
    forall k: nat {:trigger Seen(path, k)} :: Seen(path, k) ==>
      j < top && j in path && stale == path[j] && Overwriting(blocks, c, path, was, j, rest)
  }

  /** The block of the old branch at `j` while the walk stands above it. */
  lemma WalkAbove(blocks: Blocks, c: Canon, path: Heights, top: nat, was: Heights, last: nat, j: nat, rest: Rest)
    requires Scene(blocks, path, top, was, last) && Overwritten(blocks, c, path, was, j + 1, rest) && j < top
    requires Remains(blocks, top, rest)
    ensures j in c.heights <==> j in was
    ensures j in was ==>
      c.heights[j] == was[j] && was[j] in blocks && blocks[was[j]].height == j &&
      was[j] !in rest.lost && was[j] !in Top(path, j + 1)
    ensures !Missing(blocks, c, j)
  {
    assert Unfolded(c, 0);
    assert Seen(path, 0);
    if j in c.heights {
      ReadyHasDebts(blocks, c, Top(path, j + 1), rest.lost, {}, j);
    }
  }

  /** A crash between the writes of overwriteSingleStaleBlock. */
  lemma WalkGap(blocks: Blocks, c: Canon, path: Heights, top: nat, was: Heights, last: nat, j: nat, rest: Rest)
    requires Scene(blocks, path, top, was, last) && Overwritten(blocks, c, path, was, j + 1, rest) && j < top
    requires Remains(blocks, top, rest) && rest.lost == {} && path[j] in blocks
    ensures Missing(blocks, WithoutOld(blocks, c, j), j) <==> j in was && Uncovered(blocks, was[j], Top(path, j + 1))
    ensures Missing(blocks, Reindexed(WithoutOld(blocks, c, j), blocks[path[j]]), j) <==>
      j in was && Uncovered(blocks, was[j], Top(path, j))
  {
    WalkAbove(blocks, c, path, top, was, last, j, rest);
    if j in was {
      assert Ready(blocks, c, Top(path, j + 1), {}, {}) by {
        assert Unfolded(c, 0);
      }
      DeleteAgainFails(blocks, c, Top(path, j + 1), j);
      AddedCovers(blocks, c, Top(path, j + 1), j, path[j]);
      TopSound(blocks, path, top, was, last, j);
    }
  }

  /** The writes that follow onPutBlockEnd; no two of them are the same in one reorganisation. */
  datatype Write =
    | SaveLarger(height: nat)
    | DropIndices(height: nat)
    | DropHash(height: nat)
    | SaveStale(hash: BlockHash)
    | AddIndices(height: nat)
    | PutHash(height: nat)

  /**
    A machine that stops before `w` loses the entry of a debt: the indices of a leaving block have just been deleted,
    and none of the blocks of the new branch that are in place holds that debt.
   */
  ghost predicate Loses(blocks: Blocks, path: Heights, top: nat, was: Heights, w: Write) {
    match w
    case DropHash(u) => u > top && top in path && u in was && Uncovered(blocks, was[u], {path[top]})
    case AddIndices(j) => Replaced(path, top, was, j) && Uncovered(blocks, was[j], Top(path, j + 1))
    case PutHash(j) => Replaced(path, top, was, j) && Uncovered(blocks, was[j], Top(path, j))
    case _ => false
  }

  /** The old block at `j` below the new head gives way to another one. */
  ghost predicate Replaced(path: Heights, top: nat, was: Heights, j: nat) {
    j < top && j in path && j in was && path[j] != was[j]
  }

  /**
    Every debt of an old block that leaves, away from the height of the new head, is in a block of the new branch that
    is in place by then.
   */
  ghost predicate Covered(blocks: Blocks, path: Heights, top: nat, was: Heights) {
    && (forall u :: u in was && u > top && top in path ==> !Uncovered(blocks, was[u], {path[top]}))
    && (forall j: nat :: Replaced(path, top, was, j) ==> !Uncovered(blocks, was[j], Top(path, j + 1)))
  }

  /** No stop loses a debt exactly when all debts of the leaving blocks are covered. */
  lemma CoveredIffNoneLoses(blocks: Blocks, path: Heights, top: nat, was: Heights)
    ensures Covered(blocks, path, top, was) <==> forall w :: !Loses(blocks, path, top, was, w)
  {
    if Covered(blocks, path, top, was) {
      forall w ensures !Loses(blocks, path, top, was, w) {
        assert w.PutHash? ==> Top(path, w.height + 1) <= Top(path, w.height);
      }
    }
    if forall w :: !Loses(blocks, path, top, was, w) {
      forall u | u in was && u > top && top in path ensures !Uncovered(blocks, was[u], {path[top]}) {
        assert !Loses(blocks, path, top, was, DropHash(u));
      }
      forall j: nat | Replaced(path, top, was, j) ensures !Uncovered(blocks, was[j], Top(path, j + 1)) {
        assert !Loses(blocks, path, top, was, AddIndices(j));
      }
    }
  }

  /** Leaving blocks without debts are covered. */
  lemma NoDebtsCovered(blocks: Blocks, path: Heights, top: nat, was: Heights)
    requires Spans(path, top)
    requires forall k :: k in was && k != top && !(k in path && path[k] == was[k]) && was[k] in blocks ==>
      blocks[was[k]].debts == []
    ensures Covered(blocks, path, top, was)
  {
  }

  /** Overwriting height `j` fails, because the indices of the block that is still there have been deleted before. */
  ghost predicate Stuck(blocks: Blocks, c: Canon, path: Heights, j: nat) {
    j in path && Stale(c, path, j) && Missing(blocks, c, j)
  }

  /** The branches meet at height `at`, or it is the bottom. */
  ghost predicate Meets(path: Heights, was: Heights, at: nat) {
    at == 0 || (at in path && at in was && path[at] == was[at])
  }

  /** Always true: opens what is stated about a walk above `rest`. */
  ghost predicate Stood(rest: Rest, k: nat) {
    true
  }

  /** The height of a write; none is saved with a hash. */
  function HeightOf(w: Write): nat {
    if w.SaveStale? then 0 else w.height
  }

  /** The block of the old branch at `k` is still in place. */
  ghost predicate Keeps(c: Canon, was: Heights, k: nat) {
    k in was && k in c.heights && c.heights[k] == was[k]
  }

  datatype Outcome = Yes | No | Failed | Crashed
}
