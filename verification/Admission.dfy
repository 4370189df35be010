/** A block that arrives: its debts are checked, and it is stored as the head or beside it (core/blockchain.go). */
module Admission {
  import opened Common
  import opened ChainIndex
  import opened Chain
  import opened Forks
  import opened CanonicalChain
  import opened Reorg
  import L = Leaves

  /** No two blocks of the branch of `b` hold the same transaction. */
  ghost predicate TxsOnce(blocks: Blocks, genesis: BlockHash, b: Block)
    requires Arrives(blocks, genesis, b)
  {
    ArrivesTree(blocks, genesis, b);
    NoRepeats(TxLists(blocks[b.hash := b]), Path(blocks[b.hash := b], genesis, b.hash).Values)
  }

  /** Always true: opens AllAdmitted. */
  ghost predicate Checked(genesis: BlockHash, k: nat) {
    true
  }

  /** The head choice knows the stored blocks and their heights. */
  ghost predicate Known(totals: L.Indices, blocks: Blocks) {
    totals.Keys == blocks.Keys && forall h :: h in blocks ==> totals[h].height == blocks[h].height
  }

  /** The head is the best of the stored blocks. */
  ghost predicate Chosen(hc: L.HeadChoice, blocks: Blocks, head: BlockHash)
    reads hc, hc.leaves, hc.leaves.best, hc.leaves.worst
  {
    forall k: nat {:trigger Opened(hc, k)} :: Opened(hc, k) ==>
      hc.Valid() && hc.head == head && Known(hc.totals, blocks)
  }

  /** The index of a block on top of its parent. */
  function IndexOf(totals: L.Indices, b: Block, difficulty: int): L.BlockIndex
    requires b.prev in totals
  {
    L.BlockIndex(b.height, totals[b.prev].td + difficulty)
  }

  predicate BetterThanAll(index: L.BlockIndex, totals: L.Indices) {
    forall w :: w in totals ==> L.Better(index, totals[w])
  }

  /** The head choice of doWriteBlock; a block that comes again is not a head. */
  method Choose(hc: L.HeadChoice, b: Block, difficulty: int, ghost blocks: Blocks, ghost head: BlockHash)
    returns (isHead: bool)
    requires Chosen(hc, blocks, head) && b.prev in blocks && b.prev in hc.totals
    requires blocks[b.prev].height + 1 == b.height && difficulty >= 1
    requires b.hash in hc.totals ==> hc.totals[b.hash] == IndexOf(hc.totals, b, difficulty)
    modifies hc, hc.leaves, hc.leaves.best, hc.leaves.worst
    ensures Chosen(hc, blocks[b.hash := b], if isHead then b.hash else head)
    ensures hc.totals == old(hc.totals)[b.hash := IndexOf(old(hc.totals), b, difficulty)]
    ensures isHead <==> BetterThanAll(IndexOf(old(hc.totals), b, difficulty), old(hc.totals))
    ensures isHead ==> b.hash !in blocks
  {
    assert Opened(hc, 0);
    isHead := hc.Write(b.hash, b.prev, difficulty);
  }

  /** The canonical chain is that of the best block written, and every stored block has been accepted. */
  ghost predicate Consistent(s: Store, hc: L.HeadChoice, genesis: BlockHash)
    reads s, hc, hc.leaves, hc.leaves.best, hc.leaves.worst
  {
    && s.stop.None? && s.Canonical(genesis) && Chosen(hc, s.blocks, s.head)
    && AllAdmitted(s.blocks, genesis)
  }

  ghost predicate AllAdmitted(blocks: Blocks, genesis: BlockHash) {
    forall k: nat {:trigger Checked(genesis, k)} :: Checked(genesis, k) ==> Admitted(blocks, genesis)
  }

  /** With its debts accepted, a new block can be the next head. */
  lemma AcceptedExtendable(s: Store, genesis: BlockHash, b: Block)
    requires Admitted(s.blocks, genesis) && Fits(s.blocks, genesis, b) && NewDebts(s.blocks, genesis, b)
    requires TxsOnce(s.blocks, genesis, b)
    ensures s.Extendable(genesis, b) && Admitted(s.blocks[b.hash := b], genesis)
  {
    AdmitStep(s.blocks, genesis, b);
    OneBlockPerDebt(s.blocks[b.hash := b], genesis, b.hash);
  }

  lemma DebtsAreIndexed(s: Store, genesis: BlockHash)
    requires s.Canonical(genesis)
    ensures Tree(s.blocks, genesis) && s.head in s.blocks && DebtsIndexed(s.blocks, genesis, s.head, s.canon.debtIndex)
  {
    assert Rooted(genesis, 0) && Unfolded(s.canon, 0);
  }

  /** The debt check of doWriteBlock. */
  method Examine(s: Store, b: Block, ghost genesis: BlockHash) returns (ok: bool)
    requires s.Canonical(genesis) && Tree(s.blocks, genesis) && b.prev in s.blocks
    ensures ok <==> NewDebts(s.blocks, genesis, b)
  {
    DebtsAreIndexed(s, genesis);
    ok := AcceptDebts(s.blocks, genesis, s.head, s.canon.debtIndex, b);
  }

  /** The store part: a block that comes again is not a head. */
  method Keep(s: Store, b: Block, isHead: bool, ghost genesis: BlockHash)
    requires s.stop.None? && s.Canonical(genesis) && AllAdmitted(s.blocks, genesis)
    requires Arrives(s.blocks, genesis, b) && TxsOnce(s.blocks, genesis, b) && b.prev in s.blocks
    requires NewDebts(s.blocks, genesis, b)
    requires isHead ==> b.hash !in s.blocks
    modifies s
    ensures s.stop.None? && s.Canonical(genesis) && AllAdmitted(s.blocks, genesis)
    ensures s.blocks == old(s.blocks)[b.hash := b] && s.head == if isHead then b.hash else old(s.head)
  {
    assert Checked(genesis, 0);
    ArrivesTree(s.blocks, genesis, b);
    if b.hash !in s.blocks {
      AcceptedExtendable(s, genesis, b);
    }
    if isHead {
      s.WriteHead(b, genesis);
    } else {
      s.WriteSide(b, genesis);
    }
  }

  /**
    doWriteBlock as far as debts, the head and the canonical chain go: a block is stored exactly when no debt of it is
    on the branch of its parent, it becomes the head exactly when it is better than every block before, and then the
    canonical chain is again that of the best block written, with exact indices.
   */
  method AdmitBlock(s: Store, hc: L.HeadChoice, b: Block, difficulty: int, ghost genesis: BlockHash) returns (ok: bool)
    requires Consistent(s, hc, genesis) && Arrives(s.blocks, genesis, b) && TxsOnce(s.blocks, genesis, b)
    requires b.prev in s.blocks
    requires difficulty >= 1 && b.prev in hc.totals
    requires b.hash in hc.totals ==> hc.totals[b.hash] == IndexOf(hc.totals, b, difficulty)
    modifies s, hc, hc.leaves, hc.leaves.best, hc.leaves.worst
    ensures Consistent(s, hc, genesis)
    ensures ok <==> old(NewDebts(s.blocks, genesis, b))
    ensures s.blocks == if ok then old(s.blocks)[b.hash := b] else old(s.blocks)
    ensures hc.totals == if ok then old(hc.totals)[b.hash := IndexOf(old(hc.totals), b, difficulty)] else old(hc.totals)
    ensures s.head ==
      if ok && BetterThanAll(IndexOf(old(hc.totals), b, difficulty), old(hc.totals)) then b.hash else old(s.head)
  {
    ArrivesTree(s.blocks, genesis, b);
    ok := Examine(s, b, genesis);
    if ok {
      var isHead := Choose(hc, b, difficulty, s.blocks, s.head);
      Keep(s, b, isHead, genesis);
    }
  }

  /**
    In every store that blocks have entered so, the canonical chain is that of the best block, no two blocks of a branch
    hold the same debt, and a branch applies every debt once if and only if no block of it repeats one in its own list.
   */
  lemma ConsistentOnce(s: Store, hc: L.HeadChoice, genesis: BlockHash, h: BlockHash)
    requires Consistent(s, hc, genesis) && h in s.blocks
    ensures Tree(s.blocks, genesis) && L.IsBest(hc.totals, s.head)
    ensures NoRepeats(DebtLists(s.blocks), Path(s.blocks, genesis, h).Values)
    ensures AppliedOnce(s.blocks, genesis, h) <==> OwnListsDistinct(s.blocks, genesis, h)
  {
    assert Checked(genesis, 0) && Opened(hc, 0);
    OneBlockPerDebt(s.blocks, genesis, h);
    DebtOncePerBranch(s.blocks, genesis, h);
  }
}
