/** The tree of stored blocks and the branches in it. */
module Chain {
  import opened ChainIndex

  datatype Block = Block(hash: BlockHash, height: nat, prev: BlockHash, txs: seq<ItemHash>, debts: seq<ItemHash>)

  type Blocks = map<BlockHash, Block>

  const EMPTY_HASH: BlockHash := 0

  /** Blocks are stored under their hash with all their ancestors, down to the one genesis block. */
  ghost predicate Tree(blocks: Blocks, genesis: BlockHash) {
    && genesis in blocks && EMPTY_HASH !in blocks
    && forall h {:trigger Placed(blocks, genesis, h)} :: h in blocks ==> Placed(blocks, genesis, h)
  }

  ghost predicate Placed(blocks: Blocks, genesis: BlockHash, h: BlockHash)
    requires h in blocks
  {
    var b := blocks[h];
    b.hash == h &&
    if b.height == 0 then h == genesis && b.prev == EMPTY_HASH
    else b.prev in blocks && blocks[b.prev].height == b.height - 1
  }

  /** `b` can be stored on top of the blocks there are. */
  ghost predicate Fits(blocks: Blocks, genesis: BlockHash, b: Block) {
    && Tree(blocks, genesis) && b.hash !in blocks && b.hash != EMPTY_HASH
    && b.height > 0 && b.prev in blocks && blocks[b.prev].height == b.height - 1
  }

  lemma FitsTree(blocks: Blocks, genesis: BlockHash, b: Block)
    requires Fits(blocks, genesis, b)
    ensures Tree(blocks[b.hash := b], genesis)
  {
    var more := blocks[b.hash := b];
    forall h | h in more ensures Placed(more, genesis, h) {
      if h != b.hash {
        assert Placed(blocks, genesis, h);
      }
    }
  }

  /** `b` can be stored, or is stored already and comes again. */
  ghost predicate Arrives(blocks: Blocks, genesis: BlockHash, b: Block) {
    Fits(blocks, genesis, b) || (Tree(blocks, genesis) && b.height > 0 && b.hash in blocks && blocks[b.hash] == b)
  }

  lemma ArrivesTree(blocks: Blocks, genesis: BlockHash, b: Block)
    requires Arrives(blocks, genesis, b)
    ensures Tree(blocks[b.hash := b], genesis) && b.height > 0 && b.prev in blocks
    ensures blocks[b.prev].height == b.height - 1
    ensures b.hash in blocks ==> blocks[b.hash := b] == blocks
  {
    if b.hash in blocks {
      assert Placed(blocks, genesis, b.hash);
      assert blocks[b.hash := b] == blocks;
    } else {
      FitsTree(blocks, genesis, b);
    }
  }

  /** The ancestor of `h` at height `k`. */
  ghost function Ancestor(blocks: Blocks, genesis: BlockHash, h: BlockHash, k: nat): (a: BlockHash)
    requires Tree(blocks, genesis) && h in blocks && k <= blocks[h].height
    ensures a in blocks && blocks[a].height == k
    decreases blocks[h].height
  {
    assert Placed(blocks, genesis, h);
    if blocks[h].height == k then h else Ancestor(blocks, genesis, blocks[h].prev, k)
  }

  /** An ancestor of an ancestor. */
  lemma {:induction false} AncestorTwice(blocks: Blocks, genesis: BlockHash, h: BlockHash, k: nat, j: nat)
    requires Tree(blocks, genesis) && h in blocks && j <= k <= blocks[h].height
    ensures Ancestor(blocks, genesis, Ancestor(blocks, genesis, h, k), j) == Ancestor(blocks, genesis, h, j)
    decreases blocks[h].height
  {
    assert Placed(blocks, genesis, h);
    if blocks[h].height != k {
      AncestorTwice(blocks, genesis, blocks[h].prev, k, j);
    }
  }

  /** The parent of the ancestor at `k` is the one at `k - 1`. */
  lemma ParentOf(blocks: Blocks, genesis: BlockHash, h: BlockHash, k: nat)
    requires Tree(blocks, genesis) && h in blocks && 0 < k <= blocks[h].height
    ensures blocks[Ancestor(blocks, genesis, h, k)].prev == Ancestor(blocks, genesis, h, k - 1)
  {
    var a := Ancestor(blocks, genesis, h, k);
    assert Placed(blocks, genesis, a);
    AncestorTwice(blocks, genesis, h, k, k - 1);
    assert Ancestor(blocks, genesis, a, k - 1) == blocks[a].prev;
  }

  /** Storing one more block does not change any branch. */
  lemma {:induction false} AncestorKept(blocks: Blocks, blocks': Blocks, genesis: BlockHash, h: BlockHash, k: nat)
    requires Tree(blocks, genesis) && Tree(blocks', genesis) && h in blocks && k <= blocks[h].height
    requires forall b :: b in blocks ==> b in blocks' && blocks'[b] == blocks[b]
    ensures Ancestor(blocks', genesis, h, k) == Ancestor(blocks, genesis, h, k)
    decreases blocks[h].height
  {
    assert Placed(blocks, genesis, h);
    if blocks[h].height != k {
      AncestorKept(blocks, blocks', genesis, blocks[h].prev, k);
    }
  }

  /** The branch that ends in `h`: its block at every height. */
  ghost function Path(blocks: Blocks, genesis: BlockHash, h: BlockHash): map<nat, BlockHash>
    requires Tree(blocks, genesis) && h in blocks
  {
    map k: nat | k <= blocks[h].height :: Ancestor(blocks, genesis, h, k)
  }

  lemma PathKept(blocks: Blocks, blocks': Blocks, genesis: BlockHash, h: BlockHash)
    requires Tree(blocks, genesis) && Tree(blocks', genesis) && h in blocks
    requires forall b :: b in blocks ==> b in blocks' && blocks'[b] == blocks[b]
    ensures Path(blocks', genesis, h) == Path(blocks, genesis, h)
  {
    forall k: nat | k <= blocks[h].height ensures Ancestor(blocks', genesis, h, k) == Ancestor(blocks, genesis, h, k) {
      AncestorKept(blocks, blocks', genesis, h, k);
    }
  }

  function TxLists(blocks: Blocks): Lists {
    map h | h in blocks :: blocks[h].txs
  }

  function DebtLists(blocks: Blocks): Lists {
    map h | h in blocks :: blocks[h].debts
  }

  /** No transaction and no debt twice on the branch that ends in `h`. */
  ghost predicate Sound(blocks: Blocks, genesis: BlockHash, h: BlockHash)
    requires Tree(blocks, genesis) && h in blocks
  {
    var branch := Path(blocks, genesis, h).Values;
    NoRepeats(TxLists(blocks), branch) && NoRepeats(DebtLists(blocks), branch)
  }
}
