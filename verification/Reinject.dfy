/** The objects that go back to a pool when the canonical chain switches branches (core/object_pool.go). */
module Reinject {
  import opened ChainIndex
  import opened Chain
  import opened Forks

  /** `at` is on the branch of `h`, and `seen` are the objects above it. */
  ghost predicate Walked(blocks: Blocks, genesis: BlockHash, objects: Block -> seq<ItemHash>, h: BlockHash,
                         at: BlockHash, seen: set<ItemHash>)
    requires Tree(blocks, genesis) && h in blocks
  {
    && at in blocks && blocks[at].height <= blocks[h].height && at == Ancestor(blocks, genesis, h, blocks[at].height)
    && forall x :: x in seen <==> HeldAbove(blocks, genesis, objects, h, blocks[at].height, x)
  }

  /** One block further down. */
  lemma WalkStep(blocks: Blocks, genesis: BlockHash, objects: Block -> seq<ItemHash>, h: BlockHash, at: BlockHash,
                 seen: set<ItemHash>)
    requires Tree(blocks, genesis) && h in blocks && Walked(blocks, genesis, objects, h, at, seen)
    requires blocks[at].height > 0
    ensures Walked(blocks, genesis, objects, h, blocks[at].prev, seen + (set x | x in objects(blocks[at])))
  {
    var k := blocks[at].height;
    ParentOf(blocks, genesis, h, k);
    forall x ensures (x in seen || x in objects(blocks[at])) <==> HeldAbove(blocks, genesis, objects, h, k - 1, x) {
      assert x in objects(blocks[at]) <==> HeldAt(blocks, genesis, objects, h, k, x);
      if HeldAbove(blocks, genesis, objects, h, k, x) {
        var j: nat :| k < j && HeldAt(blocks, genesis, objects, h, j, x);
        assert k - 1 < j;
      }
      if HeldAbove(blocks, genesis, objects, h, k - 1, x) {
        var j: nat :| k - 1 < j && HeldAt(blocks, genesis, objects, h, j, x);
        assert j == k || k < j;
      }
    }
  }

  /** Above equal or different heights, where the two walks stand decides where the branches meet. */
  ghost predicate SameMeeting(blocks: Blocks, genesis: BlockHash, a: BlockHash, b: BlockHash, x: BlockHash,
                              y: BlockHash)
    requires Tree(blocks, genesis) && a in blocks && b in blocks && x in blocks && y in blocks
  {
    forall k: nat :: Shared(blocks, genesis, a, b, k) <==> Shared(blocks, genesis, x, y, k)
  }

  /** `items` are the objects that the old branch holds above height `top` and the new one does not. */
  ghost predicate LeftBehind(blocks: Blocks, genesis: BlockHash, objects: Block -> seq<ItemHash>, newHeader: BlockHash,
                             lastHeader: BlockHash, top: nat, items: set<ItemHash>)
    requires Tree(blocks, genesis) && newHeader in blocks && lastHeader in blocks
  {
    forall x :: x in items <==>
      HeldAbove(blocks, genesis, objects, lastHeader, top, x) && !HeldAbove(blocks, genesis, objects, newHeader, top, x)
  }

  /**
    getReinjectObject: exactly the objects of the old branch, down to the common ancestor, that the new one does not
    hold.
   */
  method GetReinjectObject(blocks: Blocks, ghost genesis: BlockHash, objects: Block -> seq<ItemHash>,
                           newHeader: BlockHash, lastHeader: BlockHash)
    returns (reinject: set<ItemHash>)
    requires Tree(blocks, genesis) && newHeader in blocks && lastHeader in blocks
    ensures exists top: nat ::
      MeetAt(blocks, genesis, newHeader, lastHeader, top) &&
      LeftBehind(blocks, genesis, objects, newHeader, lastHeader, top, reinject)
  {
    var newBlock, lastBlock := newHeader, lastHeader;
    if blocks[newHeader].prev == lastHeader {
      assert Placed(blocks, genesis, newHeader);
      StepDown(blocks, genesis, newHeader, lastHeader);
      assert MeetAt(blocks, genesis, newHeader, lastHeader, blocks[lastHeader].height);
      assert LeftBehind(blocks, genesis, objects, newHeader, lastHeader, blocks[lastHeader].height, {});
      return {};
    }
    var toDeleted, toAdded := {}, {};
    while blocks[newBlock].height > blocks[lastBlock].height
      invariant Walked(blocks, genesis, objects, newHeader, newBlock, toDeleted)
      invariant SameMeeting(blocks, genesis, newHeader, lastHeader, newBlock, lastBlock)
      decreases blocks[newBlock].height
    {
      WalkStep(blocks, genesis, objects, newHeader, newBlock, toDeleted);
      StepDown(blocks, genesis, newBlock, lastBlock);
      toDeleted := toDeleted + (set x | x in objects(blocks[newBlock]));
      newBlock := blocks[newBlock].prev;
    }
    while blocks[lastBlock].height > blocks[newBlock].height
      invariant Walked(blocks, genesis, objects, lastHeader, lastBlock, toAdded)
      invariant blocks[newBlock].height <= blocks[lastBlock].height
      invariant SameMeeting(blocks, genesis, newHeader, lastHeader, newBlock, lastBlock)
      decreases blocks[lastBlock].height
    {
      WalkStep(blocks, genesis, objects, lastHeader, lastBlock, toAdded);
      StepDown(blocks, genesis, lastBlock, newBlock);
      SharedSymmetric(blocks, genesis, lastBlock, newBlock);
      SharedSymmetric(blocks, genesis, blocks[lastBlock].prev, newBlock);
      toAdded := toAdded + (set x | x in objects(blocks[lastBlock]));
      lastBlock := blocks[lastBlock].prev;
    }
    while lastBlock != newBlock
      invariant Walked(blocks, genesis, objects, newHeader, newBlock, toDeleted)
      invariant Walked(blocks, genesis, objects, lastHeader, lastBlock, toAdded)
      invariant blocks[lastBlock].height == blocks[newBlock].height
      invariant SameMeeting(blocks, genesis, newHeader, lastHeader, newBlock, lastBlock)
      decreases blocks[lastBlock].height
    {
      StepDown(blocks, genesis, newBlock, lastBlock);
      var nextNew := blocks[newBlock].prev;
      StepDown(blocks, genesis, lastBlock, nextNew);
      SharedSymmetric(blocks, genesis, lastBlock, nextNew);
      SharedSymmetric(blocks, genesis, blocks[lastBlock].prev, nextNew);
      WalkStep(blocks, genesis, objects, lastHeader, lastBlock, toAdded);
      WalkStep(blocks, genesis, objects, newHeader, newBlock, toDeleted);
      toAdded := toAdded + (set x | x in objects(blocks[lastBlock]));
      toDeleted := toDeleted + (set x | x in objects(blocks[newBlock]));
      lastBlock, newBlock := blocks[lastBlock].prev, nextNew;
    }
    reinject := toAdded - toDeleted;
    assert MeetAt(blocks, genesis, newHeader, lastHeader, blocks[lastBlock].height);
    assert LeftBehind(blocks, genesis, objects, newHeader, lastHeader, blocks[lastBlock].height, reinject);
  }
}
