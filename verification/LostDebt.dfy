/** A crash after which recovery leaves a block of the old branch in place. */
module LostDebt {
  import opened ChainIndex
  import opened Chain
  import opened CanonicalChain
  import opened Recovery
  import opened Reorg
  import SecondCrash

  const GENESIS := Block(1, 0, EMPTY_HASH, [], [])
  const FIRST := Block(2, 1, 1, [], [])
  const SECOND := Block(3, 2, 2, [], [7])

  /** A block at height 1 that becomes the head instead of SECOND at height 2. */
  const RIVAL := Block(4, 1, 1, [], [])

  const BLOCKS: Blocks := map[1 := GENESIS, 2 := FIRST, 3 := SECOND]
  const OLD_PATH: Heights := map[0 := 1, 1 := 2, 2 := 3]
  const NEW_PATH: Heights := map[0 := 1, 1 := 4]
  const CANON := Canon(OLD_PATH, map[], map[7 := Place(3, 0)])

  lemma OldTree()
    ensures Tree(BLOCKS, 1) && Fits(BLOCKS, 1, RIVAL)
  {
    assert Placed(BLOCKS, 1, 1) && Placed(BLOCKS, 1, 2) && Placed(BLOCKS, 1, 3);
  }

  lemma OldBranch()
    ensures Tree(BLOCKS, 1) && Path(BLOCKS, 1, 3) == OLD_PATH
  {
    OldTree();
    assert Ancestor(BLOCKS, 1, 3, 2) == 3;
    assert Ancestor(BLOCKS, 1, 2, 1) == 2 && Ancestor(BLOCKS, 1, 3, 1) == 2;
    assert Ancestor(BLOCKS, 1, 1, 0) == 1 && Ancestor(BLOCKS, 1, 2, 0) == 1 && Ancestor(BLOCKS, 1, 3, 0) == 1;
  }

  lemma NewBranch()
    ensures Tree(BLOCKS[4 := RIVAL], 1) && Path(BLOCKS[4 := RIVAL], 1, 4) == NEW_PATH
  {
    OldTree();
    FitsTree(BLOCKS, 1, RIVAL);
    var more := BLOCKS[4 := RIVAL];
    assert Ancestor(more, 1, 4, 1) == 4;
    assert Ancestor(more, 1, 1, 0) == 1 && Ancestor(more, 1, 4, 0) == 1;
  }

  lemma OldSettled()
    ensures Settled(BLOCKS, CANON, OLD_PATH)
  {
    assert OLD_PATH[0] == 1 && OLD_PATH[1] == 2 && OLD_PATH[2] == 3;
    assert OLD_PATH.Values == {1, 2, 3};
    assert Exact(TxLists(BLOCKS), CANON.txIndex, OLD_PATH.Values);
    assert Holds(DebtLists(BLOCKS), Place(3, 0), 7);
    assert Exact(DebtLists(BLOCKS), CANON.debtIndex, OLD_PATH.Values);
  }

  /** The stop loses the entry of the debt 7: it has been deleted, and no block of the new branch holds it. */
  lemma StopLoses()
    ensures Loses(BLOCKS[4 := RIVAL], NEW_PATH, 1, OLD_PATH, DropHash(2))
  {
    var more := BLOCKS[4 := RIVAL];
    assert OLD_PATH[2] == 3 && NEW_PATH[1] == 4 && more[3] == SECOND && more[4] == RIVAL;
    assert 7 in more[3].debts && 7 !in more[4].debts;
    assert Uncovered(more, 3, {4});
  }

  /**
    RIVAL is written to this store, and the machine stops after the debt of SECOND has lost its entry and before SECOND
    has left the height map. After recovery SECOND is still there, above the new head.
   */
  method StaysAfterRecovery(s: Store)
    requires s.blocks == BLOCKS && s.canon == CANON && s.head == 3
    modifies s
    ensures s.blocks == BLOCKS[4 := RIVAL] && s.head == 4 && !s.Canonical(1)
    ensures 2 in s.canon.heights && s.canon.heights[2] == 3
  {
    OldBranch();
    OldSettled();
    OldTree();
    NewBranch();
    StopLoses();
    ghost var path := s.CrashAndRecover(RIVAL, DropHash(2), 1);
    assert Seen(path, 0);
  }

  /**
    RIVAL is written, the machine stops before it has deleted anything of SECOND, and recovery stops after it has
    deleted the entry of the debt and before SECOND has left the height map. The next recovery leaves SECOND there.
   */
  method StaysAfterSecond(s: Store)
    requires s.blocks == BLOCKS && s.canon == CANON && s.head == 3
    modifies s
    ensures s.blocks == BLOCKS[4 := RIVAL] && s.head == 4 && !s.Canonical(1)
    ensures 2 in s.canon.heights && s.canon.heights[2] == 3
  {
    OldBranch();
    OldSettled();
    OldTree();
    NewBranch();
    StopLoses();
    ghost var path := SecondCrash.StopTwice(s, RIVAL, DropHash(2), 1);
    assert Seen(path, 0);
  }
}
