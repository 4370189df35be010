/** Where branches meet, and which debts a branch already holds (core/blockchain.go). */
module Forks {
  import opened ChainIndex
  import opened Chain

  /** The branches of `a` and `b` have the same block at height `k`. */
  ghost predicate Shared(blocks: Blocks, genesis: BlockHash, a: BlockHash, b: BlockHash, k: nat)
    requires Tree(blocks, genesis) && a in blocks && b in blocks
  {
    k <= blocks[a].height && k <= blocks[b].height && Ancestor(blocks, genesis, a, k) == Ancestor(blocks, genesis, b, k)
  }

  /** `top` is the height of the lowest common ancestor: the branches agree up to it and nowhere above. */
  ghost predicate MeetAt(blocks: Blocks, genesis: BlockHash, a: BlockHash, b: BlockHash, top: nat)
    requires Tree(blocks, genesis) && a in blocks && b in blocks
  {
    forall k: nat :: Shared(blocks, genesis, a, b, k) <==> k <= top
  }

  /** The higher of two different blocks can be replaced by its parent. */
  lemma StepDown(blocks: Blocks, genesis: BlockHash, a: BlockHash, b: BlockHash)
    requires Tree(blocks, genesis) && a in blocks && b in blocks && a != b && blocks[a].height >= blocks[b].height
    ensures blocks[a].height > 0 && blocks[a].prev in blocks && blocks[blocks[a].prev].height == blocks[a].height - 1
    ensures forall k: nat :: Shared(blocks, genesis, a, b, k) <==> Shared(blocks, genesis, blocks[a].prev, b, k)
  {
    assert Placed(blocks, genesis, a) && Placed(blocks, genesis, b);
    forall k: nat ensures Shared(blocks, genesis, a, b, k) <==> Shared(blocks, genesis, blocks[a].prev, b, k) {
      if k == blocks[a].height {
        assert Ancestor(blocks, genesis, a, k) == a;
      }
    }
  }

  lemma SharedSymmetric(blocks: Blocks, genesis: BlockHash, a: BlockHash, b: BlockHash)
    requires Tree(blocks, genesis) && a in blocks && b in blocks
    ensures forall k: nat :: Shared(blocks, genesis, a, b, k) <==> Shared(blocks, genesis, b, a, k)
  {
  }

  /** FindCommonForkAncestor */
  method FindCommonForkAncestor(blocks: Blocks, ghost genesis: BlockHash, fork: BlockHash, canonical: BlockHash)
    returns (height: nat)
    requires Tree(blocks, genesis) && fork in blocks && canonical in blocks
    ensures MeetAt(blocks, genesis, fork, canonical, height)
  {
    var forkHash, canonHash := fork, canonical;
    while forkHash != canonHash
      invariant forkHash in blocks && canonHash in blocks
      invariant forall k: nat :: Shared(blocks, genesis, fork, canonical, k) <==>
        Shared(blocks, genesis, forkHash, canonHash, k)
      decreases blocks[forkHash].height + blocks[canonHash].height
    {
      if blocks[forkHash].height >= blocks[canonHash].height {
        StepDown(blocks, genesis, forkHash, canonHash);
        forkHash := blocks[forkHash].prev;
      } else {
        StepDown(blocks, genesis, canonHash, forkHash);
        SharedSymmetric(blocks, genesis, canonHash, forkHash);
        SharedSymmetric(blocks, genesis, blocks[canonHash].prev, forkHash);
        canonHash := blocks[canonHash].prev;
      }
    }
    height := blocks[forkHash].height;
  }

  /** The block at height `k` of the branch of `h` holds `x` among its `items`. */
  ghost predicate HeldAt(blocks: Blocks, genesis: BlockHash, items: Block -> seq<ItemHash>, h: BlockHash, k: nat,
                         x: ItemHash)
    requires Tree(blocks, genesis) && h in blocks
  {
    k <= blocks[h].height && x in items(blocks[Ancestor(blocks, genesis, h, k)])
  }

  /** A block of the branch of `h` above height `low` holds `x` among its `items`. */
  ghost predicate HeldAbove(blocks: Blocks, genesis: BlockHash, items: Block -> seq<ItemHash>, h: BlockHash, low: nat,
                            x: ItemHash)
    requires Tree(blocks, genesis) && h in blocks
  {
    exists k: nat :: low < k && HeldAt(blocks, genesis, items, h, k, x)
  }

  function DebtsOf(b: Block): seq<ItemHash> {
    b.debts
  }

  /** Some block from genesis to `h` holds the debt `d`. */
  ghost predicate OnBranch(blocks: Blocks, genesis: BlockHash, h: BlockHash, d: ItemHash)
    requires Tree(blocks, genesis) && h in blocks
  {
    exists k: nat :: HeldAt(blocks, genesis, DebtsOf, h, k, d)
  }

  /** The canonical debt index, as a reorganisation leaves it. */
  ghost predicate DebtsIndexed(blocks: Blocks, genesis: BlockHash, head: BlockHash, debtIndex: Index)
    requires Tree(blocks, genesis) && head in blocks
  {
    Exact(DebtLists(blocks), debtIndex, Path(blocks, genesis, head).Values)
  }

  /** An indexed debt is in the canonical block that its entry names. */
  lemma IndexedIsHeld(blocks: Blocks, genesis: BlockHash, head: BlockHash, debtIndex: Index, d: ItemHash)
    requires Tree(blocks, genesis) && head in blocks && DebtsIndexed(blocks, genesis, head, debtIndex) && d in debtIndex
    ensures debtIndex[d].block in blocks
    ensures HeldAt(blocks, genesis, DebtsOf, head, blocks[debtIndex[d].block].height, d)
  {
    var path := Path(blocks, genesis, head);
    assert Holds(DebtLists(blocks), debtIndex[d], d);
    var k :| k in path && path[k] == debtIndex[d].block;
    assert blocks[path[k]].height == k;
  }

  /** A debt of a canonical block is indexed there. */
  lemma HeldIsIndexed(blocks: Blocks, genesis: BlockHash, head: BlockHash, debtIndex: Index, d: ItemHash, k: nat)
    requires Tree(blocks, genesis) && head in blocks && DebtsIndexed(blocks, genesis, head, debtIndex)
    requires HeldAt(blocks, genesis, DebtsOf, head, k, d)
    ensures d in debtIndex && debtIndex[d].block in blocks && blocks[debtIndex[d].block].height == k
  {
    var path := Path(blocks, genesis, head);
    var b := Ancestor(blocks, genesis, head, k);
    assert k in path && path[k] == b && b in path.Values;
    assert Holds(DebtLists(blocks), Place(b, LastAt(blocks[b].debts, d)), d);
  }

  /** The search of ApplyDebtWithoutVerify in the fork: blocks above `ancestor`, from `parent` down. */
  method InFork(blocks: Blocks, ghost genesis: BlockHash, parent: BlockHash, ancestor: nat, d: ItemHash)
    returns (found: bool)
    requires Tree(blocks, genesis) && parent in blocks
    ensures found <==> HeldAbove(blocks, genesis, DebtsOf, parent, ancestor, d)
  {
    var hash: BlockHash, height: nat := parent, blocks[parent].height;
    while height > ancestor
      invariant height <= blocks[parent].height
      invariant hash == Ancestor(blocks, genesis, parent, height)
      invariant forall k: nat :: ancestor < k && k > height ==> !HeldAt(blocks, genesis, DebtsOf, parent, k, d)
    {
      if d in blocks[hash].debts {
        assert HeldAt(blocks, genesis, DebtsOf, parent, height, d);
        return true;
      }
      ParentOf(blocks, genesis, parent, height);
      hash := blocks[hash].prev;
      height := height - 1;
    }
    return false;
  }

  /** Up to where they meet, two branches hold the same. */
  lemma SharedHeld(blocks: Blocks, genesis: BlockHash, a: BlockHash, b: BlockHash, top: nat, k: nat, d: ItemHash)
    requires Tree(blocks, genesis) && a in blocks && b in blocks && MeetAt(blocks, genesis, a, b, top) && k <= top
    ensures HeldAt(blocks, genesis, DebtsOf, a, k, d) <==> HeldAt(blocks, genesis, DebtsOf, b, k, d)
  {
    assert Shared(blocks, genesis, a, b, k);
  }

  /** ApplyDebtWithoutVerify finds the debt at or below the ancestor. */
  ghost predicate IndexedBelow(blocks: Blocks, debtIndex: Index, d: ItemHash, ancestor: nat) {
    d in debtIndex && debtIndex[d].block in blocks && blocks[debtIndex[d].block].height <= ancestor
  }

  /** A debt on the branch of the parent is found in one of the two places where ApplyDebtWithoutVerify looks. */
  lemma OnBranchIsFound(blocks: Blocks, genesis: BlockHash, head: BlockHash, debtIndex: Index, parent: BlockHash,
                        ancestor: nat, d: ItemHash)
    requires Tree(blocks, genesis) && head in blocks && parent in blocks
    requires DebtsIndexed(blocks, genesis, head, debtIndex) && MeetAt(blocks, genesis, parent, head, ancestor)
    requires OnBranch(blocks, genesis, parent, d)
    ensures IndexedBelow(blocks, debtIndex, d, ancestor) || HeldAbove(blocks, genesis, DebtsOf, parent, ancestor, d)
  {
    var k: nat :| HeldAt(blocks, genesis, DebtsOf, parent, k, d);
    if k <= ancestor {
      SharedHeld(blocks, genesis, parent, head, ancestor, k, d);
      HeldIsIndexed(blocks, genesis, head, debtIndex, d, k);
    }
  }

  /** What is found in either place is on the branch of the parent. */
  lemma FoundIsOnBranch(blocks: Blocks, genesis: BlockHash, head: BlockHash, debtIndex: Index, parent: BlockHash,
                        ancestor: nat, d: ItemHash)
    requires Tree(blocks, genesis) && head in blocks && parent in blocks
    requires DebtsIndexed(blocks, genesis, head, debtIndex) && MeetAt(blocks, genesis, parent, head, ancestor)
    requires IndexedBelow(blocks, debtIndex, d, ancestor) || HeldAbove(blocks, genesis, DebtsOf, parent, ancestor, d)
    ensures OnBranch(blocks, genesis, parent, d)
  {
    if IndexedBelow(blocks, debtIndex, d, ancestor) {
      IndexedIsHeld(blocks, genesis, head, debtIndex, d);
      SharedHeld(blocks, genesis, parent, head, ancestor, blocks[debtIndex[d].block].height, d);
    } else {
      var k: nat :| ancestor < k && HeldAt(blocks, genesis, DebtsOf, parent, k, d);
    }
  }

  /** ApplyDebtWithoutVerify reports "already packed" exactly when the branch of the parent holds the debt. */
  method AlreadyPacked(blocks: Blocks, ghost genesis: BlockHash, ghost head: BlockHash, debtIndex: Index,
                       parent: BlockHash, ancestor: nat, d: ItemHash) returns (packed: bool)
    requires Tree(blocks, genesis) && head in blocks && parent in blocks
    requires DebtsIndexed(blocks, genesis, head, debtIndex) && MeetAt(blocks, genesis, parent, head, ancestor)
    ensures packed <==> OnBranch(blocks, genesis, parent, d)
  {
    if d in debtIndex {
      IndexedIsHeld(blocks, genesis, head, debtIndex, d);
    }
    packed := d in debtIndex && blocks[debtIndex[d].block].height <= ancestor;
    if !packed {
      packed := InFork(blocks, genesis, parent, ancestor, d);
    }
    if packed {
      FoundIsOnBranch(blocks, genesis, head, debtIndex, parent, ancestor, d);
    } else if OnBranch(blocks, genesis, parent, d) {
      OnBranchIsFound(blocks, genesis, head, debtIndex, parent, ancestor, d);
    }
  }

  /** The debt loop of applyTxs: a block whose parent's branch holds one of its debts is rejected. */
  method AcceptDebts(blocks: Blocks, ghost genesis: BlockHash, head: BlockHash, debtIndex: Index, b: Block)
    returns (ok: bool)
    requires Tree(blocks, genesis) && head in blocks && b.prev in blocks
    requires DebtsIndexed(blocks, genesis, head, debtIndex)
    ensures ok <==> NewDebts(blocks, genesis, b)
  {
    var ancestor := FindCommonForkAncestor(blocks, genesis, b.prev, head);
    for i := 0 to |b.debts|
      invariant forall j :: 0 <= j < i ==> !OnBranch(blocks, genesis, b.prev, b.debts[j])
    {
      var packed := AlreadyPacked(blocks, genesis, head, debtIndex, b.prev, ancestor, b.debts[i]);
      if packed {
        return false;
      }
    }
    return true;
  }

  /** No debt of `b` is on the branch of its parent. */
  ghost predicate NewDebts(blocks: Blocks, genesis: BlockHash, b: Block)
    requires Tree(blocks, genesis) && b.prev in blocks
  {
    forall i :: 0 <= i < |b.debts| ==> !OnBranch(blocks, genesis, b.prev, b.debts[i])
  }

  predicate Distinct(items: seq<ItemHash>) {
    forall i, j :: 0 <= i < j < |items| ==> items[i] != items[j]
  }

  /** Every stored block was accepted: none of its debts was on the branch of its parent. */
  ghost predicate Admitted(blocks: Blocks, genesis: BlockHash) {
    && Tree(blocks, genesis)
    && forall h :: h in blocks && blocks[h].prev in blocks ==> NewDebts(blocks, genesis, blocks[h])
  }

  /** What is on a branch stays as it is when further blocks are stored. */
  lemma OnBranchKept(blocks: Blocks, blocks': Blocks, genesis: BlockHash, h: BlockHash, d: ItemHash)
    requires Tree(blocks, genesis) && Tree(blocks', genesis) && h in blocks
    requires forall b :: b in blocks ==> b in blocks' && blocks'[b] == blocks[b]
    ensures OnBranch(blocks', genesis, h, d) <==> OnBranch(blocks, genesis, h, d)
  {
    forall k: nat ensures HeldAt(blocks', genesis, DebtsOf, h, k, d) <==> HeldAt(blocks, genesis, DebtsOf, h, k, d) {
      if k <= blocks[h].height {
        AncestorKept(blocks, blocks', genesis, h, k);
      }
    }
  }

  lemma NewDebtsKept(blocks: Blocks, blocks': Blocks, genesis: BlockHash, b: Block)
    requires Tree(blocks, genesis) && Tree(blocks', genesis) && b.prev in blocks
    requires forall b :: b in blocks ==> b in blocks' && blocks'[b] == blocks[b]
    ensures NewDebts(blocks', genesis, b) <==> NewDebts(blocks, genesis, b)
  {
    forall d ensures OnBranch(blocks', genesis, b.prev, d) <==> OnBranch(blocks, genesis, b.prev, d) {
      OnBranchKept(blocks, blocks', genesis, b.prev, d);
    }
  }

  /** A block that AcceptDebts lets pass can be stored. */
  lemma AdmitStep(blocks: Blocks, genesis: BlockHash, b: Block)
    requires Admitted(blocks, genesis) && Fits(blocks, genesis, b) && NewDebts(blocks, genesis, b)
    ensures Admitted(blocks[b.hash := b], genesis)
  {
    FitsTree(blocks, genesis, b);
    var more := blocks[b.hash := b];
    forall h | h in more && more[h].prev in more ensures NewDebts(more, genesis, more[h]) {
      assert Placed(more, genesis, h);
      if h != b.hash {
        assert Placed(blocks, genesis, h);
      }
      NewDebtsKept(blocks, more, genesis, more[h]);
    }
  }

  /** The blocks stored after genesis and the blocks `bs`. */
  function StoredAfter(genesis: Block, bs: seq<Block>): Blocks {
    if bs == [] then map[genesis.hash := genesis]
    else StoredAfter(genesis, bs[..|bs| - 1])[bs[|bs| - 1].hash := bs[|bs| - 1]]
  }

  predicate IsGenesis(b: Block) {
    b.height == 0 && b.prev == EMPTY_HASH && b.hash != EMPTY_HASH
  }

  /** Each block in turn fits on those before it and is let pass by AcceptDebts. */
  ghost predicate AllAccepted(genesis: Block, bs: seq<Block>) {
    bs != [] ==>
      var before, b := StoredAfter(genesis, bs[..|bs| - 1]), bs[|bs| - 1];
      AllAccepted(genesis, bs[..|bs| - 1]) && Fits(before, genesis.hash, b) && NewDebts(before, genesis.hash, b)
  }

  lemma {:induction false} AcceptedAdmitted(genesis: Block, bs: seq<Block>)
    requires IsGenesis(genesis) && AllAccepted(genesis, bs)
    ensures Admitted(StoredAfter(genesis, bs), genesis.hash)
  {
    if bs == [] {
      assert Placed(StoredAfter(genesis, []), genesis.hash, genesis.hash);
    } else {
      AcceptedAdmitted(genesis, bs[..|bs| - 1]);
      AdmitStep(StoredAfter(genesis, bs[..|bs| - 1]), genesis.hash, bs[|bs| - 1]);
    }
  }

  /** The block at height `k` of the branch of `h` has the debt `d` at position `i`, and so applies it there. */
  ghost predicate Applies(blocks: Blocks, genesis: BlockHash, h: BlockHash, k: nat, i: nat, d: ItemHash)
    requires Tree(blocks, genesis) && h in blocks
  {
    k <= blocks[h].height &&
    var debts := blocks[Ancestor(blocks, genesis, h, k)].debts;
    i < |debts| && debts[i] == d
  }

  /** Every debt is applied at one height and one position of the branch of `h`. */
  ghost predicate AppliedOnce(blocks: Blocks, genesis: BlockHash, h: BlockHash)
    requires Tree(blocks, genesis) && h in blocks
  {
    forall j: nat, k: nat, i: nat, n: nat, d ::
      Applies(blocks, genesis, h, j, i, d) && Applies(blocks, genesis, h, k, n, d) ==> j == k && i == n
  }

  /** No block of the branch of `h` has a debt twice in its own list. */
  ghost predicate OwnListsDistinct(blocks: Blocks, genesis: BlockHash, h: BlockHash)
    requires Tree(blocks, genesis) && h in blocks
  {
    forall k: nat :: k <= blocks[h].height ==> Distinct(blocks[Ancestor(blocks, genesis, h, k)].debts)
  }

  /**
    Along a branch of accepted blocks each debt is applied once if and only if no block repeats one in its own list.
   */
  lemma DebtOncePerBranch(blocks: Blocks, genesis: BlockHash, h: BlockHash)
    requires Admitted(blocks, genesis) && h in blocks
    ensures AppliedOnce(blocks, genesis, h) <==> OwnListsDistinct(blocks, genesis, h)
  {
    if AppliedOnce(blocks, genesis, h) {
      forall k: nat | k <= blocks[h].height ensures Distinct(blocks[Ancestor(blocks, genesis, h, k)].debts) {
        var debts := blocks[Ancestor(blocks, genesis, h, k)].debts;
        forall i, n | 0 <= i < n < |debts| ensures debts[i] != debts[n] {
          assert Applies(blocks, genesis, h, k, i, debts[i]) && Applies(blocks, genesis, h, k, n, debts[n]);
        }
      }
    }
    if OwnListsDistinct(blocks, genesis, h) {
      forall j: nat, k: nat, i: nat, n: nat, d
        | Applies(blocks, genesis, h, j, i, d) && Applies(blocks, genesis, h, k, n, d)
        ensures j == k && i == n
      {
        OneHeight(blocks, genesis, h, j, k, d);
      }
    }
  }

  lemma OneHeight(blocks: Blocks, genesis: BlockHash, h: BlockHash, j: nat, k: nat, d: ItemHash)
    requires Admitted(blocks, genesis) && h in blocks
    requires HeldAt(blocks, genesis, DebtsOf, h, j, d) && HeldAt(blocks, genesis, DebtsOf, h, k, d)
    ensures j == k
  {
    if j < k {
      NotTwice(blocks, genesis, h, j, k, d);
    } else if k < j {
      NotTwice(blocks, genesis, h, k, j, d);
    }
  }

  /** No two blocks of a branch of accepted blocks hold the same debt. */
  lemma OneBlockPerDebt(blocks: Blocks, genesis: BlockHash, h: BlockHash)
    requires Admitted(blocks, genesis) && h in blocks
    ensures NoRepeats(DebtLists(blocks), Path(blocks, genesis, h).Values)
  {
    var path := Path(blocks, genesis, h);
    forall p, q, d
      | Holds(DebtLists(blocks), p, d) && Holds(DebtLists(blocks), q, d)
        && p.block in path.Values && q.block in path.Values
      ensures p == q
    {
      var j, k :| j in path && k in path && path[j] == p.block && path[k] == q.block;
      OneHeight(blocks, genesis, h, j, k, d);
    }
  }

  lemma NotTwice(blocks: Blocks, genesis: BlockHash, h: BlockHash, j: nat, k: nat, d: ItemHash)
    requires Admitted(blocks, genesis) && h in blocks && j < k && HeldAt(blocks, genesis, DebtsOf, h, k, d)
    ensures !HeldAt(blocks, genesis, DebtsOf, h, j, d)
  {
    var b := Ancestor(blocks, genesis, h, k);
    ParentOf(blocks, genesis, h, k);
    AncestorTwice(blocks, genesis, h, k - 1, j);
    var i :| 0 <= i < |blocks[b].debts| && blocks[b].debts[i] == d;
    assert !OnBranch(blocks, genesis, blocks[b].prev, blocks[b].debts[i]);
    assert !HeldAt(blocks, genesis, DebtsOf, blocks[b].prev, j, d);
  }

  /** In every run from genesis in which AcceptDebts lets each block pass: the same, for every branch. */
  lemma DebtOnceInRun(genesis: Block, bs: seq<Block>, h: BlockHash)
    requires IsGenesis(genesis) && AllAccepted(genesis, bs) && h in StoredAfter(genesis, bs)
    ensures var blocks := StoredAfter(genesis, bs);
      Admitted(blocks, genesis.hash) &&
      (AppliedOnce(blocks, genesis.hash, h) <==> OwnListsDistinct(blocks, genesis.hash, h))
  {
    AcceptedAdmitted(genesis, bs);
    DebtOncePerBranch(StoredAfter(genesis, bs), genesis.hash, h);
  }

  /** It does happen: a block that has the debt 7 twice is let pass, and its branch applies 7 twice. */
  lemma TwiceInOneBlock()
    ensures var genesis, b := Block(1, 0, EMPTY_HASH, [], []), Block(2, 1, 1, [], [7, 7]);
      IsGenesis(genesis) && AllAccepted(genesis, [b]) && Admitted(StoredAfter(genesis, [b]), 1)
      && 2 in StoredAfter(genesis, [b]) && !AppliedOnce(StoredAfter(genesis, [b]), 1, 2)
  {
    var genesis, b := Block(1, 0, EMPTY_HASH, [], []), Block(2, 1, 1, [], [7, 7]);
    var before := StoredAfter(genesis, []);
    assert [b][..0] == [];
    assert Placed(before, 1, 1);
    assert Fits(before, 1, b);
    forall i | 0 <= i < |b.debts| ensures !OnBranch(before, 1, 1, b.debts[i]) {
      assert forall k: nat :: !HeldAt(before, 1, DebtsOf, 1, k, 7);
    }
    assert AllAccepted(genesis, []);
    AcceptedAdmitted(genesis, [b]);
    var blocks := StoredAfter(genesis, [b]);
    DebtOncePerBranch(blocks, 1, 2);
    assert Ancestor(blocks, 1, 2, 1) == 2;
    assert !Distinct(blocks[Ancestor(blocks, 1, 2, 1)].debts) by {
      assert blocks[2].debts[0] == blocks[2].debts[1];
    }
  }
}
