/** The tx and debt indices (core/store/db_store.go) while blocks enter and leave the canonical chain. */
module ChainIndex {

  /** Hashes are only compared. */
  type BlockHash = nat
  type ItemHash = nat

  /** Where an item is: the block that holds it and its position there. */
  datatype Place = Place(block: BlockHash, pos: nat)

  type Index = map<ItemHash, Place>

  /** The items of every stored block. */
  type Lists = map<BlockHash, seq<ItemHash>>

  /** The last position of an item in a list. */
  function LastAt(items: seq<ItemHash>, x: ItemHash): (i: nat)
    requires x in items
    ensures i < |items| && items[i] == x && forall j :: i < j < |items| ==> items[j] != x
  {
    if items[|items| - 1] == x then |items| - 1 else LastAt(items[..|items| - 1], x)
  }

  /** The block of `p` holds `x`, for the last time at the position of `p`. */
  ghost predicate Holds(lists: Lists, p: Place, x: ItemHash) {
    p.block in lists && x in lists[p.block] && p.pos == LastAt(lists[p.block], x)
  }

  /** Every item of a block in `canon` is indexed there, and nothing else is indexed. */
  ghost predicate Exact(lists: Lists, idx: Index, canon: set<BlockHash>) {
    && (forall x :: x in idx ==> Holds(lists, idx[x], x) && idx[x].block in canon)
    && (forall p, x {:trigger Holds(lists, p, x)} :: Holds(lists, p, x) && p.block in canon ==> x in idx && idx[x] == p)
  }

  /**
    The indices in the middle of a reorganisation. Blocks in `recent` have been added to the canonical chain and win
    over the older blocks of `canon`; blocks in `weak` are about to leave and may have lost their entries already;
    blocks in `extra` are about to enter and may have their entries already.
   */
  ghost predicate Mixed(lists: Lists, idx: Index, canon: set<BlockHash>, recent: set<BlockHash>, weak: set<BlockHash>,
                        extra: set<BlockHash>) {
    && (forall x :: x in idx ==> Holds(lists, idx[x], x) && idx[x].block in canon + extra)
    && (forall p, x {:trigger Holds(lists, p, x)} :: Holds(lists, p, x) && p.block in canon ==>
         Tells(idx, p, x, recent, weak, extra))
  }

  ghost predicate Tells(idx: Index, p: Place, x: ItemHash, recent: set<BlockHash>, weak: set<BlockHash>,
                        extra: set<BlockHash>) {
    if x in idx then idx[x] == p || (p.block !in recent && idx[x].block in recent + extra) else p.block in weak
  }

  /** No item in two blocks of one branch. */
  ghost predicate NoRepeats(lists: Lists, branch: set<BlockHash>) {
    forall p, q, x {:trigger Holds(lists, p, x), Holds(lists, q, x)} ::
      Holds(lists, p, x) && Holds(lists, q, x) && p.block in branch && q.block in branch ==> p == q
  }

  /** batchDeleteIndices: the entries of the items that point to the block itself. */
  function Deleted(idx: Index, items: seq<ItemHash>, block: BlockHash): Index {
    map x | x in idx && !(x in items && idx[x].block == block) :: idx[x]
  }

  /** batchAddIndices: later positions win. */
  function Added(idx: Index, items: seq<ItemHash>, block: BlockHash): Index {
    if items == [] then idx
    else Added(idx, items[..|items| - 1], block)[items[|items| - 1] := Place(block, |items| - 1)]
  }

  lemma {:induction false} AddedAt(idx: Index, items: seq<ItemHash>, block: BlockHash, x: ItemHash)
    ensures x in Added(idx, items, block) <==> x in idx || x in items
    ensures x !in items && x in idx ==> Added(idx, items, block)[x] == idx[x]
    ensures x in items ==> Added(idx, items, block)[x] == Place(block, LastAt(items, x))
    decreases |items|
  {
    if items != [] {
      AddedAt(idx, items[..|items| - 1], block, x);
    }
  }

  /** Exact indices stay exact when blocks are stored that are not canonical. */
  lemma StoredExact(lists: Lists, lists': Lists, idx: Index, canon: set<BlockHash>)
    requires Exact(lists, idx, canon) && canon <= lists.Keys
    requires forall b :: b in lists ==> b in lists' && lists'[b] == lists[b]
    ensures Exact(lists', idx, canon)
  {
    forall p, x | Holds(lists', p, x) && p.block in canon ensures x in idx && idx[x] == p {
      assert Holds(lists, p, x);
    }
    forall x | x in idx ensures Holds(lists', idx[x], x) {
      assert Holds(lists, idx[x], x);
    }
  }

  /** Exact indices agree with the canonical blocks when blocks are stored that are not canonical. */
  lemma Stored(lists: Lists, lists': Lists, idx: Index, canon: set<BlockHash>)
    requires Exact(lists, idx, canon) && canon <= lists.Keys
    requires forall b :: b in lists ==> b in lists' && lists'[b] == lists[b]
    ensures Mixed(lists', idx, canon, {}, {}, {})
  {
    forall p, x | Holds(lists', p, x) && p.block in canon ensures Tells(idx, p, x, {}, {}, {}) {
      assert Holds(lists, p, x);
    }
  }

  /** Deleting the entries of a block that is about to leave; doing it again changes nothing. */
  lemma DeleteStep(lists: Lists, idx: Index, canon: set<BlockHash>, recent: set<BlockHash>, weak: set<BlockHash>,
                   extra: set<BlockHash>, c: BlockHash)
    requires c in lists && c !in recent + extra && Mixed(lists, idx, canon, recent, weak + {c}, extra)
    ensures var idx' := Deleted(idx, lists[c], c);
      && Mixed(lists, idx', canon, recent, weak + {c}, extra)
      && Mixed(lists, idx', canon - {c}, recent, weak, extra)
  {
    var idx' := Deleted(idx, lists[c], c);
    forall x | x in idx' ensures idx'[x].block != c {
      assert Holds(lists, idx[x], x);
    }
    forall p, x | Holds(lists, p, x) && p.block in canon
      ensures Tells(idx', p, x, recent, weak + {c}, extra)
      ensures p.block != c ==> Tells(idx', p, x, recent, weak, extra)
    {
      assert Tells(idx, p, x, recent, weak + {c}, extra);
    }
  }

  /**
    Once the entries of a canonical block have been deleted, an item of it is indexed exactly when a recent block
    holds it.
   */
  lemma DeletedKeeps(lists: Lists, idx: Index, canon: set<BlockHash>, recent: set<BlockHash>, c: BlockHash, x: ItemHash)
    requires c in lists && c in canon && c !in recent && recent <= canon && Mixed(lists, idx, canon, recent, {}, {})
    requires x in lists[c]
    ensures x in Deleted(idx, lists[c], c) <==> exists r :: r in recent && r in lists && x in lists[r]
  {
    assert Holds(lists, Place(c, LastAt(lists[c], x)), x);
    if r :| r in recent && r in lists && x in lists[r] {
      assert Holds(lists, Place(r, LastAt(lists[r], x)), x);
    }
    assert Holds(lists, idx[x], x);
  }

  /** Adding the entries of a block that is about to enter; doing it again changes nothing. */
  lemma AddStep(lists: Lists, idx: Index, canon: set<BlockHash>, recent: set<BlockHash>, weak: set<BlockHash>,
                n: BlockHash)
    requires n in lists && NoRepeats(lists, recent + {n}) && Mixed(lists, idx, canon, recent, weak, {n})
    ensures Mixed(lists, Added(idx, lists[n], n), canon, recent, weak, {n})
  {
    var idx' := Added(idx, lists[n], n);
    forall x | x in idx' ensures Holds(lists, idx'[x], x) && idx'[x].block in canon + {n} {
      AddedAt(idx, lists[n], n, x);
    }
    forall p, x | Holds(lists, p, x) && p.block in canon ensures Tells(idx', p, x, recent, weak, {n}) {
      AddedAt(idx, lists[n], n, x);
      assert Tells(idx, p, x, recent, weak, {n});
      if x in lists[n] {
        assert Holds(lists, idx'[x], x);
      }
    }
  }

  /** With its entries added, the block can become canonical. */
  lemma EnterStep(lists: Lists, idx: Index, canon: set<BlockHash>, recent: set<BlockHash>, weak: set<BlockHash>,
                  n: BlockHash)
    requires n in lists && NoRepeats(lists, recent + {n}) && Mixed(lists, idx, canon, recent, weak, {n})
    ensures Mixed(lists, Added(idx, lists[n], n), canon + {n}, recent + {n}, weak, {})
  {
    AddStep(lists, idx, canon, recent, weak, n);
    var idx' := Added(idx, lists[n], n);
    forall p, x | Holds(lists, p, x) && p.block in canon + {n} ensures Tells(idx', p, x, recent + {n}, weak, {}) {
      AddedAt(idx, lists[n], n, x);
      if p.block in canon {
        assert Tells(idx', p, x, recent, weak, {n});
      }
      if x in idx' {
        assert Holds(lists, idx'[x], x);
      }
    }
  }

  lemma Weaken(lists: Lists, idx: Index, canon: set<BlockHash>, recent: set<BlockHash>, weak: set<BlockHash>,
               weaker: set<BlockHash>, extra: set<BlockHash>, more: set<BlockHash>)
    requires Mixed(lists, idx, canon, recent, weak, extra) && weak <= weaker && extra <= more
    ensures Mixed(lists, idx, canon, recent, weaker, more)
  {
    forall p, x | Holds(lists, p, x) && p.block in canon ensures Tells(idx, p, x, recent, weaker, more) {
      assert Tells(idx, p, x, recent, weak, extra);
    }
  }

  /** A canonical block of the new branch counts as recent: no other recent block holds its items. */
  lemma GrowRecent(lists: Lists, idx: Index, canon: set<BlockHash>, recent: set<BlockHash>, weak: set<BlockHash>,
                   b: BlockHash)
    requires Mixed(lists, idx, canon, recent, weak, {}) && NoRepeats(lists, recent + {b})
    ensures Mixed(lists, idx, canon, recent + {b}, weak, {})
  {
    forall p, x | Holds(lists, p, x) && p.block in canon ensures Tells(idx, p, x, recent + {b}, weak, {}) {
      assert Tells(idx, p, x, recent, weak, {});
      if x in idx {
        assert Holds(lists, idx[x], x);
      }
    }
  }

  /** Once the canonical chain is one branch, the indices are exact. */
  lemma MixedIsExact(lists: Lists, idx: Index, canon: set<BlockHash>, recent: set<BlockHash>)
    requires Mixed(lists, idx, canon, recent, {}, {}) && recent <= canon && NoRepeats(lists, canon)
    ensures Exact(lists, idx, canon)
  {
    forall x, p: Place | p.block in canon && Holds(lists, p, x) ensures x in idx && idx[x] == p {
      assert Tells(idx, p, x, recent, {}, {});
      assert Holds(lists, idx[x], x);
    }
  }

  lemma ExactUnique(lists: Lists, idx: Index, idx': Index, canon: set<BlockHash>)
    requires Exact(lists, idx, canon) && Exact(lists, idx', canon)
    ensures idx == idx'
  {
    forall x | x in idx ensures x in idx' && idx'[x] == idx[x] {
      assert Holds(lists, idx[x], x);
    }
    forall x | x in idx' ensures x in idx {
      assert Holds(lists, idx'[x], x);
    }
  }
}
