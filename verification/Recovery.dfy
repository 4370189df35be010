/** recover (core/blockchain_recover.go) as a function of the store: how it ends, and what a stop in it leaves. */
module Recovery {
  import opened Common
  import opened ChainIndex
  import opened Chain
  import opened CanonicalChain

  /** The state that a part of recovery ends in, and how. */
  datatype Ran = Ran(c: Canon, r: Outcome)

  ghost function Dropped(blocks: Blocks, c: Canon, k: nat): Canon
    requires k in c.heights && c.heights[k] in blocks
  {
    Unindexed(c, blocks[c.heights[k]]).(heights := c.heights - {k})
  }

  /** deleteCanonicalBlock */
  ghost function DropRun(blocks: Blocks, c: Canon, k: nat, stop: Option<Write>): Ran {
    if k !in c.heights then Ran(c, No)
    else if c.heights[k] !in blocks || Missing(blocks, c, k) then Ran(c, Failed)
    else if stop == Some(DropIndices(k)) then Ran(c, Crashed)
    else if stop == Some(DropHash(k)) then Ran(Unindexed(c, blocks[c.heights[k]]), Crashed)
    else Ran(Dropped(blocks, c, k), Yes)
  }

  /** The loop of DeleteLargerHeightBlocks, without a recovery point. */
  ghost function ClearRun(blocks: Blocks, c: Canon, i: nat, stop: Option<Write>): Ran
    decreases |c.heights.Keys|
  {
    var d := DropRun(blocks, c, i, stop);
    if d.r != Yes then Ran(d.c, if d.r == No then Yes else d.r)
    else
      assert |d.c.heights.Keys| < |c.heights.Keys| by {
        assert c.heights.Keys == d.c.heights.Keys + {i};
      }
      ClearRun(blocks, d.c, i + 1, stop)
  }

  /** DeleteLargerHeightBlocks: whether there was a block at `k` does not matter. */
  ghost function LargerRun(blocks: Blocks, c: Canon, k: nat, stop: Option<Write>): Ran {
    var d := DropRun(blocks, c, k, stop);
    if d.r == Failed || d.r == Crashed then d else ClearRun(blocks, d.c, k + 1, stop)
  }

  /** overwriteSingleStaleBlock */
  ghost function PlaceRun(blocks: Blocks, c: Canon, hash: BlockHash, stop: Option<Write>): Ran {
    if hash !in blocks then Ran(c, Failed)
    else
      var j := blocks[hash].height;
      if j in c.heights && c.heights[j] == hash then Ran(c, No)
      else if j in c.heights && (c.heights[j] !in blocks || Missing(blocks, c, j)) then Ran(c, Failed)
      else if j in c.heights && stop == Some(DropIndices(j)) then Ran(c, Crashed)
      else if stop == Some(AddIndices(j)) then Ran(WithoutOld(blocks, c, j), Crashed)
      else
        var after := Reindexed(WithoutOld(blocks, c, j), blocks[hash]);
        if stop == Some(PutHash(j)) then Ran(after, Crashed)
        else Ran(after.(heights := c.heights[j := hash]), Yes)
  }

  /** The loop of OverwriteStaleBlocks, without a recovery point, from below height `n` of the new branch. */
  ghost function WalkRun(blocks: Blocks, c: Canon, path: Heights, n: nat, stop: Option<Write>): Ran
    decreases n
  {
    if n == 0 || n - 1 !in path then Ran(c, Yes)
    else
      var d := PlaceRun(blocks, c, path[n - 1], stop);
      if d.r == Yes then WalkRun(blocks, d.c, path, n - 1, stop)
      else Ran(d.c, if d.r == No then Yes else d.r)
  }

  /** OverwriteStaleBlocks: whether the block at height `s` was in place already does not matter. */
  ghost function StaleRun(blocks: Blocks, c: Canon, path: Heights, s: nat, stop: Option<Write>): Ran
    requires s in path
  {
    var d := PlaceRun(blocks, c, path[s], stop);
    if d.r == Failed || d.r == Crashed then d else WalkRun(blocks, d.c, path, s, stop)
  }

  /** recover: errors of the two parts are only logged. */
  ghost function RecoverRun(blocks: Blocks, c: Canon, path: Heights, k: nat, s: nat, stop: Option<Write>): Ran
    requires s in path
  {
    var d := if k > 0 then LargerRun(blocks, c, k, stop) else Ran(c, Yes);
    if d.r == Crashed then d
    else
      var e := StaleRun(blocks, d.c, path, s, stop);
      if e.r == Crashed then e else Ran(e.c, Yes)
  }

  /**
    What stops leave: the new branch is in place above height `j`, where the work may be half done, and the old branch
    is in place above the new head from `u` on, where the indices may be gone.
   */
  ghost predicate Broken(blocks: Blocks, c: Canon, path: Heights, top: nat, was: Heights, last: nat, j: nat, u: nat) {
    && Scene(blocks, path, top, was, last) && j < top < u
    && forall k: nat {:trigger Unfolded(c, k)} :: Unfolded(c, k) ==>
      Overwriting(blocks, c, path, was, j, Rest(u, Leaving(c, u)))
  }

  /** As Broken, with the indices of the block at `u` in place. */
  ghost predicate Whole(blocks: Blocks, c: Canon, path: Heights, top: nat, was: Heights, last: nat, j: nat, u: nat) {
    && Scene(blocks, path, top, was, last) && j < top < u
    && forall k: nat {:trigger Unfolded(c, k)} :: Unfolded(c, k) ==>
      Overwriting(blocks, c, path, was, j, Rest(u, {}))
  }

  /** The height from which the new branch is in place, and what may be half done below it. */
  ghost function Depth(c: Canon, path: Heights, j: nat): nat
    requires j in path
  {
    if Stale(c, path, j) then j + 1 else j
  }

  ghost function Half(c: Canon, path: Heights, j: nat): set<BlockHash>
    requires j in path
  {
    if Stale(c, path, j) then Leaving(c, j) else {}
  }

  ghost function Coming(c: Canon, path: Heights, j: nat): set<BlockHash>
    requires j in path
  {
    if Stale(c, path, j) then {path[j]} else {}
  }

  ghost predicate Form(blocks: Blocks, c: Canon, path: Heights, was: Heights, j: nat, u: nat, lost: set<BlockHash>)
    requires j in path
  {
    && Spliced(c.heights, path, was, Depth(c, path, j), u)
    && Ready(blocks, c, Top(path, Depth(c, path, j)), lost + Half(c, path, j), Coming(c, path, j))
  }

  /** Both forms of Overwriting at once. */
  lemma FormIs(blocks: Blocks, c: Canon, path: Heights, was: Heights, j: nat, u: nat, lost: set<BlockHash>)
    requires j in path
    ensures Overwriting(blocks, c, path, was, j, Rest(u, lost)) <==> Form(blocks, c, path, was, j, u, lost)
  {
    assert Unfolded(c, 0);
    assert lost + {} == lost;
  }

  lemma WholeIsBroken(blocks: Blocks, c: Canon, path: Heights, top: nat, was: Heights, last: nat, j: nat, u: nat)
    requires Whole(blocks, c, path, top, was, last, j, u)
    ensures Broken(blocks, c, path, top, was, last, j, u) && !Missing(blocks, c, u)
  {
    assert Unfolded(c, 0);
    FormIs(blocks, c, path, was, j, u, {});
    FormIs(blocks, c, path, was, j, u, Leaving(c, u));
    if u in c.heights {
      assert AtHeight(blocks, c.heights) by {
        assert Unfolded(c, 0);
      }
      ReadyHasDebts(blocks, c, Top(path, Depth(c, path, j)), {} + Half(c, path, j), Coming(c, path, j), u);
    }
    ReadyWeaken(blocks, c, Top(path, Depth(c, path, j)), {} + Half(c, path, j), Leaving(c, u) + Half(c, path, j),
                Coming(c, path, j), Coming(c, path, j));
  }

  /** The block at `u` stands there from the old branch. */
  lemma OldAt(blocks: Blocks, c: Canon, path: Heights, top: nat, was: Heights, last: nat, j: nat, u: nat)
    requires Broken(blocks, c, path, top, was, last, j, u)
    ensures u in c.heights <==> u <= last
    ensures u <= last ==> c.heights[u] == was[u] && was[u] in blocks && blocks[was[u]].height == u
    ensures forall k: nat :: top < k < u ==> k !in c.heights
    ensures forall k: nat :: u <= k ==> (k in c.heights <==> k <= last)
  {
    assert Unfolded(c, 0);
    assert Seen(path, 0);
  }

  /** The part of the map up to the new head, and the part above it. */
  ghost function Low(c: Canon, top: nat): Heights {
    map k | k in c.heights && k <= top :: c.heights[k]
  }

  ghost function High(c: Canon, top: nat): Heights {
    map k | k in c.heights && k > top :: c.heights[k]
  }

  /** Nothing below changes while blocks above the new head go. */
  ghost predicate LowSame(blocks: Blocks, c: Canon, c': Canon, top: nat) {
    Low(c, top) == Low(c', top) && forall h: nat :: h <= top ==> (Missing(blocks, c, h) <==> Missing(blocks, c', h))
  }

  /** Deleting the entries of the block at `u` leaves the debts of another one indexed as they were. */
  lemma OtherDebts(blocks: Blocks, c: Canon, path: Heights, was: Heights, j: nat, u: nat, lost: set<BlockHash>, h: nat)
    requires j in path && u in c.heights && h != u && Form(blocks, c, path, was, j, u, lost)
    requires c.heights[u] !in Top(path, Depth(c, path, j)) + Coming(c, path, j)
    ensures c.heights[u] in blocks
    ensures Missing(blocks, c, h) <==> Missing(blocks, Unindexed(c, blocks[c.heights[u]]), h)
    ensures Missing(blocks, c, h) <==> Missing(blocks, Dropped(blocks, c, u), h)
  {
    assert Unfolded(c, 0);
    var b, idx := c.heights[u], c.debtIndex;
    if h in c.heights {
      var o := c.heights[h];
      forall d | d in blocks[o].debts && d in idx ensures idx[d].block != b {
        assert Holds(DebtLists(blocks), Place(o, LastAt(blocks[o].debts, d)), d);
      }
    }
  }

  lemma DropLow(blocks: Blocks, c: Canon, path: Heights, top: nat, was: Heights, j: nat, u: nat, lost: set<BlockHash>)
    requires j in path && u in c.heights && top < u && Form(blocks, c, path, was, j, u, lost)
    requires c.heights[u] !in Top(path, Depth(c, path, j)) + Coming(c, path, j)
    ensures c.heights[u] in blocks
    ensures LowSame(blocks, c, Unindexed(c, blocks[c.heights[u]]), top)
    ensures LowSame(blocks, c, Dropped(blocks, c, u), top)
  {
    assert AtHeight(blocks, c.heights) by {
      assert Unfolded(c, 0);
    }
    forall h: nat | h <= top
      ensures Missing(blocks, c, h) <==> Missing(blocks, Unindexed(c, blocks[c.heights[u]]), h)
      ensures Missing(blocks, c, h) <==> Missing(blocks, Dropped(blocks, c, u), h)
    {
      OtherDebts(blocks, c, path, was, j, u, lost, h);
    }
  }

  lemma DropForm(blocks: Blocks, c: Canon, path: Heights, was: Heights, j: nat, u: nat)
    requires j in path && u in c.heights && j < u && Form(blocks, c, path, was, j, u, {c.heights[u]}) && u !in path
    requires c.heights[u] !in Top(path, Depth(c, path, j)) + Coming(c, path, j)
    ensures c.heights[u] in blocks
    ensures Form(blocks, Unindexed(c, blocks[c.heights[u]]), path, was, j, u, {c.heights[u]})
    ensures Form(blocks, Dropped(blocks, c, u), path, was, j, u + 1, {})
  {
    var b, half := c.heights[u], Half(c, path, j);
    assert {b} + half == half + {b} && {} + half == half;
    ReadyDelete(blocks, c, Top(path, Depth(c, path, j)), half, Coming(c, path, j), u);
  }

  lemma OldNotNew(blocks: Blocks, c: Canon, path: Heights, top: nat, was: Heights, last: nat, j: nat, u: nat)
    requires Broken(blocks, c, path, top, was, last, j, u) && u in c.heights
    ensures c.heights[u] in blocks && u !in path && c.heights[u] !in Top(path, Depth(c, path, j)) + Coming(c, path, j)
  {
    OldAt(blocks, c, path, top, was, last, j, u);
  }

  /** Between the two writes of deleteCanonicalBlock at `u`. */
  lemma DropTears(blocks: Blocks, c: Canon, path: Heights, top: nat, was: Heights, last: nat, j: nat, u: nat)
    requires Broken(blocks, c, path, top, was, last, j, u) && u in c.heights
    ensures c.heights[u] in blocks
    ensures var c' := Unindexed(c, blocks[c.heights[u]]);
      Broken(blocks, c', path, top, was, last, j, u) && LowSame(blocks, c, c', top)
  {
    OldNotNew(blocks, c, path, top, was, last, j, u);
    var lost := {c.heights[u]};
    assert Unfolded(c, 0);
    FormIs(blocks, c, path, was, j, u, lost);
    DropForm(blocks, c, path, was, j, u);
    DropLow(blocks, c, path, top, was, j, u, lost);
    FormIs(blocks, Unindexed(c, blocks[c.heights[u]]), path, was, j, u, lost);
  }

  /** After both. */
  lemma DropLeaves(blocks: Blocks, c: Canon, path: Heights, top: nat, was: Heights, last: nat, j: nat, u: nat, v: nat)
    requires v == u + 1 && Broken(blocks, c, path, top, was, last, j, u) && u in c.heights
    ensures c.heights[u] in blocks
    ensures Whole(blocks, Dropped(blocks, c, u), path, top, was, last, j, v)
    ensures LowSame(blocks, c, Dropped(blocks, c, u), top)
  {
    OldNotNew(blocks, c, path, top, was, last, j, u);
    assert Unfolded(c, 0);
    FormIs(blocks, c, path, was, j, u, {c.heights[u]});
    DropForm(blocks, c, path, was, j, u);
    DropLow(blocks, c, path, top, was, j, u, {c.heights[u]});
    FormIs(blocks, Dropped(blocks, c, u), path, was, j, v, {});
  }

  lemma DropGoes(blocks: Blocks, c: Canon, path: Heights, top: nat, was: Heights, last: nat, j: nat, u: nat, v: nat)
    requires v == u + 1 && Broken(blocks, c, path, top, was, last, j, u) && u in c.heights
    ensures c.heights[u] in blocks
    ensures Broken(blocks, Dropped(blocks, c, u), path, top, was, last, j, v)
    ensures !Missing(blocks, Dropped(blocks, c, u), v) && LowSame(blocks, c, Dropped(blocks, c, u), top)
  {
    DropLeaves(blocks, c, path, top, was, last, j, u, v);
    WholeIsBroken(blocks, Dropped(blocks, c, u), path, top, was, last, j, v);
  }

  /** Nothing is left above the new head: any height above both branches will do. */
  lemma NothingLeft(blocks: Blocks, c: Canon, path: Heights, top: nat, was: Heights, last: nat, j: nat, u: nat, v: nat)
    requires Broken(blocks, c, path, top, was, last, j, u) && u > last && v > last && v > top
    ensures Whole(blocks, c, path, top, was, last, j, v)
  {
    OldAt(blocks, c, path, top, was, last, j, u);
    assert Unfolded(c, 0);
    FormIs(blocks, c, path, was, j, u, {});
    FormIs(blocks, c, path, was, j, v, {});
  }

  /** The first deletion that DeleteLargerHeightBlocks comes to does not fail, or nothing is left above the new head. */
  ghost predicate Clears(blocks: Blocks, c: Canon, top: nat, k: nat) {
    if k in c.heights then !Missing(blocks, c, k)
    else if k + 1 in c.heights then !Missing(blocks, c, k + 1)
    else forall h :: h in c.heights ==> h <= top
  }

  /** The machine stops before a write that state `c` still has to come. */
  ghost predicate Struck(c: Canon, path: Heights, top: nat, stop: Option<Write>) {
    stop.Some? &&
    match stop.value
    case DropIndices(h) => h in c.heights && (h > top || (h in path && Stale(c, path, h)))
    case DropHash(h) => h in c.heights && h > top
    case AddIndices(h) => h in path && h <= top && Stale(c, path, h)
    case PutHash(h) => h in path && h <= top && Stale(c, path, h)
    case _ => false
  }

  /** Everything above the new head is cleared, or the machine has stopped at height `at`. */
  ghost predicate ClearEnds(blocks: Blocks, c: Canon, path: Heights, top: nat, was: Heights, last: nat, j: nat,
                            stop: Option<Write>, d: Ran, at: nat) {
    && LowSame(blocks, c, d.c, top)
    && if d.r == Crashed then Struck(d.c, path, top, stop) && Broken(blocks, d.c, path, top, was, last, j, at)
       else d.r == Yes && Whole(blocks, d.c, path, top, was, last, j, End(top, last))
  }

  lemma ClearEndsBelow(blocks: Blocks, c: Canon, less: Canon, path: Heights, top: nat, was: Heights, last: nat, j: nat,
                       stop: Option<Write>, d: Ran, at: nat)
    requires LowSame(blocks, c, less, top) && ClearEnds(blocks, less, path, top, was, last, j, stop, d, at)
    ensures ClearEnds(blocks, c, path, top, was, last, j, stop, d, at)
  {
  }

  lemma ClearStops(blocks: Blocks, c: Canon, path: Heights, top: nat, was: Heights, last: nat, j: nat, u: nat,
                   stop: Option<Write>)
    requires Broken(blocks, c, path, top, was, last, j, u) && u in c.heights && !Missing(blocks, c, u)
    requires DropRun(blocks, c, u, stop).r != Yes
    ensures ClearEnds(blocks, c, path, top, was, last, j, stop, DropRun(blocks, c, u, stop), u)
  {
    DropTears(blocks, c, path, top, was, last, j, u);
  }

  /** Clearing upwards from `u` fails there, or ends above the old branch or where the machine stops. */
  lemma {:induction false} ClearsFrom(blocks: Blocks, c: Canon, path: Heights, top: nat, was: Heights, last: nat,
                                      j: nat, u: nat, stop: Option<Write>)
    returns (at: nat)
    requires Broken(blocks, c, path, top, was, last, j, u) && !Missing(blocks, c, u)
    ensures at >= u && ClearEnds(blocks, c, path, top, was, last, j, stop, ClearRun(blocks, c, u, stop), at)
    decreases last + 1 - u
  {
    at := u;
    OldAt(blocks, c, path, top, was, last, j, u);
    if u !in c.heights {
      NothingLeft(blocks, c, path, top, was, last, j, u, End(top, last));
    } else if DropRun(blocks, c, u, stop).r != Yes {
      ClearStops(blocks, c, path, top, was, last, j, u, stop);
    } else {
      var less, v := Dropped(blocks, c, u), u + 1;
      DropGoes(blocks, c, path, top, was, last, j, u, v);
      at := ClearsFrom(blocks, less, path, top, was, last, j, v, stop);
      ClearEndsBelow(blocks, c, less, path, top, was, last, j, stop, ClearRun(blocks, less, v, stop), at);
    }
  }

  /**
    DeleteLargerHeightBlocks from height `k`, when the blocks below `u` have gone already: it clears everything if and
    only if Clears, unless the machine stops again.
   */
  lemma LargerMeans(blocks: Blocks, c: Canon, path: Heights, top: nat, was: Heights, last: nat, j: nat, u: nat, k: nat,
                    stop: Option<Write>)
    returns (at: nat)
    requires Broken(blocks, c, path, top, was, last, j, u) && top < k <= u
    ensures at >= u
    ensures if Clears(blocks, c, top, k)
      then ClearEnds(blocks, c, path, top, was, last, j, stop, LargerRun(blocks, c, k, stop), at)
      else u in c.heights && LargerRun(blocks, c, k, stop).c == c && LargerRun(blocks, c, k, stop).r != Crashed
  {
    at := u;
    OldAt(blocks, c, path, top, was, last, j, u);
    if u > last {
      NothingLeft(blocks, c, path, top, was, last, j, u, End(top, last));
    } else if (u == k || u == k + 1) && !Missing(blocks, c, u) {
      at := ClearsFrom(blocks, c, path, top, was, last, j, u, stop);
    }
  }

  /** overwriteSingleStaleBlock at the height where the walk stands. */
  lemma PlaceAt(blocks: Blocks, c: Canon, path: Heights, top: nat, was: Heights, last: nat, j: nat, rest: Rest,
                stop: Option<Write>)
    requires Scene(blocks, path, top, was, last) && j < top && Overwriting(blocks, c, path, was, j, rest)
    ensures var d := PlaceRun(blocks, c, path[j], stop);
      && (d.r == No <==> !Stale(c, path, j)) && (d.r == Failed <==> Stuck(blocks, c, path, j))
      && (d.r == No || d.r == Failed ==> d.c == c)
      && (d.r == Yes ==> Overwritten(blocks, d.c, path, was, j, rest) && d.c.heights == c.heights[j := path[j]])
      && (d.r == Crashed ==>
            Struck(d.c, path, top, stop) && Overwriting(blocks, d.c, path, was, j, rest) && d.c.heights == c.heights)
  {
    PathPrev(blocks, path, top, was, last, j);
    if Stale(c, path, j) {
      OverwriteDelete(blocks, c, path, top, was, last, j, rest);
      var c1 := WithoutOld(blocks, c, j);
      OverwriteAdd(blocks, c1, path, top, was, last, j, rest);
      OverwriteEnter(blocks, c1, path, top, was, last, j, rest);
    }
  }

  /** The new branch is in place. */
  ghost predicate InPlace(c: Canon, path: Heights) {
    forall h :: h in path ==> !Stale(c, path, h)
  }

  /** Below a height in place, the old branch is in place as far down as it can be. */
  lemma InPlaceIff(blocks: Blocks, c: Canon, path: Heights, top: nat, was: Heights, last: nat, n: nat, rest: Rest)
    requires Scene(blocks, path, top, was, last) && n <= top && Overwritten(blocks, c, path, was, n, rest)
    ensures InPlace(c, path) <==> n == 0 || !Stale(c, path, n - 1)
    ensures Meets(path, was, n) ==> InPlace(c, path)
  {
    assert Unfolded(c, 0);
    assert Seen(path, 0);
    forall m: nat, h: nat | h <= m <= n && m <= last && path[m] == was[m] ensures path[h] == was[h] {
      SharedBelow(blocks, path, top, was, last, m, h);
    }
  }

  /** The first block that OverwriteStaleBlocks comes to can be overwritten, or the new branch is in place. */
  ghost predicate Walks(blocks: Blocks, c: Canon, path: Heights, s: nat)
    requires s in path
  {
    if Stale(c, path, s) then !Missing(blocks, c, s)
    else if s > 0 && s - 1 in path && Stale(c, path, s - 1) then !Missing(blocks, c, s - 1)
    else InPlace(c, path)
  }

  /** The walk has ended at height `at`, or the machine has stopped there. */
  ghost predicate WalkEnds(blocks: Blocks, c: Canon, path: Heights, top: nat, was: Heights, rest: Rest,
                           stop: Option<Write>, d: Ran, at: nat) {
    && High(c, top) == High(d.c, top) && at <= top
    && if d.r == Crashed then Struck(d.c, path, top, stop) && at < top && Overwriting(blocks, d.c, path, was, at, rest)
       else d.r == Yes && Overwritten(blocks, d.c, path, was, at, rest) && InPlace(d.c, path)
  }

  /** One round of the walk, below a height in place: what is overwritten has not been tried before. */
  lemma WalkStep(blocks: Blocks, c: Canon, path: Heights, top: nat, was: Heights, last: nat, n: nat, j: nat, rest: Rest,
                 stop: Option<Write>)
    requires Scene(blocks, path, top, was, last) && Remains(blocks, top, rest)
    requires n == j + 1 <= top && Overwritten(blocks, c, path, was, n, rest)
    ensures var d := PlaceRun(blocks, c, path[j], stop);
      && d.r != Failed && High(c, top) == High(d.c, top)
      && (d.r == No <==> !Stale(c, path, j)) && (d.r == No ==> d.c == c)
      && (d.r == Yes ==> Overwritten(blocks, d.c, path, was, j, rest))
      && (d.r == Crashed ==> Struck(d.c, path, top, stop) && Overwriting(blocks, d.c, path, was, j, rest))
  {
    OverwriteNext(blocks, c, path, top, was, last, j, rest);
    WalkAbove(blocks, c, path, top, was, last, j, rest);
    PlaceAt(blocks, c, path, top, was, last, j, rest, stop);
  }

  lemma WalkEndsBelow(blocks: Blocks, c: Canon, more: Canon, path: Heights, top: nat, was: Heights, rest: Rest,
                      stop: Option<Write>, d: Ran, at: nat)
    requires High(c, top) == High(more, top) && WalkEnds(blocks, more, path, top, was, rest, stop, d, at)
    ensures WalkEnds(blocks, c, path, top, was, rest, stop, d, at)
  {
  }

  /** Walking down from a height in place ends where the branches meet, or where the machine stops. */
  lemma {:induction false} WalksDown(blocks: Blocks, c: Canon, path: Heights, top: nat, was: Heights, last: nat, n: nat,
                                     rest: Rest, stop: Option<Write>)
    returns (at: nat)
    requires Scene(blocks, path, top, was, last) && Remains(blocks, top, rest)
    requires n <= top && Overwritten(blocks, c, path, was, n, rest)
    ensures at <= n && WalkEnds(blocks, c, path, top, was, rest, stop, WalkRun(blocks, c, path, n, stop), at)
    decreases n
  {
    at := n;
    InPlaceIff(blocks, c, path, top, was, last, n, rest);
    if n > 0 {
      var j: nat := n - 1;
      WalkStep(blocks, c, path, top, was, last, n, j, rest, stop);
      var d := PlaceRun(blocks, c, path[j], stop);
      if d.r == Yes {
        at := WalksDown(blocks, d.c, path, top, was, last, j, rest, stop);
        WalkEndsBelow(blocks, c, d.c, path, top, was, rest, stop, WalkRun(blocks, d.c, path, j, stop), at);
      } else if d.r == Crashed {
        at := j;
      }
    }
  }

  /** Above the height where the walk stands, the new branch is in place. */
  lemma AboveInPlace(blocks: Blocks, c: Canon, path: Heights, top: nat, was: Heights, last: nat, j: nat, rest: Rest,
                     h: nat, stop: Option<Write>)
    requires Scene(blocks, path, top, was, last) && j < h <= top && Overwriting(blocks, c, path, was, j, rest)
    ensures !Stale(c, path, h) && PlaceRun(blocks, c, path[h], stop) == Ran(c, No)
  {
    assert Unfolded(c, 0);
  }

  /** The walk goes on at a height that may be half done, if no debt is missing there. */
  lemma WalksOn(blocks: Blocks, c: Canon, path: Heights, top: nat, was: Heights, last: nat, j: nat, rest: Rest,
                stop: Option<Write>)
    returns (at: nat)
    requires Scene(blocks, path, top, was, last) && Remains(blocks, top, rest)
    requires j < top && Overwriting(blocks, c, path, was, j, rest) && Stale(c, path, j) && !Missing(blocks, c, j)
    ensures at <= j && WalkEnds(blocks, c, path, top, was, rest, stop, WalkRun(blocks, c, path, j + 1, stop), at)
    ensures StaleRun(blocks, c, path, j, stop) == WalkRun(blocks, c, path, j + 1, stop)
  {
    at := j;
    PlaceAt(blocks, c, path, top, was, last, j, rest, stop);
    var d := PlaceRun(blocks, c, path[j], stop);
    assert High(c, top) == High(d.c, top);
    if d.r == Yes {
      at := WalksDown(blocks, d.c, path, top, was, last, j, rest, stop);
    }
  }

  /** OverwriteStaleBlocks from height `s`, when the blocks down to `j` are in place, and `j` is not. */
  lemma StaleBelow(blocks: Blocks, c: Canon, path: Heights, top: nat, was: Heights, last: nat, j: nat, rest: Rest,
                   s: nat, stop: Option<Write>)
    returns (at: nat)
    requires Scene(blocks, path, top, was, last) && Remains(blocks, top, rest)
    requires j <= s < top && Overwriting(blocks, c, path, was, j, rest) && Stale(c, path, j)
    ensures at <= j
    ensures if Walks(blocks, c, path, s)
      then WalkEnds(blocks, c, path, top, was, rest, stop, StaleRun(blocks, c, path, s, stop), at)
      else StaleRun(blocks, c, path, s, stop).c == c && StaleRun(blocks, c, path, s, stop).r != Crashed
  {
    at := j;
    PlaceAt(blocks, c, path, top, was, last, j, rest, stop);
    if s > j {
      AboveInPlace(blocks, c, path, top, was, last, j, rest, s, stop);
    }
    if s > j + 1 {
      AboveInPlace(blocks, c, path, top, was, last, j, rest, s - 1, stop);
    } else if !Missing(blocks, c, j) {
      at := WalksOn(blocks, c, path, top, was, last, j, rest, stop);
    }
  }

  /** The same when `j` is in place as well. */
  lemma StaleAbove(blocks: Blocks, c: Canon, path: Heights, top: nat, was: Heights, last: nat, j: nat, rest: Rest,
                   s: nat, stop: Option<Write>)
    returns (at: nat)
    requires Scene(blocks, path, top, was, last) && Remains(blocks, top, rest)
    requires j <= s < top && Overwritten(blocks, c, path, was, j, rest)
    ensures at <= j
    ensures if Walks(blocks, c, path, s)
      then WalkEnds(blocks, c, path, top, was, rest, stop, StaleRun(blocks, c, path, s, stop), at)
      else StaleRun(blocks, c, path, s, stop).c == c && StaleRun(blocks, c, path, s, stop).r != Crashed
  {
    at := j;
    OverwrittenThere(blocks, c, path, was, j, rest);
    PlaceAt(blocks, c, path, top, was, last, j, rest, stop);
    if s == j {
      at := WalksDown(blocks, c, path, top, was, last, j, rest, stop);
    } else {
      AboveInPlace(blocks, c, path, top, was, last, j, rest, s, stop);
      if s > j + 1 {
        AboveInPlace(blocks, c, path, top, was, last, j, rest, s - 1, stop);
      }
    }
  }

  /** OverwriteStaleBlocks from height `s` puts the new branch in place if and only if Walks, or the machine stops. */
  lemma StaleMeans(blocks: Blocks, c: Canon, path: Heights, top: nat, was: Heights, last: nat, j: nat, rest: Rest,
                   s: nat, stop: Option<Write>)
    returns (at: nat)
    requires Scene(blocks, path, top, was, last) && Remains(blocks, top, rest)
    requires j <= s < top && Overwriting(blocks, c, path, was, j, rest)
    ensures at <= j
    ensures if Walks(blocks, c, path, s)
      then WalkEnds(blocks, c, path, top, was, rest, stop, StaleRun(blocks, c, path, s, stop), at)
      else StaleRun(blocks, c, path, s, stop).c == c && StaleRun(blocks, c, path, s, stop).r != Crashed
  {
    if Stale(c, path, j) {
      at := StaleBelow(blocks, c, path, top, was, last, j, rest, s, stop);
    } else {
      at := StaleAbove(blocks, c, path, top, was, last, j, rest, s, stop);
    }
  }

  /** The first thing that each part of recovery comes to can be done, or there is nothing left for it to do. */
  ghost predicate Completes(blocks: Blocks, c: Canon, path: Heights, top: nat, k: nat, s: nat)
    requires s in path
  {
    (k > 0 ==> Clears(blocks, c, top, k)) && Walks(blocks, c, path, s)
  }

  /** Recovery has to clear from height `k`, unless that is 0, and to walk down from height `s`. */
  ghost predicate Pending(top: nat, last: nat, j: nat, u: nat, k: nat, s: nat) {
    j <= s < top && if k > 0 then top < k <= u else u > last
  }

  lemma WalksSame(blocks: Blocks, c: Canon, c': Canon, path: Heights, top: nat, s: nat)
    requires Spans(path, top) && s in path && LowSame(blocks, c, c', top)
    ensures Walks(blocks, c, path, s) <==> Walks(blocks, c', path, s)
  {
    forall h | h in path ensures Stale(c, path, h) <==> Stale(c', path, h) {
      assert h in Low(c, top) <==> h in Low(c', top);
    }
  }

  /** Where the next block down is in place already, the branches meet. */
  lemma MeetBelow(blocks: Blocks, c: Canon, path: Heights, top: nat, was: Heights, last: nat, n: nat, j: nat,
                  rest: Rest)
    requires Scene(blocks, path, top, was, last) && n == j + 1 <= top && Overwritten(blocks, c, path, was, n, rest)
    requires !Stale(c, path, j)
    ensures Overwritten(blocks, c, path, was, j, rest) && j <= last && path[j] == was[j]
  {
    OverwriteNext(blocks, c, path, top, was, last, j, rest);
    assert j <= last && path[j] == was[j] by {
      assert Unfolded(c, 0);
    }
  }

  /** With nothing above it, the new branch in place is the canonical chain, with exact indices. */
  lemma PlacedSettles(blocks: Blocks, c: Canon, path: Heights, top: nat, was: Heights, last: nat, at: nat, rest: Rest)
    requires Scene(blocks, path, top, was, last) && rest == Rest(End(top, last), {}) && at <= top
    requires Overwritten(blocks, c, path, was, at, rest) && InPlace(c, path)
    ensures Settled(blocks, c, path)
  {
    if at == 0 {
      OverwriteSettles(blocks, c, path, top, was, last, at, rest);
    } else {
      var j: nat := at - 1;
      MeetBelow(blocks, c, path, top, was, last, at, j, rest);
      OverwriteSettles(blocks, c, path, top, was, last, j, rest);
    }
  }

  /** The second part of recovery, after nothing is left above the new head. */
  lemma SettlesBelow(blocks: Blocks, c: Canon, path: Heights, top: nat, was: Heights, last: nat, j: nat, s: nat,
                     stop: Option<Write>)
    returns (at: nat)
    requires Whole(blocks, c, path, top, was, last, j, End(top, last)) && j <= s < top
    ensures var e := StaleRun(blocks, c, path, s, stop);
      && at <= j && Whole(blocks, e.c, path, top, was, last, at, End(top, last))
      && if e.r == Crashed then Struck(e.c, path, top, stop)
         else if Walks(blocks, c, path, s) then Settled(blocks, e.c, path)
         else e.c == c && c.heights != path
  {
    var rest := Rest(End(top, last), {});
    assert Unfolded(c, 0);
    at := StaleMeans(blocks, c, path, top, was, last, j, rest, s, stop);
    var e := StaleRun(blocks, c, path, s, stop);
    if !Walks(blocks, c, path, s) {
      at := j;
    } else if e.r != Crashed {
      PlacedSettles(blocks, e.c, path, top, was, last, at, rest);
      OverwrittenThere(blocks, e.c, path, was, at, rest);
    }
  }

  /** The second part of recovery, with blocks left above the new head. */
  lemma StaysAbove(blocks: Blocks, c: Canon, path: Heights, top: nat, was: Heights, last: nat, j: nat, u: nat, s: nat,
                   stop: Option<Write>)
    returns (at: nat)
    requires Broken(blocks, c, path, top, was, last, j, u) && u in c.heights && j <= s < top
    ensures var e := StaleRun(blocks, c, path, s, stop);
      && at <= j && Broken(blocks, e.c, path, top, was, last, at, u)
      && High(c, top) == High(e.c, top) && e.c.heights != path && (e.r == Crashed ==> Struck(e.c, path, top, stop))
  {
    var rest := Rest(u, Leaving(c, u));
    OldAt(blocks, c, path, top, was, last, j, u);
    assert Unfolded(c, 0);
    at := StaleMeans(blocks, c, path, top, was, last, j, rest, s, stop);
    var e := StaleRun(blocks, c, path, s, stop);
    assert u in High(c, top) && High(c, top) == High(e.c, top);
    if !Walks(blocks, c, path, s) {
      at := j;
    } else if e.r != Crashed {
      OverwrittenThere(blocks, e.c, path, was, at, rest);
    }
  }

  /** As SettlesBelow, with a height above both branches that is at least `u`. */
  lemma RestMeans(blocks: Blocks, c: Canon, path: Heights, top: nat, was: Heights, last: nat, j: nat, u: nat, s: nat,
                  stop: Option<Write>)
    returns (at: nat, up: nat)
    requires Whole(blocks, c, path, top, was, last, j, End(top, last)) && j <= s < top
    ensures var e := StaleRun(blocks, c, path, s, stop);
      && at <= j && up >= u && up > last && Broken(blocks, e.c, path, top, was, last, at, up)
      && if e.r == Crashed then Struck(e.c, path, top, stop)
         else if Walks(blocks, c, path, s) then Settled(blocks, e.c, path)
         else e.c == c && c.heights != path
  {
    at := SettlesBelow(blocks, c, path, top, was, last, j, s, stop);
    up := u + End(top, last);
    var e := StaleRun(blocks, c, path, s, stop);
    WholeIsBroken(blocks, e.c, path, top, was, last, at, End(top, last));
    NothingLeft(blocks, e.c, path, top, was, last, at, End(top, last), up);
    WholeIsBroken(blocks, e.c, path, top, was, last, at, up);
  }

  /** Where a part of recovery fails, its part of the height map stays as it was. */
  ghost predicate Blocked(blocks: Blocks, c: Canon, top: nat, k: nat, c': Canon) {
    if k > 0 && !Clears(blocks, c, top, k) then High(c, top) == High(c', top) else Low(c, top) == Low(c', top)
  }

  /** How recovery ends; whatever it does, a further recovery can start from there. */
  ghost predicate Ends(blocks: Blocks, c: Canon, path: Heights, top: nat, k: nat, s: nat, stop: Option<Write>, d: Ran)
    requires s in path
  {
    if d.r == Crashed then Struck(d.c, path, top, stop)
    else if Completes(blocks, c, path, top, k, s) then Settled(blocks, d.c, path)
    else
      d.c.heights != path && Blocked(blocks, c, top, k, d.c)
  }

  /**
    From any state that stops leave, recovery makes exactly the new branch canonical, with exact indices, if and only if
    Completes; and it leaves such a state again, wherever it stops.
   */
  lemma RecoverMeans(blocks: Blocks, c: Canon, path: Heights, top: nat, was: Heights, last: nat, j: nat, u: nat, k: nat,
                     s: nat, stop: Option<Write>)
    returns (at: nat, up: nat)
    requires Broken(blocks, c, path, top, was, last, j, u) && Pending(top, last, j, u, k, s)
    ensures Ends(blocks, c, path, top, k, s, stop, RecoverRun(blocks, c, path, k, s, stop))
    ensures Broken(blocks, RecoverRun(blocks, c, path, k, s, stop).c, path, top, was, last, at, up)
    ensures Pending(top, last, at, up, k, s)
  {
    at, up := j, u;
    if k == 0 {
      NothingLeft(blocks, c, path, top, was, last, j, u, End(top, last));
      at, up := RestMeans(blocks, c, path, top, was, last, j, u, s, stop);
    } else {
      var v := LargerMeans(blocks, c, path, top, was, last, j, u, k, stop);
      var d := LargerRun(blocks, c, k, stop);
      if !Clears(blocks, c, top, k) {
        at := StaysAbove(blocks, c, path, top, was, last, j, u, s, stop);
      } else if d.r == Crashed {
        up := v;
      } else {
        WalksSame(blocks, c, d.c, path, top, s);
        at, up := RestMeans(blocks, d.c, path, top, was, last, j, u, s, stop);
      }
    }
  }

  /** deleteCanonicalBlock where it has not been tried before: a stop in it loses what Loses says. */
  lemma FirstDrop(blocks: Blocks, c: Canon, path: Heights, top: nat, was: Heights, last: nat, k: nat,
                  stop: Option<Write>)
    requires Scene(blocks, path, top, was, last) && Cleared(blocks, c, path, top, was, k)
    ensures var d := DropRun(blocks, c, k, stop);
      && d.r != Failed && (d.r == No <==> k > last) && (d.r == Yes ==> stop != Some(DropHash(k)))
      && if d.r != Crashed then Cleared(blocks, d.c, path, top, was, k + 1)
         else
           && stop.Some? && Clearing(blocks, d.c, path, top, was, k)
           && (Missing(blocks, d.c, k) <==> Loses(blocks, path, top, was, stop.value))
           && (Loses(blocks, path, top, was, stop.value) ==> HeightOf(stop.value) == k)
  {
    ClearedIsClearing(blocks, c, path, top, was, k);
    ClearedAt(blocks, c, path, top, was, last, k);
    if k <= last {
      ClearGap(blocks, c, path, top, was, last, k);
      ClearStep(blocks, c, path, top, was, last, k);
    } else {
      assert Unfolded(c, 0);
    }
  }

  /** A stop in overwriteSingleStaleBlock, where it has not been tried before, loses what Loses says. */
  lemma PlaceTears(blocks: Blocks, c: Canon, path: Heights, top: nat, was: Heights, last: nat, n: nat, j: nat,
                   rest: Rest, stop: Option<Write>)
    requires Scene(blocks, path, top, was, last) && Remains(blocks, top, rest) && rest.lost == {}
    requires n == j + 1 <= top && Overwritten(blocks, c, path, was, n, rest)
    requires PlaceRun(blocks, c, path[j], stop).r == Crashed
    ensures stop.Some? && HeightOf(stop.value) == j
    ensures Stuck(blocks, PlaceRun(blocks, c, path[j], stop).c, path, j) <==> Loses(blocks, path, top, was, stop.value)
  {
    WalkAbove(blocks, c, path, top, was, last, j, rest);
    PathPrev(blocks, path, top, was, last, j);
    WalkGap(blocks, c, path, top, was, last, j, rest);
  }

  /** overwriteSingleStaleBlock where it has not been tried before. */
  lemma FirstPlace(blocks: Blocks, c: Canon, path: Heights, top: nat, was: Heights, last: nat, n: nat, j: nat,
                   rest: Rest, stop: Option<Write>)
    requires Scene(blocks, path, top, was, last) && Remains(blocks, top, rest) && rest.lost == {}
    requires n == j + 1 <= top && Overwritten(blocks, c, path, was, n, rest)
    ensures var d := PlaceRun(blocks, c, path[j], stop);
      && d.r != Failed && (d.r == No ==> j <= last && path[j] == was[j])
      && (d.r == Yes ==> stop != Some(AddIndices(j)) && stop != Some(PutHash(j)))
      && if d.r != Crashed then Overwritten(blocks, d.c, path, was, j, rest)
         else
           && stop.Some? && Overwriting(blocks, d.c, path, was, j, rest) && HeightOf(stop.value) == j
           && (Stuck(blocks, d.c, path, j) <==> Loses(blocks, path, top, was, stop.value))
  {
    WalkStep(blocks, c, path, top, was, last, n, j, rest, stop);
    PathPrev(blocks, path, top, was, last, j);
    if !Stale(c, path, j) {
      MeetBelow(blocks, c, path, top, was, last, n, j, rest);
    } else if PlaceRun(blocks, c, path[j], stop).r == Crashed {
      PlaceTears(blocks, c, path, top, was, last, n, j, rest, stop);
    }
  }

  /** At the height where the walk stands, it completes unless a debt is missing there. */
  lemma WalksHere(blocks: Blocks, c: Canon, path: Heights, top: nat, was: Heights, last: nat, j: nat, rest: Rest)
    requires Scene(blocks, path, top, was, last) && Remains(blocks, top, rest)
    requires j < top && Overwriting(blocks, c, path, was, j, rest)
    ensures Walks(blocks, c, path, j) <==> !Stuck(blocks, c, path, j)
  {
    if !Stale(c, path, j) {
      InPlaceIff(blocks, c, path, top, was, last, j, rest);
      if j > 0 {
        WalkAbove(blocks, c, path, top, was, last, j - 1, rest);
      }
    }
  }

  lemma GoneIsCleared(blocks: Blocks, c: Canon, path: Heights, top: nat, was: Heights, k: nat)
    requires Clearing(blocks, c, path, top, was, k) && k !in c.heights && Spans(path, top)
    ensures Cleared(blocks, c, path, top, was, k + 1)
  {
    assert Unfolded(c, 0);
  }

  /** The old block at `k` has gone already. */
  lemma FirstGone(blocks: Blocks, c: Canon, path: Heights, top: nat, was: Heights, last: nat, k: nat, u: nat, j: nat)
    requires top == j + 1 && u == k + 1 && Scene(blocks, path, top, was, last)
    requires Clearing(blocks, c, path, top, was, k) && k !in c.heights
    ensures Broken(blocks, c, path, top, was, last, j, u) && Completes(blocks, c, path, top, k, j)
  {
    GoneIsCleared(blocks, c, path, top, was, k);
    ClearedIsOverwriting(blocks, c, path, top, was, last, u, j);
    WholeIsBroken(blocks, c, path, top, was, last, j, u);
    OldAt(blocks, c, path, top, was, last, j, u);
    WalksHere(blocks, c, path, top, was, last, j, Rest(u, {}));
  }

  /** The old block at `k` is still there. */
  lemma FirstThere(blocks: Blocks, c: Canon, path: Heights, top: nat, was: Heights, last: nat, k: nat, j: nat)
    requires top == j + 1 && Scene(blocks, path, top, was, last) && Clearing(blocks, c, path, top, was, k)
    requires k in c.heights
    ensures Broken(blocks, c, path, top, was, last, j, k) && Walks(blocks, c, path, j)
    ensures Completes(blocks, c, path, top, k, j) <==> !Missing(blocks, c, k)
  {
    var rest := Rest(k, {c.heights[k]});
    TornIsOverwriting(blocks, c, path, top, was, last, k, j);
    TornIsOverwritten(blocks, c, path, top, was, last, k, j);
    WalkAbove(blocks, c, path, top, was, last, j, rest);
    WalksHere(blocks, c, path, top, was, last, j, rest);
  }

  /** After a first stop above the new head, recovery completes unless a debt is missing at the recorded height. */
  lemma FirstAbove(blocks: Blocks, c: Canon, path: Heights, top: nat, was: Heights, last: nat, k: nat, j: nat)
    returns (u: nat)
    requires top == j + 1 && Scene(blocks, path, top, was, last) && Clearing(blocks, c, path, top, was, k)
    ensures Broken(blocks, c, path, top, was, last, j, u) && Pending(top, last, j, u, k, j)
    ensures Completes(blocks, c, path, top, k, j) <==> !Missing(blocks, c, k)
    ensures k in c.heights ==> u == k
  {
    if k in c.heights {
      u := k;
      FirstThere(blocks, c, path, top, was, last, k, j);
    } else {
      u := k + 1;
      FirstGone(blocks, c, path, top, was, last, k, u, j);
    }
  }

  /** The same after a first stop below it. */
  lemma FirstBelow(blocks: Blocks, c: Canon, path: Heights, top: nat, was: Heights, last: nat, j: nat)
    requires Scene(blocks, path, top, was, last) && j < top
    requires Overwriting(blocks, c, path, was, j, Rest(End(top, last), {}))
    ensures Broken(blocks, c, path, top, was, last, j, End(top, last)) && Pending(top, last, j, End(top, last), 0, j)
    ensures Completes(blocks, c, path, top, 0, j) <==> !Stuck(blocks, c, path, j)
  {
    WholeIsBroken(blocks, c, path, top, was, last, j, End(top, last));
    WalksHere(blocks, c, path, top, was, last, j, Rest(End(top, last), {}));
  }
}
