/** Crashes during recovery itself (core/blockchain_recover.go). */
module SecondCrash {
  import opened Common
  import opened ChainIndex
  import opened Chain
  import opened CanonicalChain
  import opened Recovery
  import opened Reorg

  // Recovery does not move the recovery point, so the next one starts again where the first one did.

  /** Clearing from `u` stops at height `i`, and loses what Loses says. */
  lemma {:induction false} ClearStopsAt(blocks: Blocks, c: Canon, path: Heights, top: nat, was: Heights, last: nat,
                                        u: nat, i: nat, w: Write)
    requires Scene(blocks, path, top, was, last) && Cleared(blocks, c, path, top, was, u) && u <= i <= last
    requires w == DropIndices(i) || w == DropHash(i)
    ensures var d := ClearRun(blocks, c, u, Some(w));
      && d.r == Crashed && Clearing(blocks, d.c, path, top, was, i) && i in d.c.heights
      && (Missing(blocks, d.c, i) <==> Loses(blocks, path, top, was, w))
    decreases i - u
  {
    FirstDrop(blocks, c, path, top, was, last, u, Some(w));
    ClearedAt(blocks, c, path, top, was, last, u);
    if u < i {
      ClearStopsAt(blocks, DropRun(blocks, c, u, Some(w)).c, path, top, was, last, u + 1, i, w);
    }
  }

  /**
    Nothing is half done, recovery clears from height `k` and stops at height `i`: the next one completes if and only if
    at most one block had gone and no debt entry is lost.
   */
  lemma SecondAbove(blocks: Blocks, c: Canon, path: Heights, top: nat, was: Heights, last: nat, k: nat, i: nat, j: nat,
                    w: Write)
    requires top == j + 1 && Scene(blocks, path, top, was, last) && Cleared(blocks, c, path, top, was, k)
    requires k <= i <= last && (w == DropIndices(i) || w == DropHash(i))
    ensures var d := RecoverRun(blocks, c, path, k, j, Some(w));
      && d.r == Crashed && Keeps(d.c, was, i) && Walks(blocks, d.c, path, j)
      && (Completes(blocks, d.c, path, top, k, j) <==> i <= k + 1 && !Loses(blocks, path, top, was, w))
  {
    ClearStopsAt(blocks, c, path, top, was, last, k, i, w);
    var d := ClearRun(blocks, c, k, Some(w));
    assert LargerRun(blocks, c, k, Some(w)) == d;
    FirstThere(blocks, d.c, path, top, was, last, i, j);
    OldAt(blocks, d.c, path, top, was, last, j, i);
  }

  /** Above a height at which the branches differ, they differ. */
  lemma DifferAbove(blocks: Blocks, path: Heights, top: nat, was: Heights, last: nat, i: nat, h: nat)
    requires Scene(blocks, path, top, was, last) && i <= h <= top && (i in was ==> path[i] != was[i])
    ensures h in was ==> path[h] != was[h]
  {
    assert Seen(path, 0);
    if h in was && path[h] == was[h] {
      SharedBelow(blocks, path, top, was, last, h, i);
    }
  }

  /** A write of overwriteSingleStaleBlock at height `i`. */
  predicate Writes(w: Write, was: Heights, i: nat) {
    (w == DropIndices(i) && i in was) || w == AddIndices(i) || w == PutHash(i)
  }

  /** Overwriting height `j` above the stop. */
  lemma PassesBy(blocks: Blocks, c: Canon, path: Heights, top: nat, was: Heights, last: nat, n: nat, j: nat, i: nat,
                 rest: Rest, w: Write)
    requires Scene(blocks, path, top, was, last) && Remains(blocks, top, rest) && rest.lost == {}
    requires i <= j && n == j + 1 <= top && Overwritten(blocks, c, path, was, n, rest)
    requires Writes(w, was, i) && (i in was ==> path[i] != was[i])
    ensures var d := PlaceRun(blocks, c, path[j], Some(w));
      if i < j then d.r == Yes && Overwritten(blocks, d.c, path, was, j, rest)
      else
        && d.r == Crashed && Overwriting(blocks, d.c, path, was, i, rest) && Stale(d.c, path, i)
        && (Missing(blocks, d.c, i) <==> Loses(blocks, path, top, was, w))
  {
    DifferAbove(blocks, path, top, was, last, i, j);
    FirstPlace(blocks, c, path, top, was, last, n, j, rest, Some(w));
    WalkAbove(blocks, c, path, top, was, last, j, rest);
    PathPrev(blocks, path, top, was, last, j);
  }

  /** Walking down from `n` stops at height `i`, and loses what Loses says. */
  lemma {:induction false} WalkStopsAt(blocks: Blocks, c: Canon, path: Heights, top: nat, was: Heights, last: nat,
                                       n: nat, i: nat, rest: Rest, w: Write)
    requires Scene(blocks, path, top, was, last) && Remains(blocks, top, rest) && rest.lost == {}
    requires i < n <= top && Overwritten(blocks, c, path, was, n, rest)
    requires Writes(w, was, i) && (i in was ==> path[i] != was[i])
    ensures var d := WalkRun(blocks, c, path, n, Some(w));
      && d.r == Crashed && Overwriting(blocks, d.c, path, was, i, rest) && Stale(d.c, path, i)
      && (Missing(blocks, d.c, i) <==> Loses(blocks, path, top, was, w))
    decreases n
  {
    var j: nat := n - 1;
    PassesBy(blocks, c, path, top, was, last, n, j, i, rest, w);
    if i < j {
      WalkStopsAt(blocks, PlaceRun(blocks, c, path[j], Some(w)).c, path, top, was, last, j, i, rest, w);
    }
  }

  /** Where the walk stands at `i`, OverwriteStaleBlocks from `s` gets through if it comes there and finds all debts. */
  lemma WalksIff(blocks: Blocks, c: Canon, path: Heights, top: nat, was: Heights, last: nat, s: nat, i: nat, rest: Rest)
    requires Scene(blocks, path, top, was, last) && i <= s < top
    requires Overwriting(blocks, c, path, was, i, rest) && Stale(c, path, i)
    ensures Walks(blocks, c, path, s) <==> i + 1 >= s && !Missing(blocks, c, i)
  {
    if s > i {
      AboveInPlace(blocks, c, path, top, was, last, i, rest, s, None);
    }
    if s > i + 1 {
      AboveInPlace(blocks, c, path, top, was, last, i, rest, s - 1, None);
    }
  }

  /** OverwriteStaleBlocks from height `s` stops at `i`: the next one gets through if at most one block was done. */
  lemma StaleStopsAt(blocks: Blocks, c: Canon, path: Heights, top: nat, was: Heights, last: nat, n: nat, s: nat, i: nat,
                     rest: Rest, w: Write)
    requires Scene(blocks, path, top, was, last) && i <= s && n == s + 1 <= top && rest == Rest(End(top, last), {})
    requires Overwritten(blocks, c, path, was, n, rest)
    requires Writes(w, was, i) && (i in was ==> path[i] != was[i])
    ensures var d := StaleRun(blocks, c, path, s, Some(w));
      && d.r == Crashed && Overwriting(blocks, d.c, path, was, i, rest) && Stale(d.c, path, i)
      && (Walks(blocks, d.c, path, s) <==> i + 1 >= s && !Loses(blocks, path, top, was, w))
  {
    WalkStopsAt(blocks, c, path, top, was, last, n, i, rest, w);
    PassesBy(blocks, c, path, top, was, last, n, s, i, rest, w);
    var d := WalkRun(blocks, c, path, n, Some(w));
    assert StaleRun(blocks, c, path, s, Some(w)) == d;
    WalksIff(blocks, d.c, path, top, was, last, s, i, rest);
  }

  /** Clearing does not meet a stop below the new head. */
  lemma {:induction false} ClearsPast(blocks: Blocks, c: Canon, path: Heights, top: nat, was: Heights, last: nat,
                                      u: nat, w: Write)
    requires Scene(blocks, path, top, was, last) && Cleared(blocks, c, path, top, was, u) && HeightOf(w) <= top
    ensures var d := ClearRun(blocks, c, u, Some(w));
      d.r == Yes && Cleared(blocks, d.c, path, top, was, End(top, last))
    decreases last + 1 - u
  {
    FirstDrop(blocks, c, path, top, was, last, u, Some(w));
    if u <= last {
      ClearsPast(blocks, DropRun(blocks, c, u, Some(w)).c, path, top, was, last, u + 1, w);
    } else {
      ClearedAll(blocks, c, path, top, was, last, u);
    }
  }

  lemma LargerPasses(blocks: Blocks, c: Canon, path: Heights, top: nat, was: Heights, last: nat, k: nat, w: Write)
    requires Scene(blocks, path, top, was, last) && Cleared(blocks, c, path, top, was, k) && HeightOf(w) <= top
    ensures var d := LargerRun(blocks, c, k, Some(w));
      d.r == Yes && Overwritten(blocks, d.c, path, was, top, Rest(End(top, last), {}))
  {
    FirstDrop(blocks, c, path, top, was, last, k, Some(w));
    var d := DropRun(blocks, c, k, Some(w));
    ClearsPast(blocks, d.c, path, top, was, last, k + 1, w);
    ClearedIsOverwritten(blocks, ClearRun(blocks, d.c, k + 1, Some(w)).c, path, top, was, last, End(top, last));
  }

  /** With nothing above the new head, there is nothing to clear. */
  lemma ClearsNothing(blocks: Blocks, c: Canon, path: Heights, top: nat, was: Heights, last: nat, j: nat, k: nat)
    requires Scene(blocks, path, top, was, last) && j < top < k
    requires Overwriting(blocks, c, path, was, j, Rest(End(top, last), {}))
    ensures Clears(blocks, c, top, k)
  {
    WholeIsBroken(blocks, c, path, top, was, last, j, End(top, last));
    OldAt(blocks, c, path, top, was, last, j, End(top, last));
  }

  /**
    Nothing is half done, recovery clears from height `k`, then overwrites from the parent of the head down and stops at
    height `i`: the next one completes if and only if at most one block had been overwritten and no debt entry is lost.
   */
  lemma SecondBelow(blocks: Blocks, c: Canon, path: Heights, top: nat, was: Heights, last: nat, k: nat, i: nat, j: nat,
                    w: Write)
    requires top == j + 1 && Scene(blocks, path, top, was, last) && Cleared(blocks, c, path, top, was, k) && i <= j
    requires Writes(w, was, i) && (i in was ==> path[i] != was[i])
    ensures var d := RecoverRun(blocks, c, path, k, j, Some(w));
      && d.r == Crashed && Clears(blocks, d.c, top, k) && (i in was ==> Keeps(d.c, was, i))
      && (Completes(blocks, d.c, path, top, k, j) <==> i + 1 >= j && !Loses(blocks, path, top, was, w))
  {
    var rest, e := Rest(End(top, last), {}), LargerRun(blocks, c, k, Some(w));
    LargerPasses(blocks, c, path, top, was, last, k, w);
    StaleStopsAt(blocks, e.c, path, top, was, last, top, j, i, rest, w);
    var d := StaleRun(blocks, e.c, path, j, Some(w));
    ClearsNothing(blocks, d.c, path, top, was, last, i, k);
    assert Unfolded(d.c, 0);
  }

  /** The state from which the last recovery starts, when each write of `ws` stops a recovery that comes to it. */
  ghost function LastStart(blocks: Blocks, c: Canon, path: Heights, k: nat, s: nat, ws: seq<Write>): Canon
    requires s in path
    decreases |ws|
  {
    if ws == [] then c
    else
      var d := RecoverRun(blocks, c, path, k, s, Some(ws[0]));
      if d.r == Crashed || ws[0] == SaveStale(EMPTY_HASH) then LastStart(blocks, d.c, path, k, s, ws[1..]) else c
  }

  /** What a recovery that starts from `c` and does not stop comes to. */
  ghost predicate Results(blocks: Blocks, c: Canon, path: Heights, top: nat, k: nat, s: nat, c': Canon)
    requires s in path
  {
    if Completes(blocks, c, path, top, k, s) then Settled(blocks, c', path)
    else c'.heights != path && Blocked(blocks, c, top, k, c')
  }

  /**
    The machine stops again and again during recovery: in the end exactly the new branch is canonical, with exact
    indices, if and only if the last recovery started where it completes.
   */
  method RecoverAtLast(st: Store, ws: seq<Write>, ghost path: Heights, ghost top: nat, ghost was: Heights,
                       ghost last: nat, ghost s: nat)
    requires st.Fixing(path, top, was, last) && st.stale != EMPTY_HASH && s in path
    requires st.stale in st.blocks && st.blocks[st.stale].height == s
    modifies st
    ensures st.blocks == old(st.blocks) && st.head == old(st.head) && st.stop.None?
    ensures Results(st.blocks, LastStart(st.blocks, old(st.canon), path, old(st.larger), s, ws), path, top,
                    old(st.larger), s, st.canon)
  {
    for i := 0 to |ws|
      invariant st.blocks == old(st.blocks) && st.head == old(st.head) && st.larger == old(st.larger)
      invariant st.stale == old(st.stale) && st.Fixing(path, top, was, last)
      invariant LastStart(st.blocks, old(st.canon), path, old(st.larger), s, ws)
             == LastStart(st.blocks, st.canon, path, st.larger, s, ws[i..])
    {
      st.stop := Some(ws[i]);
      assert ws[i..][0] == ws[i] && ws[i..][1..] == ws[i + 1..];
      var r := st.Recover(path, top, was, last);
      if r == Yes {
        st.stop := None;
        return;
      }
    }
    st.stop := None;
    var _ := st.Recover(path, top, was, last);
  }

  /** Recovery, started right after onPutBlockEnd, comes to the write `w`. */
  ghost predicate Reached(path: Heights, top: nat, was: Heights, w: Write) {
    if HeightOf(w) > top then (w.DropIndices? || w.DropHash?) && w.height in was
    else
      && HeightOf(w) < top && Writes(w, was, HeightOf(w)) && w.height in path
      && (w.height in was ==> path[w.height] != was[w.height])
  }

  /** At most one block above the new head had gone, or at most one below it had been overwritten. */
  predicate Near(top: nat, w: Write) {
    top <= HeightOf(w) + 2 <= top + 4
  }

  /** The machine has stopped right after onPutBlockEnd, and stops before `w` during recovery. */
  lemma SecondStop(blocks: Blocks, c: Canon, path: Heights, top: nat, was: Heights, last: nat, j: nat, w: Write)
    requires top == j + 1 && Scene(blocks, path, top, was, last) && Cleared(blocks, c, path, top, was, top + 1)
    requires Reached(path, top, was, w)
    ensures var d := RecoverRun(blocks, c, path, top + 1, j, Some(w));
      && d.r == Crashed && (w.height in was ==> Keeps(d.c, was, w.height))
      && (if w.height > top then Walks(blocks, d.c, path, j) else Clears(blocks, d.c, top, top + 1))
      && (Completes(blocks, d.c, path, top, top + 1, j) <==> Near(top, w) && !Loses(blocks, path, top, was, w))
  {
    if HeightOf(w) > top {
      SecondAbove(blocks, c, path, top, was, last, top + 1, w.height, j, w);
    } else {
      SecondBelow(blocks, c, path, top, was, last, top + 1, w.height, j, w);
    }
  }

  /** A write that still has to come is one that recovery comes to. */
  lemma StruckIsReached(blocks: Blocks, c: Canon, path: Heights, top: nat, was: Heights, last: nat, j: nat, u: nat,
                        w: Write)
    requires Broken(blocks, c, path, top, was, last, j, u) && Struck(c, path, top, Some(w))
    ensures Reached(path, top, was, w)
  {
    OldAt(blocks, c, path, top, was, last, j, u);
    assert Unfolded(c, 0);
    FormIs(blocks, c, path, was, j, u, Leaving(c, u));
  }

  lemma SettledCompletes(blocks: Blocks, c: Canon, path: Heights, top: nat, k: nat, s: nat)
    requires Settled(blocks, c, path) && Spans(path, top) && s in path && k > top
    ensures Completes(blocks, c, path, top, k, s)
  {
    SettledHeights(blocks, c, path);
  }

  /** Where the machine has stopped right after onPutBlockEnd, recovery completes. */
  lemma FreshCompletes(blocks: Blocks, c: Canon, path: Heights, top: nat, was: Heights, last: nat, k: nat, j: nat)
    returns (u: nat)
    requires top == j + 1 && k == top + 1 && Scene(blocks, path, top, was, last)
    requires Cleared(blocks, c, path, top, was, k)
    ensures Broken(blocks, c, path, top, was, last, j, u) && Pending(top, last, j, u, k, j)
    ensures Completes(blocks, c, path, top, k, j)
  {
    ClearedIsClearing(blocks, c, path, top, was, k);
    ClearedIsOverwriting(blocks, c, path, top, was, last, k, j);
    WholeIsBroken(blocks, c, path, top, was, last, j, k);
    u := FirstAbove(blocks, c, path, top, was, last, k, j);
  }

  /** The same for every write, wherever the last recovery starts. */
  lemma SecondStart(blocks: Blocks, c: Canon, path: Heights, top: nat, was: Heights, last: nat, k: nat, j: nat,
                    w: Write)
    requires top == j + 1 && k == top + 1 && Scene(blocks, path, top, was, last)
    requires Cleared(blocks, c, path, top, was, k)
    ensures Completes(blocks, LastStart(blocks, c, path, k, j, [w]), path, top, k, j) <==>
      !Spoils(blocks, path, top, was, w)
  {
    var d := RecoverRun(blocks, c, path, k, j, Some(w));
    assert [w][1..] == [];
    if Reached(path, top, was, w) {
      SecondStop(blocks, c, path, top, was, last, j, w);
    } else {
      var u := FreshCompletes(blocks, c, path, top, was, last, k, j);
      var at, up := RecoverMeans(blocks, c, path, top, was, last, j, u, k, j, Some(w));
      if d.r == Crashed {
        StruckIsReached(blocks, d.c, path, top, was, last, at, up, w);
      } else {
        SettledCompletes(blocks, d.c, path, top, k, j);
      }
    }
  }

  /** Recovery comes to the write `w`, and the next one does not complete. */
  ghost predicate Spoils(blocks: Blocks, path: Heights, top: nat, was: Heights, w: Write) {
    Reached(path, top, was, w) && !(Near(top, w) && !Loses(blocks, path, top, was, w))
  }

  /** Where the next recovery does not complete, the old block at the height of the stop stays. */
  lemma SecondResult(blocks: Blocks, c: Canon, path: Heights, top: nat, was: Heights, last: nat, k: nat, j: nat,
                     w: Write, c': Canon)
    requires top == j + 1 && k == top + 1 && Scene(blocks, path, top, was, last)
    requires Cleared(blocks, c, path, top, was, k)
    requires Results(blocks, LastStart(blocks, c, path, k, j, [w]), path, top, k, j, c')
    ensures if Spoils(blocks, path, top, was, w)
      then c'.heights != path && (w.height in was ==> Keeps(c', was, w.height))
      else Settled(blocks, c', path)
  {
    SecondStart(blocks, c, path, top, was, last, k, j, w);
    if Spoils(blocks, path, top, was, w) {
      SecondStop(blocks, c, path, top, was, last, j, w);
      assert [w][1..] == [];
      var d := RecoverRun(blocks, c, path, k, j, Some(w));
      if w.height > top {
        assert w.height in High(d.c, top) <==> w.height in d.c.heights;
      } else {
        assert w.height in Low(d.c, top) <==> w.height in d.c.heights;
      }
    }
  }

  /** What the first stop leaves. */
  lemma Stopped(st: Store, b: Block, genesis: BlockHash, path: Heights, was: Heights, last: nat, j: nat, k: nat)
    requires st.Started(genesis, b, path, was, last) && b.height == j + 1 && k == b.height + 1
    ensures st.Fixing(path, b.height, was, last) && st.stale in st.blocks && st.stale != EMPTY_HASH
    ensures st.blocks[st.stale].height == j && j in path && st.larger == k
    ensures Scene(st.blocks, path, b.height, was, last) && Cleared(st.blocks, st.canon, path, b.height, was, k)
  {
    assert Seen(path, 0);
    ClearedIsClearing(st.blocks, st.canon, path, b.height, was, k);
    st.StoppedAbove(path, b.height, was, last, j);
  }

  /**
    A new head is written, the machine stops right after onPutBlockEnd, stops again before the write `w` of recovery, if
    it comes to that, and recovers: the store is as after an uninterrupted write if and only if at most one block had
    gone or been overwritten and no debt entry is lost.
   */
  method StopTwice(st: Store, b: Block, w: Write, ghost genesis: BlockHash) returns (ghost path: Heights)
    requires st.Canonical(genesis) && st.Extendable(genesis, b)
    modifies st
    ensures st.blocks == old(st.blocks)[b.hash := b] && st.head == b.hash && st.HeadPath(genesis, path)
    ensures var was := old(st.canon).heights;
      && (st.Canonical(genesis) <==> !Spoils(st.blocks, path, b.height, was, w))
      && (Spoils(st.blocks, path, b.height, was, w) && w.height in was ==> Keeps(st.canon, was, w.height))
  {
    ghost var was, last;
    path, was, last := st.Begin(b, genesis);
    assert b.height > 0 by {
      assert Seen(path, 0);
    }
    ghost var j: nat, k: nat := b.height - 1, b.height + 1;
    Stopped(st, b, genesis, path, was, last, j, k);
    ghost var c := st.canon;
    RecoverAtLast(st, [w], path, b.height, was, last, j);
    SecondResult(st.blocks, c, path, b.height, was, last, k, j, w, st.canon);
    st.CanonicalFrom(genesis, path);
  }
}
