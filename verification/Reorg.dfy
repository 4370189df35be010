/** The canonical chain of the store while a new head is written (core/blockchain.go, core/blockchain_recover.go). */
module Reorg {
  import opened Common
  import opened ChainIndex
  import opened Chain
  import opened CanonicalChain
  import opened Recovery

  class Store {
    var blocks: Blocks
    var canon: Canon
    var head: BlockHash
    /** The persisted recovery point. */
    var larger: nat
    var stale: BlockHash
    /** The write before which the machine stops, if it does. */
    var stop: Option<Write>

    /** A store whose machine is up and has nothing to recover. */
    constructor (blocks: Blocks, canon: Canon, head: BlockHash)
      ensures this.blocks == blocks && this.canon == canon && this.head == head && larger == 0 && stale == EMPTY_HASH
      ensures stop == None
    {
      this.blocks, this.canon, this.head, larger, stale, stop := blocks, canon, head, 0, EMPTY_HASH, None;
    }

    predicate Survives(w: Write)
      reads this`stop
    {
      stop != Some(w)
    }

    /** DeleteIndices; fails when a debt of the block is not indexed. */
    method DeleteIndices(b: Block, at: nat) returns (r: Outcome)
      modifies this`canon
      ensures r == Failed <==> exists d :: d in b.debts && d !in old(canon).debtIndex
      ensures r != Failed ==> r == if Survives(DropIndices(at)) then Yes else Crashed
      ensures canon == if r == Yes then Unindexed(old(canon), b) else old(canon)
    {
      for i := 0 to |b.debts|
        invariant forall d :: d in b.debts[..i] ==> d in canon.debtIndex
      {
        if b.debts[i] !in canon.debtIndex {
          return Failed;
        }
      }
      if !Survives(DropIndices(at)) {
        return Crashed;
      }
      canon := Unindexed(canon, b);
      return Yes;
    }

    /** deleteCanonicalBlock */
    method DeleteCanonical(k: nat) returns (r: Outcome)
      modifies this`canon
      ensures Ran(canon, r) == DropRun(blocks, old(canon), k, stop)
    {
      if k !in canon.heights {
        return No;
      }
      if canon.heights[k] !in blocks {
        return Failed;
      }
      r := DeleteIndices(blocks[canon.heights[k]], k);
      if r != Yes {
        return;
      }
      if !Survives(DropHash(k)) {
        return Crashed;
      }
      canon := canon.(heights := canon.heights - {k});
    }

    /** onDeleteLargerHeightBlocks */
    method RecordLarger(k: nat) returns (up: bool)
      modifies this`larger
      ensures up <==> Survives(SaveLarger(k))
      ensures larger == if up then k else old(larger)
    {
      up := Survives(SaveLarger(k));
      if up {
        larger := k;
      }
    }

    /** A stop while the blocks above the new head are cleared. */
    ghost predicate StoppedAt(path: Heights, top: nat, was: Heights, at: nat)
      reads this`blocks, this`canon, this`larger, this`stop
    {
      && Clearing(blocks, canon, path, top, was, at) && larger == at && stop.Some?
      && (Missing(blocks, canon, at) <==> Loses(blocks, path, top, was, stop.value))
      && (Loses(blocks, path, top, was, stop.value) ==> HeightOf(stop.value) == at)
    }

    /** Cleared up to `k`, where the recovery point stands. */
    ghost predicate ClearedTo(path: Heights, top: nat, was: Heights, last: nat, k: nat)
      reads this`blocks, this`canon, this`larger
    {
      Scene(blocks, path, top, was, last) && Cleared(blocks, canon, path, top, was, k) && larger == k
    }

    /** Cleared below `k`, and the recovery point stands one lower. */
    ghost predicate ClearedBelow(path: Heights, top: nat, was: Heights, last: nat, k: nat)
      reads this`blocks, this`canon, this`larger
    {
      k > top + 1 && Scene(blocks, path, top, was, last) && Cleared(blocks, canon, path, top, was, k) && larger == k - 1
    }

    /** onDeleteLargerHeightBlocks in the loop: the recovery point moves to `k`. */
    method MoveUp(k: nat, ghost path: Heights, ghost top: nat, ghost was: Heights, ghost last: nat)
      returns (up: bool, ghost at: nat)
      requires ClearedBelow(path, top, was, last, k)
      modifies this`larger
      ensures (stop.None? ==> up) && (up ==> at == k && ClearedTo(path, top, was, last, k))
      ensures !up ==> StoppedAt(path, top, was, at)
    {
      at := k - 1;
      ClearingBelow(blocks, canon, path, top, was, last, k, at);
      up := RecordLarger(k);
      if up {
        at := k;
      }
    }

    /** One round of DeleteLargerHeightBlocks; with `record`, the recovery point moves first. */
    method ClearRound(k: nat, record: bool, ghost path: Heights, ghost top: nat, ghost was: Heights, ghost last: nat)
      returns (r: Outcome, ghost at: nat)
      requires record ==> ClearedBelow(path, top, was, last, k)
      modifies this`canon, this`larger
      ensures !record ==> Ran(canon, r) == DropRun(blocks, old(canon), k, stop) && larger == old(larger)
      ensures r == Yes ==> k in old(canon).heights && canon.heights == old(canon).heights - {k}
      ensures record ==> r != Failed && (stop.None? ==> r != Crashed)
      ensures record && r == Crashed ==> StoppedAt(path, top, was, at)
      ensures record && r != Crashed ==>
        && ClearedBelow(path, top, was, last, k + 1) && (r == No <==> k > last)
        && (k <= last ==> Survives(DropHash(k)))
    {
      at := k;
      if record {
        var up;
        up, at := MoveUp(k, path, top, was, last);
        if !up {
          return Crashed, at;
        }
        FirstDrop(blocks, canon, path, top, was, last, k, stop);
      }
      r := DeleteCanonical(k);
    }

    /** A stop in the middle of deleteCanonicalBlock at some height from `k` up did not happen. */
    ghost predicate ClearedPast(k: nat, last: nat)
      reads this`stop
    {
      stop.Some? && stop.value.DropHash? && k <= stop.value.height ==> stop.value.height > last
    }

    /** Everything above the new head is cleared, and no stop in between has happened. */
    ghost predicate AllCleared(path: Heights, top: nat, was: Heights, last: nat, k: nat)
      reads this`blocks, this`canon, this`larger, this`stop
    {
      Cleared(blocks, canon, path, top, was, End(top, last)) && ClearedPast(k, last) && larger == 0
    }

    /** The loop of DeleteLargerHeightBlocks, from height `k`. */
    method ClearOn(k: nat, record: bool, ghost path: Heights, ghost top: nat, ghost was: Heights, ghost last: nat)
      returns (r: Outcome, ghost at: nat)
      requires record ==> ClearedBelow(path, top, was, last, k)
      modifies this`canon, this`larger
      ensures !record ==> Ran(canon, r) == ClearRun(blocks, old(canon), k, stop) && larger == old(larger)
      ensures record ==> (r == Yes || r == Crashed) && (stop.None? ==> r == Yes)
      ensures record && r == Crashed ==> StoppedAt(path, top, was, at)
      ensures record && r == Yes ==> AllCleared(path, top, was, last, k)
    {
      var i := k;
      while true
        invariant i >= k && (record ==> ClearedBelow(path, top, was, last, i))
        invariant record ==> ClearedPast(k, if i <= last then i - 1 else last)
        invariant !record ==> ClearRun(blocks, old(canon), k, stop) == ClearRun(blocks, canon, i, stop)
        invariant !record ==> larger == old(larger)
        decreases |canon.heights.Keys|
      {
        ghost var keys := canon.heights.Keys;
        r, at := ClearRound(i, record, path, top, was, last);
        if r == Crashed || r == Failed {
          return;
        }
        if r == No {
          break;
        }
        assert keys == canon.heights.Keys + {i};
        i := i + 1;
      }
      r := Yes;
      if record {
        r, at := ClearEnds(i, path, top, was, last);
      }
    }

    /** With nothing left to clear, the recovery point is reset. */
    method ClearEnds(i: nat, ghost path: Heights, ghost top: nat, ghost was: Heights, ghost last: nat)
      returns (r: Outcome, ghost at: nat)
      requires i > last && ClearedBelow(path, top, was, last, i + 1)
      modifies this`larger
      ensures (r == Yes || r == Crashed) && (stop.None? ==> r == Yes)
      ensures r == Crashed ==> StoppedAt(path, top, was, at)
      ensures r == Yes ==> Cleared(blocks, canon, path, top, was, End(top, last)) && larger == 0
    {
      ClearingBelow(blocks, canon, path, top, was, last, i + 1, i);
      ClearedAll(blocks, canon, path, top, was, last, i + 1);
      at := i;
      var up := RecordLarger(0);
      r := if up then Yes else Crashed;
    }

    /** DeleteLargerHeightBlocks; `record` says whether a recovery point follows it. */
    method DeleteLarger(k: nat, record: bool, ghost path: Heights, ghost top: nat, ghost was: Heights, ghost last: nat)
      returns (r: Outcome, ghost at: nat)
      requires record ==> ClearedTo(path, top, was, last, k)
      modifies this`canon, this`larger
      ensures !record ==> Ran(canon, r) == LargerRun(blocks, old(canon), k, stop) && larger == old(larger)
      ensures record ==> (r == Yes || r == Crashed) && (stop.None? ==> r == Yes)
      ensures record && r == Crashed ==> StoppedAt(path, top, was, at)
      ensures record && r == Yes ==> AllCleared(path, top, was, last, k)
    {
      if record {
        FirstDrop(blocks, canon, path, top, was, last, k, stop);
      }
      at := k;
      r := DeleteCanonical(k);
      if r == Crashed || r == Failed {
        return;
      }
      r, at := ClearOn(k + 1, record, path, top, was, last);
    }

    /** overwriteSingleStaleBlock */
    method OverwriteSingle(hash: BlockHash) returns (r: Outcome, prev: BlockHash)
      modifies this`canon
      ensures Ran(canon, r) == PlaceRun(blocks, old(canon), hash, stop)
      ensures hash in blocks ==> prev == blocks[hash].prev
    {
      if hash !in blocks {
        return Failed, EMPTY_HASH;
      }
      var header := blocks[hash];
      prev := header.prev;
      if header.height in canon.heights {
        var canonical := canon.heights[header.height];
        if hash == canonical {
          return No, prev;
        }
        if canonical !in blocks {
          return Failed, prev;
        }
        r := DeleteIndices(blocks[canonical], header.height);
        if r != Yes {
          return;
        }
      }
      if !Survives(AddIndices(header.height)) {
        return Crashed, prev;
      }
      canon := Reindexed(canon, header);
      if !Survives(PutHash(header.height)) {
        return Crashed, prev;
      }
      canon := canon.(heights := canon.heights[header.height := hash]);
      r := Yes;
    }

    /** onOverwriteStaleBlocks */
    method RecordStale(h: BlockHash) returns (up: bool)
      modifies this`stale
      ensures up <==> Survives(SaveStale(h))
      ensures stale == if up then h else old(stale)
    {
      up := Survives(SaveStale(h));
      if up {
        stale := h;
      }
    }

    /** A stop while the old branch below the new head is overwritten. */
    ghost predicate StoppedWalk(path: Heights, top: nat, was: Heights, rest: Rest, at: nat)
      reads this`blocks, this`canon, this`stale, this`stop
    {
      stop.Some? && forall k: nat {:trigger Stood(rest, k)} :: Stood(rest, k) ==>
        && at in path && stale != EMPTY_HASH && WalkAt(blocks, canon, stale, path, top, was, rest, at)
        && (Stuck(blocks, canon, path, at) <==> Loses(blocks, path, top, was, stop.value))
        && (Loses(blocks, path, top, was, stop.value) ==> HeightOf(stop.value) == at)
    }

    /** A stop that loses a debt did not happen at the heights from `low` to below `high`. */
    ghost predicate Passed(path: Heights, top: nat, was: Heights, low: nat, high: nat)
      reads this`blocks, this`stop
    {
      stop.Some? && (stop.value.AddIndices? || stop.value.PutHash?) && low <= stop.value.height < high ==>
        !Loses(blocks, path, top, was, stop.value)
    }

    /** The walk has overwritten height `at`, the recovery point is there, and no stop above it has lost a debt. */
    ghost predicate OnWalk(path: Heights, top: nat, was: Heights, last: nat, rest: Rest, at: nat)
      reads this`blocks, this`canon, this`stale, this`stop
    {
      forall k: nat {:trigger Stood(rest, k)} :: Stood(rest, k) ==>
        && Scene(blocks, path, top, was, last) && at < top && Overwritten(blocks, canon, path, was, at, rest)
        && Remains(blocks, top, rest) && rest.lost == {}
        && at in path && stale == path[at] && Passed(path, top, was, at, top)
    }

    /** The walk is about to overwrite height `j`, below `n`, and the recovery point is there already. */
    ghost predicate Facing(path: Heights, top: nat, was: Heights, last: nat, rest: Rest, n: nat, j: nat)
      reads this`blocks, this`canon, this`stale, this`stop
    {
      forall k: nat {:trigger Stood(rest, k)} :: Stood(rest, k) ==>
        && Scene(blocks, path, top, was, last) && n == j + 1 <= top && Overwritten(blocks, canon, path, was, n, rest)
        && Remains(blocks, top, rest) && rest.lost == {}
        && j in path && stale == path[j] && Passed(path, top, was, n, top)
    }

    /** What overwriting height `j` leads to. */
    ghost predicate Placed(path: Heights, top: nat, was: Heights, last: nat, rest: Rest, j: nat, r: Outcome)
      reads this`blocks, this`canon, this`stale, this`stop
    {
      if r == Crashed then StoppedWalk(path, top, was, rest, j)
      else r != Failed && OnWalk(path, top, was, last, rest, j) && (r == No ==> Meets(path, was, j))
    }

    /** overwriteSingleStaleBlock at height `j`; with `record`, it has not been tried there before. */
    method OverwriteAt(hash: BlockHash, record: bool, ghost path: Heights, ghost top: nat, ghost was: Heights,
                       ghost last: nat, ghost n: nat, ghost j: nat, ghost rest: Rest)
      returns (r: Outcome, prev: BlockHash)
      requires Scene(blocks, path, top, was, last) && j < top && hash == path[j]
      requires record ==> Facing(path, top, was, last, rest, n, j)
      modifies this`canon
      ensures !record ==> Ran(canon, r) == PlaceRun(blocks, old(canon), path[j], stop)
      ensures record ==> Placed(path, top, was, last, rest, j, r) && (stop.None? ==> r != Crashed)
      ensures prev == Below(path, j)
    {
      PathPrev(blocks, path, top, was, last, j);
      if record {
        FacingLeads(path, top, was, last, rest, n, j);
      }
      r, prev := OverwriteSingle(hash);
    }

    /** Where the walk goes from there. */
    lemma FacingLeads(path: Heights, top: nat, was: Heights, last: nat, rest: Rest, n: nat, j: nat)
      requires Facing(path, top, was, last, rest, n, j)
      ensures Scene(blocks, path, top, was, last) && Remains(blocks, top, rest) && rest.lost == {}
      ensures j < top && j in path && stale == path[j] != EMPTY_HASH
      ensures var d := PlaceRun(blocks, canon, path[j], stop);
        && d.r != Failed && (d.r == No ==> Meets(path, was, j))
        && if d.r != Crashed then Overwritten(blocks, d.c, path, was, j, rest) && Passed(path, top, was, j, top)
           else
             && stop.Some? && Overwriting(blocks, d.c, path, was, j, rest) && HeightOf(stop.value) == j
             && (Stuck(blocks, d.c, path, j) <==> Loses(blocks, path, top, was, stop.value))
    {
      FacingMeans(path, top, was, last, rest, n, j);
      FirstPlace(blocks, canon, path, top, was, last, n, j, rest, stop);
      if PlaceRun(blocks, canon, path[j], stop).r != Crashed {
        PassedBy(path, top, was, last, n, j);
      }
    }

    lemma FacingMeans(path: Heights, top: nat, was: Heights, last: nat, rest: Rest, n: nat, j: nat)
      requires Facing(path, top, was, last, rest, n, j)
      ensures Scene(blocks, path, top, was, last) && Remains(blocks, top, rest) && rest.lost == {}
      ensures n == j + 1 <= top && j in path && stale == path[j] != EMPTY_HASH
      ensures Overwritten(blocks, canon, path, was, n, rest) && Passed(path, top, was, n, top)
    {
      assert Stood(rest, 0);
    }

    /** A height that has been overwritten, or was in place, is one that no stop has spoilt. */
    lemma PassedBy(path: Heights, top: nat, was: Heights, last: nat, n: nat, j: nat)
      requires n == j + 1 && Spans(was, last) && j in path && Passed(path, top, was, n, top)
      requires (stop != Some(AddIndices(j)) && stop != Some(PutHash(j))) || (j <= last && path[j] == was[j])
      ensures Passed(path, top, was, j, top)
    {
    }

    /** A stop before the recovery point moves on loses nothing. */
    lemma StopsBetween(path: Heights, top: nat, was: Heights, last: nat, rest: Rest, from: nat, hash: BlockHash)
      requires OnWalk(path, top, was, last, rest, from) && stop == Some(SaveStale(hash))
      ensures StoppedWalk(path, top, was, rest, from)
    {
      FromThere(path, top, was, last, rest, from);
    }

    lemma FromThere(path: Heights, top: nat, was: Heights, last: nat, rest: Rest, from: nat)
      requires OnWalk(path, top, was, last, rest, from)
      ensures from in path && (from > 0 ==> from - 1 in path) && path[from] != EMPTY_HASH && !Stale(canon, path, from)
      ensures WalkAt(blocks, canon, stale, path, top, was, rest, from)
    {
      assert Stood(rest, 0);
      OverwrittenThere(blocks, canon, path, was, from, rest);
    }

    /** The recovery point moves to the height below the one just overwritten. */
    method MoveOn(hash: BlockHash, ghost path: Heights, ghost top: nat, ghost was: Heights, ghost last: nat,
                  ghost n: nat, ghost j: nat, ghost rest: Rest)
      returns (up: bool)
      requires n == j + 1 && OnWalk(path, top, was, last, rest, n) && hash == Below(path, n)
      modifies this`stale
      ensures if up then Facing(path, top, was, last, rest, n, j) else StoppedWalk(path, top, was, rest, n)
      ensures stop.None? ==> up
    {
      FromThere(path, top, was, last, rest, n);
      if !Survives(SaveStale(hash)) {
        StopsBetween(path, top, was, last, rest, n, hash);
      }
      up := RecordStale(hash);
    }

    /** One round of OverwriteStaleBlocks; with `record`, the recovery point moves to height `j` first. */
    method OverwriteRound(hash: BlockHash, record: bool, ghost path: Heights, ghost top: nat, ghost was: Heights,
                          ghost last: nat, ghost from: nat, ghost j: nat, ghost rest: Rest)
      returns (r: Outcome, prev: BlockHash, ghost at: nat)
      requires from == j + 1 && Scene(blocks, path, top, was, last) && j < top && hash == path[j]
      requires record ==> OnWalk(path, top, was, last, rest, from)
      modifies this`canon, this`stale
      ensures !record ==> Ran(canon, r) == PlaceRun(blocks, old(canon), path[j], stop) && stale == old(stale)
      ensures record && r == Crashed ==> StoppedWalk(path, top, was, rest, at)
      ensures record && r != Crashed ==> Placed(path, top, was, last, rest, j, r)
      ensures (record && stop.None? ==> r != Crashed) && (r != Crashed ==> prev == Below(path, j))
    {
      at := from;
      if record {
        var up := MoveOn(hash, path, top, was, last, from, j, rest);
        if !up {
          return Crashed, hash, at;
        }
      }
      at := j;
      r, prev := OverwriteAt(hash, record, path, top, was, last, from, j, rest);
    }

    /** The loop of OverwriteStaleBlocks, from below height `j`. */
    method OverwriteDown(h: BlockHash, record: bool, ghost path: Heights, ghost top: nat, ghost was: Heights,
                         ghost last: nat, ghost j: nat, ghost rest: Rest)
      returns (r: Outcome, ghost at: nat)
      requires Scene(blocks, path, top, was, last) && j < top && h == Below(path, j)
      requires record ==> OnWalk(path, top, was, last, rest, j)
      modifies this`canon, this`stale
      ensures !record ==> Ran(canon, r) == WalkRun(blocks, old(canon), path, j, stop) && stale == old(stale)
      ensures record ==> (r == Yes || r == Crashed) && (stop.None? ==> r == Yes)
      ensures record && r == Crashed ==> StoppedWalk(path, top, was, rest, at)
      ensures record && r == Yes ==> OnWalk(path, top, was, last, rest, at) && Meets(path, was, at)
    {
      var hash := h;
      at, r := j, Yes;
      while hash != EMPTY_HASH
        invariant r == Yes && at <= j && hash == Below(path, at)
        invariant record ==> OnWalk(path, top, was, last, rest, at)
        invariant !record ==> WalkRun(blocks, old(canon), path, j, stop) == WalkRun(blocks, canon, path, at, stop)
        invariant !record ==> stale == old(stale)
        decreases at
      {
        ghost var n, below := at, at - 1;
        r, hash, at := OverwriteRound(hash, record, path, top, was, last, n, below, rest);
        if r == Crashed || r == Failed {
          return;
        }
        at := below;
        if r == No {
          return Yes, at;
        }
      }
      EmptyBelow(path, top, was, last, at);
    }

    lemma EmptyBelow(path: Heights, top: nat, was: Heights, last: nat, at: nat)
      requires Scene(blocks, path, top, was, last) && at < top && Below(path, at) == EMPTY_HASH
      ensures at == 0
    {
      assert Seen(path, 0);
    }

    /** Where the walk has ended. */
    lemma WalkEnds(path: Heights, top: nat, was: Heights, last: nat, rest: Rest, at: nat)
      requires OnWalk(path, top, was, last, rest, at) && Meets(path, was, at)
      ensures rest == Rest(End(top, last), {}) ==> Settled(blocks, canon, path)
      ensures Passed(path, top, was, 0, top)
    {
      assert Stood(rest, 0);
      if rest == Rest(End(top, last), {}) {
        OverwriteSettles(blocks, canon, path, top, was, last, at, rest);
      }
      assert Seen(path, 0);
      if stop.Some? && (stop.value.AddIndices? || stop.value.PutHash?) && stop.value.height < at {
        SharedBelow(blocks, path, top, was, last, at, stop.value.height);
      }
    }

    /** OverwriteStaleBlocks; `record` says whether a recovery point follows it. */
    method Overwrite(s: BlockHash, record: bool, ghost path: Heights, ghost top: nat, ghost was: Heights,
                     ghost last: nat, ghost n: nat, ghost j: nat, ghost rest: Rest)
      returns (r: Outcome, ghost at: nat)
      requires Scene(blocks, path, top, was, last) && j < top && s == path[j] && rest == Rest(End(top, last), {})
      requires record ==> Facing(path, top, was, last, rest, n, j)
      modifies this`canon, this`stale
      ensures !record ==> Ran(canon, r) == StaleRun(blocks, old(canon), path, j, stop) && stale == old(stale)
      ensures record ==> (r == Yes || r == Crashed) && (stop.None? ==> r == Yes)
      ensures record && r == Crashed ==> StoppedWalk(path, top, was, rest, at)
      ensures record && r == Yes ==>
        Settled(blocks, canon, path) && stale == EMPTY_HASH && Passed(path, top, was, 0, top)
    {
      at := j;
      var hash;
      r, hash := OverwriteAt(s, record, path, top, was, last, n, j, rest);
      if r == Crashed || r == Failed {
        return;
      }
      r, at := OverwriteDown(hash, record, path, top, was, last, j, rest);
      if record && r == Yes {
        r := WalkDone(path, top, was, last, at, rest);
      }
    }

    /** With nothing left to overwrite, the recovery point is reset. */
    method WalkDone(ghost path: Heights, ghost top: nat, ghost was: Heights, ghost last: nat, ghost at: nat,
                    ghost rest: Rest)
      returns (r: Outcome)
      requires OnWalk(path, top, was, last, rest, at) && Meets(path, was, at) && rest == Rest(End(top, last), {})
      modifies this`stale
      ensures (r == Yes || r == Crashed) && (stop.None? ==> r == Yes)
      ensures r == Crashed ==> StoppedWalk(path, top, was, rest, at)
      ensures r == Yes ==> Settled(blocks, canon, path) && stale == EMPTY_HASH && Passed(path, top, was, 0, top)
    {
      WalkEnds(path, top, was, last, rest, at);
      FromThere(path, top, was, last, rest, at);
      var up := RecordStale(EMPTY_HASH);
      r := if up then Yes else Crashed;
    }

    /** PutBlock as head: one batch. */
    method PutHead(b: Block, ghost genesis: BlockHash, ghost path: Heights, ghost was: Heights, ghost last: nat)
      requires Fits(blocks, genesis, b) && Settled(blocks, canon, was) && AtHeight(blocks, was)
      requires Scene(blocks[b.hash := b], path, b.height, was, last) && path[b.height] == b.hash
      modifies this`blocks, this`canon, this`head
      ensures blocks == old(blocks)[b.hash := b] && head == b.hash
      ensures Cleared(blocks, canon, path, b.height, was, b.height + 1)
    {
      AfterHead(blocks, genesis, b, canon, path, was, last);
      canon := HeadFiled(blocks, canon, b);
      blocks := blocks[b.hash := b];
      head := b.hash;
    }

    /** What a stop after onPutBlockEnd can leave behind. */
    ghost predicate Recoverable(path: Heights, top: nat, was: Heights, last: nat)
      reads this`blocks, this`canon, this`larger, this`stale
    {
      if larger > 0 then Clearing(blocks, canon, path, top, was, larger) && top > 0 && top - 1 in path &&
        stale == path[top - 1]
      else if stale != EMPTY_HASH then exists j: nat ::
        WalkAt(blocks, canon, stale, path, top, was, Rest(End(top, last), {}), j)
      else Settled(blocks, canon, path)
    }

    /** The first thing recovery repeats is a deletion of indices that fails. */
    ghost predicate Torn()
      reads this`blocks, this`canon, this`larger, this`stale
    {
      if larger > 0 then Missing(blocks, canon, larger)
      else
        && stale != EMPTY_HASH && stale in blocks && Missing(blocks, canon, blocks[stale].height)
        && canon.heights[blocks[stale].height] != stale
    }

    /** The height at which recovery begins. */
    ghost function TornAt(): nat
      reads this`blocks, this`larger, this`stale
    {
      if larger > 0 then larger else if stale in blocks then blocks[stale].height else 0
    }

    /**
      The machine has stopped, or it has not: what recovery will meet is known from the write before which it stopped.
     */
    ghost predicate Left(path: Heights, top: nat, was: Heights, last: nat)
      reads this`blocks, this`canon, this`larger, this`stale, this`stop
    {
      forall k: nat {:trigger Seen(path, k)} :: Seen(path, k) ==>
        && Recoverable(path, top, was, last) && (Torn() <==> stop.Some? && Loses(blocks, path, top, was, stop.value))
        && (Torn() ==> TornAt() == HeightOf(stop.value))
    }

    lemma LeftMeans(path: Heights, top: nat, was: Heights, last: nat)
      requires Left(path, top, was, last)
      ensures Recoverable(path, top, was, last) && (Torn() <==> stop.Some? && Loses(blocks, path, top, was, stop.value))
      ensures Torn() ==> TornAt() == HeightOf(stop.value)
    {
      assert Seen(path, 0);
    }

    /** DeleteLargerHeightBlocks from above the new head. */
    method ClearAbove(ghost path: Heights, top: nat, ghost was: Heights, ghost last: nat) returns (r: Outcome)
      requires ClearedTo(path, top, was, last, top + 1) && stale == path[top - 1]
      modifies this`canon, this`larger
      ensures (r == Yes || r == Crashed) && (stop.None? ==> r == Yes)
      ensures r == Yes ==> AllCleared(path, top, was, last, top + 1)
      ensures r == Crashed ==> Left(path, top, was, last)
    {
      ghost var at;
      r, at := DeleteLarger(top + 1, true, path, top, was, last);
    }

    lemma AboveCleared(path: Heights, top: nat, was: Heights, last: nat, j: nat)
      requires Scene(blocks, path, top, was, last) && Cleared(blocks, canon, path, top, was, End(top, last))
      requires top == j + 1 && stale == path[j]
      ensures Facing(path, top, was, last, Rest(End(top, last), {}), top, j)
    {
      ClearedIsOverwritten(blocks, canon, path, top, was, last, End(top, last));
    }

    lemma StoppedLeaves(path: Heights, top: nat, was: Heights, last: nat, at: nat)
      requires Scene(blocks, path, top, was, last) && StoppedWalk(path, top, was, Rest(End(top, last), {}), at)
      requires larger == 0
      ensures Left(path, top, was, last)
    {
      var rest := Rest(End(top, last), {});
      assert Stood(rest, 0) && Seen(path, 0);
      assert WalkAt(blocks, canon, stale, path, top, was, rest, at);
    }

    lemma DoneLeaves(path: Heights, top: nat, was: Heights, last: nat)
      requires Spans(was, last) && Settled(blocks, canon, path) && larger == 0 && stale == EMPTY_HASH
      requires ClearedPast(top + 1, last) && Passed(path, top, was, 0, top)
      ensures Left(path, top, was, last)
    {
    }

    /** OverwriteStaleBlocks from below the new head. */
    method OverwriteBelow(ghost path: Heights, ghost top: nat, ghost was: Heights, ghost last: nat, prev: BlockHash)
      returns (r: Outcome)
      requires Scene(blocks, path, top, was, last) && AllCleared(path, top, was, last, top + 1)
      requires stale == prev == path[top - 1]
      modifies this`canon, this`stale
      ensures (r == Yes || r == Crashed) && (stop.None? ==> r == Yes)
      ensures r == Yes ==> Settled(blocks, canon, path) && stale == EMPTY_HASH
      ensures Left(path, top, was, last)
    {
      ghost var at;
      ghost var rest := Rest(End(top, last), {});
      ghost var j: nat := top - 1;
      AboveCleared(path, top, was, last, j);
      r, at := Overwrite(prev, true, path, top, was, last, top, j, rest);
      if r == Yes {
        DoneLeaves(path, top, was, last);
      } else {
        StoppedLeaves(path, top, was, last, at);
      }
    }

    /** The tail of doWriteBlock for a new head: clear above it, then overwrite below it. */
    method Reorganise(ghost path: Heights, top: nat, ghost was: Heights, ghost last: nat, prev: BlockHash)
      returns (r: Outcome)
      requires ClearedTo(path, top, was, last, top + 1) && stale == prev == path[top - 1]
      modifies this`canon, this`larger, this`stale
      ensures (r == Yes || r == Crashed) && (stop.None? ==> r == Yes)
      ensures r == Yes ==> Settled(blocks, canon, path) && larger == 0 && stale == EMPTY_HASH
      ensures Left(path, top, was, last)
    {
      r := ClearAbove(path, top, was, last);
      if r == Yes {
        r := OverwriteBelow(path, top, was, last, prev);
      }
    }

    /** The two parts of recover; errors are only logged. */
    method RunRecovery(ghost path: Heights, ghost top: nat, ghost was: Heights, ghost last: nat, ghost s: nat)
      returns (r: Outcome)
      requires Scene(blocks, path, top, was, last) && s < top && stale == path[s]
      modifies this`canon, this`larger, this`stale
      ensures Ran(canon, r) == RecoverRun(blocks, old(canon), path, old(larger), s, stop)
      ensures larger == old(larger) && stale == old(stale)
    {
      ghost var at;
      if larger > 0 {
        r, at := DeleteLarger(larger, false, path, top, was, last);
        if r == Crashed {
          return;
        }
      }
      r, at := Overwrite(stale, false, path, top, was, last, s + 1, s, Rest(End(top, last), {}));
      if r != Crashed {
        r := Yes;
      }
    }

    /** The store is in a state that stops leave, and the recovery point says where to go on. */
    ghost predicate Resumes(path: Heights, top: nat, was: Heights, last: nat, j: nat, u: nat, s: nat)
      reads this`blocks, this`canon, this`larger, this`stale
    {
      && Broken(blocks, canon, path, top, was, last, j, u) && Pending(top, last, j, u, larger, s)
      && stale == path[s] && stale in blocks && blocks[stale].height == s
    }

    /** There is nothing to recover, or recovery can go on. */
    ghost predicate Fixing(path: Heights, top: nat, was: Heights, last: nat)
      reads this`blocks, this`canon, this`larger, this`stale
    {
      && Scene(blocks, path, top, was, last)
      && if stale == EMPTY_HASH then larger == 0 && Settled(blocks, canon, path)
         else exists j: nat, u: nat, s: nat :: Resumes(path, top, was, last, j, u, s)
    }

    /** Recovery will complete, as far as the store shows. */
    ghost predicate WillComplete(path: Heights, top: nat)
      reads this`blocks, this`canon, this`larger, this`stale
    {
      stale != EMPTY_HASH ==>
        && stale in blocks && blocks[stale].height in path
        && Completes(blocks, canon, path, top, larger, blocks[stale].height)
    }

    /** The state after recovery, or where it stops. */
    ghost function Recovered(path: Heights): Canon
      reads this`blocks, this`canon, this`larger, this`stale, this`stop
    {
      if stale == EMPTY_HASH || stale !in blocks || blocks[stale].height !in path then canon
      else RecoverRun(blocks, canon, path, larger, blocks[stale].height, stop).c
    }

    /** The machine stops during recovery, or before the recovery point is reset. */
    ghost predicate Halts(path: Heights)
      reads this`blocks, this`canon, this`larger, this`stale, this`stop
    {
      && stale != EMPTY_HASH && stale in blocks && blocks[stale].height in path
      && (RecoverRun(blocks, canon, path, larger, blocks[stale].height, stop).r == Crashed
          || !Survives(SaveStale(EMPTY_HASH)))
    }

    /**
      recover, with nothing left to undo of the block itself: from any state that stops leave, it settles the new branch
      if and only if WillComplete. Where the machine stops again, it leaves such a state, and the recovery point as it
      was: that is reset last.
     */
    method Recover(ghost path: Heights, ghost top: nat, ghost was: Heights, ghost last: nat) returns (r: Outcome)
      requires Fixing(path, top, was, last)
      modifies this`canon, this`larger, this`stale
      ensures (r == Yes || r == Crashed) && (stop.None? ==> r == Yes) && canon == old(Recovered(path))
      ensures r == Crashed <==> old(Halts(path))
      ensures r == Crashed ==> Fixing(path, top, was, last) && larger == old(larger) && stale == old(stale)
      ensures r == Yes ==> larger == 0 && stale == EMPTY_HASH
      ensures r == Yes ==>
        if old(WillComplete(path, top)) then Settled(blocks, canon, path)
        else canon.heights != path && Blocked(blocks, old(canon), top, old(larger), canon)
    {
      if stale == EMPTY_HASH {
        return Yes;
      }
      ghost var j, u, s :| Resumes(path, top, was, last, j, u, s);
      ghost var at, up := RecoverMeans(blocks, canon, path, top, was, last, j, u, larger, s, stop);
      r := RunRecovery(path, top, was, last, s);
      assert Resumes(path, top, was, last, at, up, s);
      if r == Crashed || !Survives(SaveStale(EMPTY_HASH)) {
        return Crashed;
      }
      larger, stale := 0, EMPTY_HASH;
    }

    /** After a first stop above the new head. */
    lemma StoppedAbove(path: Heights, top: nat, was: Heights, last: nat, j: nat)
      requires top == j + 1 && Scene(blocks, path, top, was, last) && larger > 0 && stale == path[j]
      requires Clearing(blocks, canon, path, top, was, larger)
      ensures Fixing(path, top, was, last) && (WillComplete(path, top) <==> !Missing(blocks, canon, larger))
      ensures Missing(blocks, canon, larger) && stop.None? ==> Keeps(Recovered(path), was, larger)
    {
      var u := FirstAbove(blocks, canon, path, top, was, last, larger, j);
      assert Resumes(path, top, was, last, j, u, j);
      var at, up := RecoverMeans(blocks, canon, path, top, was, last, j, u, larger, j, stop);
      if Missing(blocks, canon, larger) && stop.None? {
        OldAt(blocks, canon, path, top, was, last, j, u);
        assert larger in High(canon, top) && High(canon, top) == High(Recovered(path), top);
      }
    }

    /** After a first stop below it. */
    lemma StoppedBelow(path: Heights, top: nat, was: Heights, last: nat, j: nat)
      requires Scene(blocks, path, top, was, last) && larger == 0 && stale != EMPTY_HASH
      requires WalkAt(blocks, canon, stale, path, top, was, Rest(End(top, last), {}), j)
      ensures Fixing(path, top, was, last) && stale in blocks && blocks[stale].height == j && j in path
      ensures WillComplete(path, top) <==> !Stuck(blocks, canon, path, j)
      ensures Stuck(blocks, canon, path, j) && stop.None? ==> Keeps(Recovered(path), was, j)
    {
      assert Seen(path, 0);
      FirstBelow(blocks, canon, path, top, was, last, j);
      assert Resumes(path, top, was, last, j, End(top, last), j);
      var at, up := RecoverMeans(blocks, canon, path, top, was, last, j, End(top, last), 0, j, stop);
      if Stuck(blocks, canon, path, j) && stop.None? {
        assert Unfolded(canon, 0);
        assert j in Low(canon, top) && Low(canon, top) == Low(Recovered(path), top);
      }
    }

    /** After any first stop, recovery completes unless it begins with a deletion that fails. */
    lemma FirstStop(path: Heights, top: nat, was: Heights, last: nat)
      requires Scene(blocks, path, top, was, last) && Recoverable(path, top, was, last)
      ensures Fixing(path, top, was, last) && (WillComplete(path, top) <==> !Torn())
      ensures Torn() && stop.None? ==> Keeps(Recovered(path), was, TornAt())
    {
      if larger > 0 {
        StoppedAbove(path, top, was, last, top - 1);
      } else if stale != EMPTY_HASH {
        var j :| WalkAt(blocks, canon, stale, path, top, was, Rest(End(top, last), {}), j);
        StoppedBelow(path, top, was, last, j);
      }
    }

    /** The store before and after a write: exactly the branch of the head is canonical, with exactly its indices. */
    ghost predicate Canonical(genesis: BlockHash)
      reads this`blocks, this`canon, this`head
    {
      forall k: nat {:trigger Rooted(genesis, k)} :: Rooted(genesis, k) ==>
        Tree(blocks, genesis) && head in blocks && Settled(blocks, canon, Path(blocks, genesis, head))
    }

    /** `path` is the branch of the head; opened where Seen is mentioned. */
    ghost predicate HeadPath(genesis: BlockHash, path: Heights)
      reads this`blocks, this`head
    {
      forall k: nat {:trigger Seen(path, k)} :: Seen(path, k) ==>
        Tree(blocks, genesis) && head in blocks && path == Path(blocks, genesis, head)
    }

    lemma CanonicalFrom(genesis: BlockHash, path: Heights)
      requires HeadPath(genesis, path)
      ensures Settled(blocks, canon, path) ==> Canonical(genesis)
      ensures canon.heights != path ==> !Canonical(genesis)
    {
      assert Seen(path, 0);
      assert Rooted(genesis, 0) && Unfolded(canon, 0);
    }

    /** `b` can be the next head, and no item is twice on its branch. */
    ghost predicate Extendable(genesis: BlockHash, b: Block)
      reads this`blocks
    {
      forall k: nat {:trigger Rooted(genesis, k)} :: Rooted(genesis, k) ==>
        Fits(blocks, genesis, b) && (FitsTree(blocks, genesis, b); Sound(blocks[b.hash := b], genesis, b.hash))
    }

    /** The block has been put, and the recovery point says what is left to do. */
    ghost predicate Started(genesis: BlockHash, b: Block, path: Heights, was: Heights, last: nat)
      reads this`blocks, this`canon, this`larger, this`stale
    {
      forall k: nat {:trigger Seen(path, k)} :: Seen(path, k) ==>
        && Scene(blocks, path, b.height, was, last) && Cleared(blocks, canon, path, b.height, was, b.height + 1)
        && larger == b.height + 1 && stale == b.prev == path[b.height - 1]
    }

    /** onPutBlockStart, PutBlock and onPutBlockEnd for a new head. */
    method Begin(b: Block, ghost genesis: BlockHash) returns (ghost path: Heights, ghost was: Heights, ghost last: nat)
      requires Canonical(genesis) && Extendable(genesis, b)
      modifies this`blocks, this`canon, this`head, this`larger, this`stale
      ensures blocks == old(blocks)[b.hash := b] && head == b.hash
      ensures HeadPath(genesis, path) && was == old(canon).heights
      ensures Started(genesis, b, path, was, last)
    {
      assert Rooted(genesis, 0);
      FitsTree(blocks, genesis, b);
      was, last := Path(blocks, genesis, head), blocks[head].height;
      SettledHeights(blocks, canon, was);
      path := Path(blocks[b.hash := b], genesis, b.hash);
      NewScene(blocks, genesis, b, head);
      PathLinked(blocks, genesis, head);
      ParentOf(blocks[b.hash := b], genesis, b.hash, b.height);
      larger, stale := b.height + 1, b.prev;
      PutHead(b, genesis, path, was, last);
    }

    /** The rest of the write, which the machine may not survive. */
    method Finish(b: Block, ghost genesis: BlockHash, ghost path: Heights, ghost was: Heights, ghost last: nat)
      returns (r: Outcome)
      requires Started(genesis, b, path, was, last)
      modifies this`canon, this`larger, this`stale
      ensures stop.None? ==> r == Yes
      ensures r == Yes ==> Settled(blocks, canon, path)
      ensures Left(path, b.height, was, last) && Scene(blocks, path, b.height, was, last)
    {
      assert Seen(path, 0);
      r := Reorganise(path, b.height, was, last, b.prev);
    }

    /** PutBlock of a block that does not become the head; it may be stored already. */
    method WriteSide(b: Block, ghost genesis: BlockHash)
      requires Canonical(genesis) && Arrives(blocks, genesis, b)
      modifies this`blocks
      ensures blocks == old(blocks)[b.hash := b] && Canonical(genesis)
    {
      assert Rooted(genesis, 0);
      ArrivesTree(blocks, genesis, b);
      if b.hash !in blocks {
        SideSettled(blocks, genesis, b, canon, head);
      }
      blocks := blocks[b.hash := b];
    }

    /** A new head is written and the machine stays up. */
    method WriteHead(b: Block, ghost genesis: BlockHash)
      requires stop.None? && Canonical(genesis) && Extendable(genesis, b)
      modifies this
      ensures blocks == old(blocks)[b.hash := b] && head == b.hash && Canonical(genesis) && stop.None?
    {
      ghost var path, was, last := Begin(b, genesis);
      var _ := Finish(b, genesis, path, was, last);
      CanonicalFrom(genesis, path);
    }

    /**
      The machine stops before the write `w`, any of those that follow onPutBlockEnd, and recovers: the store is as
      after an uninterrupted write exactly when no debt entry has been lost.
     */
    method CrashAndRecover(b: Block, w: Write, ghost genesis: BlockHash) returns (ghost path: Heights)
      requires Canonical(genesis) && Extendable(genesis, b)
      modifies this
      ensures blocks == old(blocks)[b.hash := b] && head == b.hash && HeadPath(genesis, path)
      ensures Canonical(genesis) <==> !Loses(blocks, path, b.height, old(canon).heights, w)
      ensures Loses(blocks, path, b.height, old(canon).heights, w) ==> Keeps(canon, old(canon).heights, HeightOf(w))
    {
      ghost var was, last;
      path, was, last := Begin(b, genesis);
      stop := Some(w);
      var _ := Finish(b, genesis, path, was, last);
      LeftMeans(path, b.height, was, last);
      stop := None;
      FirstStop(path, b.height, was, last);
      var _ := Recover(path, b.height, was, last);
      CanonicalFrom(genesis, path);
    }
  }
}
