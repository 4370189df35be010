/** How a block is packed from the pools (miner/task.go). */
module Miner {
  import opened PoolQueue
  import opened Pool

  /** Whether an object is accepted after those packed so far. */
  type Judge = (seq<PoolObject>, PoolObject) -> bool

  const BLOCK_BYTE_LIMIT: nat := 1024 * 1024

  /** Every account's nonces come in increasing order, and those still pending come later. */
  ghost predicate InNonceOrder(txs: seq<PoolObject>, model: Accounts) {
    && (forall i, j :: 0 <= i < j < |txs| && txs[i].account == txs[j].account ==> txs[i].nonce < txs[j].nonce)
    && (forall i, n :: 0 <= i < |txs| && n in ItemsOf(model, txs[i].account) ==> txs[i].nonce < n)
  }

  /** The objects of `was` are those of `model` and those of `txs`. */
  ghost predicate Accounted(was: Accounts, txs: seq<PoolObject>, model: Accounts) {
    && (forall i :: 0 <= i < |txs| ==>
         txs[i].nonce in ItemsOf(was, txs[i].account) && was[txs[i].account][txs[i].nonce].obj == txs[i])
    && (forall a, n :: n in ItemsOf(model, a) ==> n in ItemsOf(was, a) && model[a][n] == was[a][n])
    && (forall a, n :: n in ItemsOf(was, a) ==> n in ItemsOf(model, a) || was[a][n].obj in txs)
  }

  lemma DropItems(mid: Accounts, tx: PoolObject, a: Address)
    requires tx.nonce in ItemsOf(mid, tx.account)
    ensures ItemsOf(Drop(mid, tx.account, tx.nonce), a) ==
      if a == tx.account then mid[a] - {tx.nonce} else ItemsOf(mid, a)
  {
  }

  lemma OrderStep(txs: seq<PoolObject>, mid: Accounts, tx: PoolObject)
    requires InNonceOrder(txs, mid) && Next(mid, tx)
    ensures InNonceOrder(txs + [tx], Drop(mid, tx.account, tx.nonce))
  {
    var grown, model := txs + [tx], Drop(mid, tx.account, tx.nonce);
    forall i, n | 0 <= i < |grown| && n in ItemsOf(model, grown[i].account) ensures grown[i].nonce < n {
      DropItems(mid, tx, grown[i].account);
      if i < |txs| {
        assert n in ItemsOf(mid, txs[i].account);
      }
    }
  }

  lemma AccountedStep(was: Accounts, txs: seq<PoolObject>, mid: Accounts, tx: PoolObject)
    requires Accounted(was, txs, mid) && Next(mid, tx)
    ensures Accounted(was, txs + [tx], Drop(mid, tx.account, tx.nonce))
  {
    var grown, model := txs + [tx], Drop(mid, tx.account, tx.nonce);
    assert tx.nonce in ItemsOf(mid, tx.account);
    forall a, n | n in ItemsOf(model, a) ensures n in ItemsOf(was, a) && model[a][n] == was[a][n] {
      DropItems(mid, tx, a);
    }
    forall a, n | n in ItemsOf(was, a) ensures n in ItemsOf(model, a) || was[a][n].obj in grown {
      DropItems(mid, tx, a);
      assert grown[|txs|] == tx;
      assert was[a][n].obj in txs ==> was[a][n].obj in grown;
    }
  }

  /** The last pop of a drain. */
  lemma LastPop(was: Accounts, txs: seq<PoolObject>, model: Accounts)
    returns (front: seq<PoolObject>, mid: Accounts, tx: PoolObject)
    requires Greedy(was, txs, model) && txs != []
    ensures txs == front + [tx] && Greedy(was, front, mid) && Next(mid, tx) && model == Drop(mid, tx.account, tx.nonce)
  {
    front, tx := txs[..|txs| - 1], txs[|txs| - 1];
    mid :| Greedy(was, front, mid) && Next(mid, tx) && model == Drop(mid, tx.account, tx.nonce);
  }

  /** Each drain lists every account's nonces in increasing order, and leaves only later ones. */
  lemma {:induction false} DrainInOrder(was: Accounts, txs: seq<PoolObject>, model: Accounts)
    requires Greedy(was, txs, model)
    ensures InNonceOrder(txs, model)
    decreases |txs|
  {
    if txs != [] {
      var front, mid, tx := LastPop(was, txs, model);
      DrainInOrder(was, front, mid);
      OrderStep(front, mid, tx);
    }
  }

  /** A drain loses nothing and invents nothing. */
  lemma {:induction false} DrainAccounted(was: Accounts, txs: seq<PoolObject>, model: Accounts)
    requires Greedy(was, txs, model)
    ensures Accounted(was, txs, model)
    decreases |txs|
  {
    if txs != [] {
      var front, mid, tx := LastPop(was, txs, model);
      DrainAccounted(was, front, mid);
      AccountedStep(was, front, mid, tx);
    }
  }

  lemma {:induction false} DrainShrinks(was: Accounts, txs: seq<PoolObject>, model: Accounts)
    requires Greedy(was, txs, model)
    ensures |Pending(model)| + |txs| <= |Pending(was)|
    decreases |txs|
  {
    if txs != [] {
      var front, mid, tx := LastPop(was, txs, model);
      DrainShrinks(was, front, mid);
      assert (tx.account, tx.nonce) in Pending(mid);
      Fewer(Pending(model), Pending(mid), (tx.account, tx.nonce));
    }
  }

  /** The objects of `txs` that are accepted in turn, after those already packed. */
  function Accepted(packed: seq<PoolObject>, txs: seq<PoolObject>, accepts: Judge): seq<PoolObject>
    decreases |txs|
  {
    if txs == [] then packed
    else Accepted(if accepts(packed, txs[0]) then packed + [txs[0]] else packed, txs[1..], accepts)
  }

  /** The objects were all pending in `was`. */
  ghost predicate FromQueue(txs: seq<PoolObject>, was: Accounts) {
    forall i :: 0 <= i < |txs| ==>
      txs[i].nonce in ItemsOf(was, txs[i].account) && was[txs[i].account][txs[i].nonce].obj == txs[i]
  }

  lemma DropOne(packed: seq<PoolObject>, txs: seq<PoolObject>, model: Accounts)
    requires txs != [] && InNonceOrder(packed + txs, model)
    ensures InNonceOrder(packed + txs[1..], model)
  {
    var all, less := packed + txs, packed + txs[1..];
    forall k | 0 <= k < |less| ensures less[k] == all[if k < |packed| then k else k + 1] {
    }
  }

  /** Accepting or dropping one object after the other keeps the nonce order. */
  lemma {:induction false} AcceptedInOrder(packed: seq<PoolObject>, txs: seq<PoolObject>, accepts: Judge,
                                           model: Accounts)
    requires InNonceOrder(packed + txs, model)
    ensures InNonceOrder(Accepted(packed, txs, accepts), model)
    decreases |txs|
  {
    if txs == [] {
      assert packed + txs == packed;
    } else if accepts(packed, txs[0]) {
      assert packed + txs == packed + [txs[0]] + txs[1..];
      AcceptedInOrder(packed + [txs[0]], txs[1..], accepts, model);
    } else {
      DropOne(packed, txs, model);
      AcceptedInOrder(packed, txs[1..], accepts, model);
    }
  }

  lemma {:induction false} AcceptedFrom(packed: seq<PoolObject>, txs: seq<PoolObject>, accepts: Judge, was: Accounts)
    requires FromQueue(packed, was) && FromQueue(txs, was)
    ensures FromQueue(Accepted(packed, txs, accepts), was)
    decreases |txs|
  {
    if txs != [] {
      AcceptedFrom(if accepts(packed, txs[0]) then packed + [txs[0]] else packed, txs[1..], accepts, was);
    }
  }

  /** A batch drained from what was left continues the nonce order of what is packed. */
  lemma JoinOrder(packed: seq<PoolObject>, was: Accounts, txs: seq<PoolObject>, model: Accounts)
    requires InNonceOrder(packed, was) && InNonceOrder(txs, model) && Accounted(was, txs, model)
    ensures InNonceOrder(packed + txs, model)
  {
    var all := packed + txs;
    forall i, j | 0 <= i < j < |all| && all[i].account == all[j].account ensures all[i].nonce < all[j].nonce {
      if i < |packed| <= j {
        assert all[j] == txs[j - |packed|] && all[j].nonce in ItemsOf(was, packed[i].account);
      }
    }
    forall i, n | 0 <= i < |all| && n in ItemsOf(model, all[i].account) ensures all[i].nonce < n {
      if i < |packed| {
        assert n in ItemsOf(was, packed[i].account);
      } else {
        assert all[i] == txs[i - |packed|];
      }
    }
  }

  /** Some packed objects had been packed when `obj` was refused. */
  ghost predicate Refused(accepts: Judge, packed: seq<PoolObject>, obj: PoolObject) {
    exists k :: 0 <= k <= |packed| && !accepts(packed[..k], obj)
  }

  /** Every packed object was accepted after those before it. */
  ghost predicate Approved(accepts: Judge, packed: seq<PoolObject>) {
    forall k :: 0 <= k < |packed| ==> accepts(packed[..k], packed[k])
  }

  /** Each of the objects is packed or was refused. */
  ghost predicate Judged(accepts: Judge, packed: seq<PoolObject>, txs: seq<PoolObject>) {
    forall x :: x in txs ==> x in packed || Refused(accepts, packed, x)
  }

  /** Packing more takes nothing back. */
  lemma StillRefused(accepts: Judge, packed: seq<PoolObject>, more: seq<PoolObject>, x: PoolObject)
    requires packed <= more && (x in packed || Refused(accepts, packed, x))
    ensures x in more || Refused(accepts, more, x)
  {
    if x !in packed {
      var k :| 0 <= k <= |packed| && !accepts(packed[..k], x);
      assert more[..k] == packed[..k];
    }
  }

  lemma ApprovedMore(accepts: Judge, packed: seq<PoolObject>, x: PoolObject)
    requires Approved(accepts, packed) && accepts(packed, x)
    ensures Approved(accepts, packed + [x])
  {
    var more := packed + [x];
    forall k | 0 <= k < |more| ensures accepts(more[..k], more[k]) {
      assert more[..k] == if k < |packed| then packed[..k] else packed;
    }
  }

  /** Every object of a batch is packed, or refused after what was packed by then. */
  lemma {:induction false} BatchJudged(accepts: Judge, packed: seq<PoolObject>, txs: seq<PoolObject>)
    requires Approved(accepts, packed)
    ensures packed <= Accepted(packed, txs, accepts) && Approved(accepts, Accepted(packed, txs, accepts))
    ensures Judged(accepts, Accepted(packed, txs, accepts), txs)
    decreases |txs|
  {
    if txs != [] {
      var x := txs[0];
      if accepts(packed, x) {
        ApprovedMore(accepts, packed, x);
        BatchJudged(accepts, packed + [x], txs[1..]);
        assert x == (packed + [x])[|packed|];
        StillRefused(accepts, packed + [x], Accepted(packed, txs, accepts), x);
      } else {
        BatchJudged(accepts, packed, txs[1..]);
        assert packed[..|packed|] == packed;
        StillRefused(accepts, packed, Accepted(packed, txs, accepts), x);
      }
    }
  }

  /** What was pending in `was` is still pending, is packed, or was refused. */
  ghost predicate Handled(accepts: Judge, packed: seq<PoolObject>, was: Accounts, model: Accounts) {
    forall a, n :: n in ItemsOf(was, a) ==>
      n in ItemsOf(model, a) || was[a][n].obj in packed || Refused(accepts, packed, was[a][n].obj)
  }

  /**
    The state of packing: what is packed came from `was` in nonce order and was accepted in its turn, and what has left
    the queue otherwise was refused.
   */
  ghost predicate Packing(packed: seq<PoolObject>, was: Accounts, model: Accounts, accepts: Judge) {
    && FromQueue(packed, was) && InNonceOrder(packed, model) && Subqueue(model, was)
    && Approved(accepts, packed) && Handled(accepts, packed, was, model)
  }

  lemma HandledStep(accepts: Judge, packed: seq<PoolObject>, more: seq<PoolObject>, was: Accounts, before: Accounts,
                    txs: seq<PoolObject>, mid: Accounts)
    requires Handled(accepts, packed, was, before) && Subqueue(before, was) && Accounted(before, txs, mid)
    requires packed <= more && Judged(accepts, more, txs)
    ensures Handled(accepts, more, was, mid)
  {
    forall a, n | n in ItemsOf(was, a)
      ensures n in ItemsOf(mid, a) || was[a][n].obj in more || Refused(accepts, more, was[a][n].obj)
    {
      if n !in ItemsOf(before, a) {
        StillRefused(accepts, packed, more, was[a][n].obj);
      }
    }
  }

  /** One batch: drained to `mid` and packed. */
  lemma PackingStep(packed: seq<PoolObject>, was: Accounts, before: Accounts, txs: seq<PoolObject>, mid: Accounts,
                    accepts: Judge)
    requires Packing(packed, was, before, accepts) && Accounted(before, txs, mid) && InNonceOrder(txs, mid)
    ensures Packing(Accepted(packed, txs, accepts), was, mid, accepts)
  {
    JoinOrder(packed, before, txs, mid);
    AcceptedInOrder(packed, txs, accepts, mid);
    assert FromQueue(txs, was);
    AcceptedFrom(packed, txs, accepts, was);
    BatchJudged(accepts, packed, txs);
    HandledStep(accepts, packed, Accepted(packed, txs, accepts), was, before, txs, mid);
  }

  /** The pool knows the objects as they were drained. */
  ghost predicate Matched(all: Pooled, txs: seq<PoolObject>) {
    forall i :: 0 <= i < |txs| && txs[i].hash in all ==> all[txs[i].hash].obj == txs[i]
  }

  lemma DrainedMatch(all: Pooled, was: Accounts, processing: set<nat>, txs: seq<PoolObject>, model: Accounts)
    requires Consistent(all, was, processing) && Accounted(was, txs, model)
    ensures Matched(all, txs)
  {
    forall i | 0 <= i < |txs| && txs[i].hash in all ensures all[txs[i].hash].obj == txs[i] {
      assert Listed(all, processing, was[txs[i].account][txs[i].nonce]);
    }
  }

  /** A drained object that is removed takes nothing with it from the queue. */
  lemma NothingElse(all: Pooled, txs: seq<PoolObject>, model: Accounts, i: nat)
    requires Matched(all, txs) && InNonceOrder(txs, model) && i < |txs| && txs[i].hash in all
    ensures Removed(model, all[txs[i].hash].obj.account, all[txs[i].hash].obj.nonce) == model
  {
  }

  /** The hashes of the objects that are not packed. */
  ghost function NotPacked(txs: seq<PoolObject>, packed: seq<PoolObject>): set<nat> {
    set x | x in txs && x !in packed :: x.hash
  }

  /** `(a, n)` has left the queue and its object is not packed. */
  ghost predicate Away(was: Accounts, model: Accounts, packed: seq<PoolObject>, a: Address, n: nat) {
    n in ItemsOf(was, a) && n !in ItemsOf(model, a) && was[a][n].obj !in packed
  }

  /** The hashes of what has left the queue and is not packed. */
  ghost function Gone(was: Accounts, model: Accounts, packed: seq<PoolObject>): set<nat> {
    set a, n | a in was && n in was[a] && Away(was, model, packed, a, n) :: was[a][n].obj.hash
  }

  lemma PackedMore(txs: seq<PoolObject>, i: nat, n: nat, grown: seq<PoolObject>)
    requires i < |txs| && n == i + 1 && txs[i] !in txs[..i]
    ensures NotPacked(txs[..n], grown + [txs[i]]) == NotPacked(txs[..i], grown)
  {
    assert txs[..n] == txs[..i] + [txs[i]];
  }

  lemma RefusedMore(all: Pooled, left: Pooled, txs: seq<PoolObject>, i: nat, n: nat, grown: seq<PoolObject>)
    requires i < |txs| && n == i + 1 && txs[i] !in grown && left == all - NotPacked(txs[..i], grown)
    ensures left - {txs[i].hash} == all - NotPacked(txs[..n], grown)
  {
    assert txs[..n] == txs[..i] + [txs[i]];
    assert NotPacked(txs[..n], grown) == NotPacked(txs[..i], grown) + {txs[i].hash};
  }

  /** Objects in nonce order are all different. */
  lemma AllDifferent(packed: seq<PoolObject>, txs: seq<PoolObject>, model: Accounts, i: nat)
    requires InNonceOrder(packed + txs, model) && i < |txs|
    ensures txs[i] !in packed && txs[i] !in txs[..i] && txs[i] !in txs[i + 1..]
  {
    var all := packed + txs;
    assert all[|packed| + i] == txs[i];
    assert forall j :: 0 <= j < |txs| ==> all[|packed| + j] == txs[j];
    assert forall j :: 0 <= j < |packed| ==> all[j] == packed[j];
  }

  /** The first `i` objects of a batch are handled: `grown` is packed, and `used` is the size of the batch so far. */
  ghost predicate Batched(accepts: Judge, packed: seq<PoolObject>, txs: seq<PoolObject>, i: nat,
                          grown: seq<PoolObject>, used: int) {
    && i <= |txs| && Accepted(packed, txs, accepts) == Accepted(grown, txs[i..], accepts)
    && SizeOf(grown) + SizeOf(txs) == SizeOf(packed) + used + SizeOf(txs[..i])
    && SizeOf(grown) >= SizeOf(packed) && used <= SizeOf(txs)
  }

  /** What is packed was packed before or is among the first `i` objects of the batch. */
  ghost predicate Among(packed: seq<PoolObject>, txs: seq<PoolObject>, i: nat, grown: seq<PoolObject>) {
    i <= |txs| && forall x :: x in grown ==> x in packed || x in txs[..i]
  }

  lemma BatchStart(accepts: Judge, packed: seq<PoolObject>, txs: seq<PoolObject>, all: Pooled)
    ensures Batched(accepts, packed, txs, 0, packed, SizeOf(txs)) && Among(packed, txs, 0, packed)
    ensures all == all - NotPacked(txs[..0], packed)
  {
    assert txs[0..] == txs && NotPacked(txs[..0], packed) == {};
  }

  lemma BatchStep(accepts: Judge, packed: seq<PoolObject>, txs: seq<PoolObject>, i: nat, n: nat,
                  grown: seq<PoolObject>, used: int)
    requires Batched(accepts, packed, txs, i, grown, used) && i < |txs| && n == i + 1
    ensures if accepts(grown, txs[i]) then Batched(accepts, packed, txs, n, grown + [txs[i]], used)
            else Batched(accepts, packed, txs, n, grown, used - txs[i].size)
  {
    assert txs[..n][..i] == txs[..i] && txs[i..][1..] == txs[n..] && (grown + [txs[i]])[..|grown|] == grown;
  }

  lemma AmongMore(packed: seq<PoolObject>, txs: seq<PoolObject>, i: nat, n: nat, grown: seq<PoolObject>)
    requires Among(packed, txs, i, grown) && i < |txs| && n == i + 1
    ensures Among(packed, txs, n, grown) && Among(packed, txs, n, grown + [txs[i]])
  {
    assert txs[..n] == txs[..i] + [txs[i]];
  }

  /** An object that is refused leaves the pool and takes nothing with it from the queue. */
  method TurnDown(pool: Pool, txs: seq<PoolObject>, i: nat)
    requires pool.Valid() && Matched(pool.all, txs) && InNonceOrder(txs, pool.queue.model) && i < |txs|
    modifies pool, pool.queue, pool.queue.owner.Keys, pool.queue.best, pool.queue.worst
    ensures pool.Valid() && pool.queue.owner.Keys <= old(pool.queue.owner.Keys)
    ensures pool.queue.model == old(pool.queue.model)
    ensures pool.all == old(pool.all) - {txs[i].hash} && Matched(pool.all, txs)
  {
    if txs[i].hash in pool.all {
      NothingElse(pool.all, txs, pool.queue.model, i);
    }
    pool.DoRemove(txs[i].hash);
  }

  lemma BatchDone(accepts: Judge, packed: seq<PoolObject>, txs: seq<PoolObject>, grown: seq<PoolObject>, used: int)
    requires Batched(accepts, packed, txs, |txs|, grown, used) && Among(packed, txs, |txs|, grown)
    ensures grown == Accepted(packed, txs, accepts) && forall x :: x in grown ==> x in packed || x in txs
    ensures SizeOf(grown) == SizeOf(packed) + used && 0 <= used <= SizeOf(txs)
    ensures NotPacked(txs[..|txs|], grown) == NotPacked(txs, grown)
  {
    assert txs[..|txs|] == txs;
  }

  /** One object of a batch: packed when it is accepted, turned down otherwise. */
  method PackNext(pool: Pool, packed: seq<PoolObject>, txs: seq<PoolObject>, i: nat, n: nat, accepts: Judge,
                  grown: seq<PoolObject>, used: int, ghost all: Pooled)
    returns (grown': seq<PoolObject>, used': int)
    requires pool.Valid() && Matched(pool.all, txs) && i < |txs| && n == i + 1
    requires InNonceOrder(txs, pool.queue.model) && InNonceOrder(packed + txs, pool.queue.model)
    requires Batched(accepts, packed, txs, i, grown, used) && Among(packed, txs, i, grown)
    requires pool.all == all - NotPacked(txs[..i], grown)
    modifies pool, pool.queue, pool.queue.owner.Keys, pool.queue.best, pool.queue.worst
    ensures pool.Valid() && pool.queue.owner.Keys <= old(pool.queue.owner.Keys)
    ensures pool.queue.model == old(pool.queue.model) && Matched(pool.all, txs)
    ensures Batched(accepts, packed, txs, n, grown', used') && Among(packed, txs, n, grown')
    ensures pool.all == all - NotPacked(txs[..n], grown')
  {
    AllDifferent(packed, txs, pool.queue.model, i);
    BatchStep(accepts, packed, txs, i, n, grown, used);
    AmongMore(packed, txs, i, n, grown);
    if accepts(grown, txs[i]) {
      PackedMore(txs, i, n, grown);
      return grown + [txs[i]], used;
    }
    RefusedMore(all, pool.all, txs, i, n, grown);
    TurnDown(pool, txs, i);
    return grown, used - txs[i].size;
  }

  /**
    The body of the loop of chooseTransactions over one batch: the accepted objects are packed, the others are
    removed from the pool and their size is given back.
   */
  method PackBatch(pool: Pool, packed: seq<PoolObject>, txs: seq<PoolObject>, accepts: Judge)
    returns (grown: seq<PoolObject>, used: int)
    requires pool.Valid() && Matched(pool.all, txs)
    requires InNonceOrder(txs, pool.queue.model) && InNonceOrder(packed + txs, pool.queue.model)
    modifies pool, pool.queue, pool.queue.owner.Keys, pool.queue.best, pool.queue.worst
    ensures pool.Valid() && pool.queue.owner.Keys <= old(pool.queue.owner.Keys)
    ensures pool.queue.model == old(pool.queue.model) && pool.all == old(pool.all) - NotPacked(txs, grown)
    ensures grown == Accepted(packed, txs, accepts) && forall x :: x in grown ==> x in packed || x in txs
    ensures SizeOf(grown) == SizeOf(packed) + used && 0 <= used <= SizeOf(txs)
  {
    grown := packed;
    used := SizeOf(txs);
    BatchStart(accepts, packed, txs, pool.all);
    for i := 0 to |txs|
      invariant pool.Valid() && pool.queue.owner.Keys <= old(pool.queue.owner.Keys)
      invariant pool.queue.model == old(pool.queue.model)
      invariant Matched(pool.all, txs) && pool.all == old(pool.all) - NotPacked(txs[..i], grown)
      invariant Batched(accepts, packed, txs, i, grown, used) && Among(packed, txs, i, grown)
    {
      grown, used := PackNext(pool, packed, txs, i, i + 1, accepts, grown, used, old(pool.all));
    }
    BatchDone(accepts, packed, txs, grown, used);
  }

  /** A batch has been drained from `before` and packed. */
  ghost predicate BatchOf(was: Accounts, before: Accounts, txs: seq<PoolObject>, mid: Accounts,
                          packed: seq<PoolObject>, grown: seq<PoolObject>) {
    && Filed(was) && Subqueue(before, was) && Accounted(before, txs, mid) && InNonceOrder(txs, mid)
    && packed <= grown && forall x :: x in grown ==> x in packed || x in txs
  }

  /** The step of a batch for what is away. */
  lemma AwayStep(was: Accounts, before: Accounts, txs: seq<PoolObject>, mid: Accounts, packed: seq<PoolObject>,
                 grown: seq<PoolObject>, a: Address, n: nat)
    requires BatchOf(was, before, txs, mid, packed, grown) && n in ItemsOf(was, a)
    ensures Away(was, mid, grown, a, n) <==>
      Away(was, before, packed, a, n) || (was[a][n].obj in txs && was[a][n].obj !in grown)
  {
    var x := was[a][n].obj;
    if x in txs {
      var i :| 0 <= i < |txs| && txs[i] == x;
      assert n in ItemsOf(before, a) && n !in ItemsOf(mid, a);
    }
  }

  lemma GoneAfter(was: Accounts, before: Accounts, txs: seq<PoolObject>, mid: Accounts, packed: seq<PoolObject>,
                  grown: seq<PoolObject>, h: nat)
    requires BatchOf(was, before, txs, mid, packed, grown) && h in Gone(was, mid, grown)
    ensures h in Gone(was, before, packed) || h in NotPacked(txs, grown)
  {
    var a, n :| a in was && n in was[a] && Away(was, mid, grown, a, n) && was[a][n].obj.hash == h;
    AwayStep(was, before, txs, mid, packed, grown, a, n);
  }

  lemma GoneBefore(was: Accounts, before: Accounts, txs: seq<PoolObject>, mid: Accounts, packed: seq<PoolObject>,
                   grown: seq<PoolObject>, h: nat)
    requires BatchOf(was, before, txs, mid, packed, grown) && h in Gone(was, before, packed)
    ensures h in Gone(was, mid, grown)
  {
    var a, n :| a in was && n in was[a] && Away(was, before, packed, a, n) && was[a][n].obj.hash == h;
    AwayStep(was, before, txs, mid, packed, grown, a, n);
  }

  lemma GoneNow(was: Accounts, before: Accounts, txs: seq<PoolObject>, mid: Accounts, packed: seq<PoolObject>,
                grown: seq<PoolObject>, h: nat)
    requires BatchOf(was, before, txs, mid, packed, grown) && h in NotPacked(txs, grown)
    ensures h in Gone(was, mid, grown)
  {
    var x :| x in txs && x !in grown && x.hash == h;
    assert x.nonce in ItemsOf(was, x.account) && was[x.account][x.nonce].obj == x;
    AwayStep(was, before, txs, mid, packed, grown, x.account, x.nonce);
  }

  /** What a batch drains and does not pack is away then, together with what was before. */
  lemma GoneStep(was: Accounts, before: Accounts, txs: seq<PoolObject>, mid: Accounts, packed: seq<PoolObject>,
                 grown: seq<PoolObject>)
    requires BatchOf(was, before, txs, mid, packed, grown)
    ensures Gone(was, mid, grown) == Gone(was, before, packed) + NotPacked(txs, grown)
  {
    forall h | h in Gone(was, mid, grown) ensures h in Gone(was, before, packed) + NotPacked(txs, grown) {
      GoneAfter(was, before, txs, mid, packed, grown, h);
    }
    forall h | h in Gone(was, before, packed) ensures h in Gone(was, mid, grown) {
      GoneBefore(was, before, txs, mid, packed, grown, h);
    }
    forall h | h in NotPacked(txs, grown) ensures h in Gone(was, mid, grown) {
      GoneNow(was, before, txs, mid, packed, grown, h);
    }
  }

  /** Always true: opens the predicate below. */
  ghost predicate Tallied(all: Pooled, k: nat) {
    true
  }

  /** The pool has lost exactly what has left the queue and is not packed. */
  ghost predicate Cleared(all: Pooled, left: Pooled, was: Accounts, model: Accounts, packed: seq<PoolObject>) {
    forall k: nat {:trigger Tallied(all, k)} :: Tallied(all, k) ==> left == all - Gone(was, model, packed)
  }

  lemma ClearedStart(all: Pooled, was: Accounts)
    ensures Cleared(all, all, was, was, [])
  {
    assert Gone(was, was, []) == {};
  }

  lemma ClearedStep(all: Pooled, left: Pooled, left': Pooled, was: Accounts, before: Accounts, txs: seq<PoolObject>,
                    mid: Accounts, packed: seq<PoolObject>, grown: seq<PoolObject>)
    requires BatchOf(was, before, txs, mid, packed, grown)
    requires Cleared(all, left, was, before, packed) && left' == left - NotPacked(txs, grown)
    ensures Cleared(all, left', was, mid, grown)
  {
    assert Tallied(all, 0);
    GoneStep(was, before, txs, mid, packed, grown);
  }

  /** One round of chooseTransactions or chooseDebts; an empty batch ends the loop. */
  method PackRound(pool: Pool, packed: seq<PoolObject>, left: int, accepts: Judge, ghost was: Accounts,
                   ghost all: Pooled)
    returns (grown: seq<PoolObject>, left': int, more: bool)
    requires pool.Valid() && Packing(packed, was, pool.queue.model, accepts) && left > 0
    requires Filed(was) && Cleared(all, pool.all, was, pool.queue.model, packed)
    modifies pool, pool.queue, pool.queue.owner.Keys, pool.queue.best, pool.queue.worst
    ensures pool.Valid() && pool.queue.owner.Keys <= old(pool.queue.owner.Keys)
    ensures Packing(grown, was, pool.queue.model, accepts) && SizeOf(grown) + left' == SizeOf(packed) + left
    ensures Cleared(all, pool.all, was, pool.queue.model, grown)
    ensures left' >= 0
    ensures if more then |Pending(pool.queue.model)| < old(|Pending(pool.queue.model)|)
            else NoneFits(pool.queue.model, left')
  {
    ghost var before, inProcess := pool.queue.model, pool.processing;
    var txs, total := pool.GetProcessable(left);
    ghost var mid := pool.queue.model;
    DrainShrinks(before, txs, mid);
    DrainInOrder(before, txs, mid);
    DrainAccounted(before, txs, mid);
    PackingStep(packed, was, before, txs, mid, accepts);
    if txs == [] {
      return packed, left, false;
    }
    DrainedMatch(pool.all, before, inProcess, txs, mid);
    JoinOrder(packed, before, txs, mid);
    ghost var pooled := pool.all;
    var used;
    grown, used := PackBatch(pool, packed, txs, accepts);
    BatchJudged(accepts, packed, txs);
    ClearedStep(all, pooled, pool.all, was, before, txs, mid, packed, grown);
    return grown, left - used, true;
  }

  /** chooseTransactions: batch after batch, until the size is used up or the next object does not fit. */
  method Choose(pool: Pool, size: int, accepts: Judge) returns (packed: seq<PoolObject>, left: int)
    requires pool.Valid()
    modifies pool, pool.queue, pool.queue.owner.Keys, pool.queue.best, pool.queue.worst
    ensures pool.Valid() && pool.queue.owner.Keys <= old(pool.queue.owner.Keys)
    ensures Packing(packed, old(pool.queue.model), pool.queue.model, accepts)
    ensures Cleared(old(pool.all), pool.all, old(pool.queue.model), pool.queue.model, packed)
    ensures SizeOf(packed) + left == size && (packed != [] ==> left >= 0)
    ensures left <= 0 || NoneFits(pool.queue.model, left)
  {
    packed, left := [], size;
    ClearedStart(pool.all, pool.queue.model);
    var more := true;
    while left > 0 && more
      invariant pool.Valid() && pool.queue.owner.Keys <= old(pool.queue.owner.Keys)
      invariant Packing(packed, old(pool.queue.model), pool.queue.model, accepts)
      invariant Cleared(old(pool.all), pool.all, old(pool.queue.model), pool.queue.model, packed)
      invariant SizeOf(packed) + left == size && (packed != [] ==> left >= 0)
      invariant more || NoneFits(pool.queue.model, left)
      decreases more, |Pending(pool.queue.model)|
    {
      packed, left, more := PackRound(pool, packed, left, accepts, old(pool.queue.model), old(pool.all));
    }
  }

  /** chooseDebts: the same loop, from the whole block. */
  method ChooseDebts(pool: Pool, accepts: Judge) returns (packed: seq<PoolObject>, left: int)
    requires pool.Valid()
    modifies pool, pool.queue, pool.queue.owner.Keys, pool.queue.best, pool.queue.worst
    ensures pool.Valid() && pool.queue.owner.Keys <= old(pool.queue.owner.Keys)
    ensures Packing(packed, old(pool.queue.model), pool.queue.model, accepts)
    ensures Cleared(old(pool.all), pool.all, old(pool.queue.model), pool.queue.model, packed)
    ensures SizeOf(packed) + left == BLOCK_BYTE_LIMIT && left >= 0
    ensures left == 0 || NoneFits(pool.queue.model, left)
  {
    packed, left := Choose(pool, BLOCK_BYTE_LIMIT, accepts);
  }

  /** The objects and all the parts of two pools are different. */
  ghost predicate Apart(p: Pool, q: Pool)
    reads p.queue, q.queue
  {
    Parts(p) !! Parts(q)
  }

  ghost function Parts(p: Pool): set<object>
    reads p.queue
  {
    p.queue.owner.Keys + {p, p.queue, p.queue.best, p.queue.worst}
  }

  /**
    applyTransactionsAndDebts: the debts, then the transactions, of a block within the limit that validateBlock sets.
   */
  method Pack(debtPool: Pool, txPool: Pool, debtOk: Judge, txOk: Judge)
    returns (debts: seq<PoolObject>, txs: seq<PoolObject>)
    requires debtPool.Valid() && txPool.Valid() && Apart(debtPool, txPool)
    modifies Parts(debtPool), Parts(txPool)
    ensures SizeOf(debts) + SizeOf(txs) <= BLOCK_BYTE_LIMIT
    ensures Packing(debts, old(debtPool.queue.model), debtPool.queue.model, debtOk)
    ensures Packing(txs, old(txPool.queue.model), txPool.queue.model, txOk)
    ensures Cleared(old(debtPool.all), debtPool.all, old(debtPool.queue.model), debtPool.queue.model, debts)
    ensures Cleared(old(txPool.all), txPool.all, old(txPool.queue.model), txPool.queue.model, txs)
  {
    var left;
    debts, left := ChooseDebts(debtPool, debtOk);
    txs, left := Choose(txPool, left, txOk);
  }
}
