/** How a transaction to a system contract is processed (core/svm/svm.go). */
module Svm {
  import opened Common
  import opened StateObjects
  import opened Statedb
  import Conservation

  const NONCE_FORK_HEIGHT: nat := 2979594

  datatype Tx = Tx(from: Address, to: Address, amount: int, nonce: nat, price: int, gasLimit: nat)

  /** What the called contract would do: the gas it asks for, its operations on the state and whether it then fails. */
  datatype Call = Call(required: nat, ops: seq<Op>, fails: bool)

  datatype Outcome = Rejected | Done(failed: bool, usedGas: nat)

  /** ValidateState */
  predicate Affordable(tx: Tx, balance: int, nonce: nat) {
    tx.amount + tx.price * tx.gasLimit <= balance && tx.nonce >= nonce
  }

  /** The account of a failed transaction's sender or of the block's creator, after the nonce and fee effects. */
  function Charged(v: Option<View>, isFrom: bool, isCreator: bool, nonce: Option<nat>, fee: int): Option<View> {
    var v1 := if isFrom && v.Some? && nonce.Some? then Some(v.value.(nonce := nonce.value)) else v;
    var v2 := if isFrom then Plus(v1, -fee) else v1;
    if isCreator then Plus(v2, fee) else v2
  }

  /** Only the sender's nonce and the fee have changed. */
  ghost predicate OnlyCharged(trie: Trie, x: Objects, y: Objects, from: Address, creator: Address, nonce: Option<nat>,
                              fee: int) {
    && (forall a :: ViewOf(trie, y, a) == Charged(ViewOf(trie, x, a), a == from, a == creator, nonce, fee))
    && (forall a, k :: DataOf(trie, y, a, k) == DataOf(trie, x, a, k))
  }

  /** handleFee, without the state root. */
  method HandleFee(db: Statedb, from: Address, creator: Address, fee: int)
    requires db.Valid()
    modifies db
    ensures db.Valid() && OnlyCharged(db.trie, old(db.objects), db.objects, from, creator, None, fee)
  {
    db.SubBalance(from, fee);
    db.AddBalance(creator, fee);
  }

  /** The contract is created when it is missing, then the nonce of the sender is set. */
  function EnteredView(v: Option<View>, isFrom: bool, isTo: bool, nonce: nat): Option<View> {
    var v1 := if isTo && v.None? then Some(View(0, 0, [], [], false)) else v;
    if isFrom && v1.Some? then Some(v1.value.(nonce := nonce)) else v1
  }

  /** An account when a contract is called: the contract is there, the nonce is counted and the amount has moved. */
  function CalledView(v: Option<View>, isFrom: bool, isTo: bool, tx: Tx): Option<View> {
    var v1 := EnteredView(v, isFrom, isTo, (tx.nonce + 1) % TWO_64);
    var v2 := if isFrom then Plus(v1, -tx.amount) else v1;
    if isTo then Plus(v2, tx.amount) else v2
  }

  /** Every account reads as at the call, and no storage value has changed. */
  ghost predicate OnlyCalled(trie: Trie, x: Objects, y: Objects, tx: Tx) {
    && (forall a :: ViewOf(trie, y, a) == CalledView(ViewOf(trie, x, a), a == tx.from, a == tx.to, tx))
    && (forall a, k :: DataOf(trie, y, a, k) == DataOf(trie, x, a, k))
  }

  lemma CalledAlike(trie: Trie, x: Objects, y: Objects, z: Objects, tx: Tx)
    requires OnlyCalled(trie, x, y, tx) && SameViews(trie, y, z)
    ensures OnlyCalled(trie, x, z, tx)
  {
    forall a ensures ViewOf(trie, z, a) == CalledView(ViewOf(trie, x, a), a == tx.from, a == tx.to, tx) {
      assert ViewOf(trie, y, a) == ViewOf(trie, z, a);
    }
    forall a: Address, k: StorageKey ensures DataOf(trie, z, a, k) == DataOf(trie, x, a, k) {
      assert DataOf(trie, y, a, k) == DataOf(trie, z, a, k);
    }
  }

  lemma ChargedAlike(trie: Trie, x: Objects, x': Objects, y: Objects, from: Address, creator: Address, fee: int)
    requires OnlyCharged(trie, x, y, from, creator, None, fee) && SameViews(trie, x, x')
    ensures OnlyCharged(trie, x', y, from, creator, None, fee)
  {
    forall a ensures ViewOf(trie, y, a) == Charged(ViewOf(trie, x', a), a == from, a == creator, None, fee) {
      assert ViewOf(trie, x, a) == ViewOf(trie, x', a);
    }
    forall a: Address, k: StorageKey ensures DataOf(trie, y, a, k) == DataOf(trie, x', a, k) {
      assert DataOf(trie, x, a, k) == DataOf(trie, x', a, k);
    }
  }

  ghost predicate OnlyEntered(trie: Trie, x: Objects, y: Objects, from: Address, to: Address, nonce: nat) {
    && (forall a :: ViewOf(trie, y, a) == EnteredView(ViewOf(trie, x, a), a == from, a == to, nonce))
    && (forall a, k :: DataOf(trie, y, a, k) == DataOf(trie, x, a, k))
  }

  /** The contract's account and the sender's nonce. */
  method Enter(db: Statedb, tx: Tx)
    requires db.Valid()
    modifies db
    ensures db.Valid() && Grown(old(db.marks), db.marks, old(db.entries), db.entries) && db.refund == old(db.refund)
    ensures OnlyEntered(db.trie, old(db.objects), db.objects, tx.from, tx.to, (tx.nonce + 1) % TWO_64)
  {
    db.CreateAccount(tx.to);
    db.SetNonce(tx.from, (tx.nonce + 1) % TWO_64);
  }

  /** The amount goes from the sender to the contract. */
  method Transfer(db: Statedb, tx: Tx, ghost before: Objects)
    requires db.Valid()
    requires OnlyEntered(db.trie, before, db.objects, tx.from, tx.to, (tx.nonce + 1) % TWO_64)
    modifies db
    ensures db.Valid() && Grown(old(db.marks), db.marks, old(db.entries), db.entries) && db.refund == old(db.refund)
    ensures OnlyCalled(db.trie, before, db.objects, tx)
  {
    db.SubBalance(tx.from, tx.amount);
    db.AddBalance(tx.to, tx.amount);
  }

  /** The called contract does not get to run, or does not set the nonce of `a`. */
  ghost predicate LeavesNonce(call: Call, leftOverGas: nat, a: Address) {
    call.required > leftOverGas || forall op :: op in call.ops ==> !SetsNonce(op, a)
  }

  /** The nonce of a sender that a transaction has counted; 0 is that of an account that is not there. */
  predicate Recounted(tx: Tx, nonce: nat) {
    nonce == 0 || nonce == (tx.nonce + 1) % TWO_64
  }

  function Last(marks: seq<Mark>): Mark
    requires marks != []
  {
    marks[|marks| - 1]
  }

  /** A contract called in the state `x` ran: `history` starts at the call and ends at `marks`. */
  ghost predicate Ran(trie: Trie, hash: Bytes -> Bytes, x: Objects, refund: nat, tx: Tx, call: Call,
                      history: seq<seq<Mark>>, marks: seq<Mark>) {
    && |history| == |call.ops| + 1 && history[0] != [] && marks != [] && history[|call.ops|] == marks
    && OnlyCalled(trie, x, Last(history[0]).objects, tx) && Last(history[0]).refund == refund
    && Performed(trie, hash, |history[0]| - 1, call.ops, history)
  }

  /** The contract runs from here on, and reverts at most to here. */
  method RunContract(db: Statedb, tx: Tx, call: Call, ghost snapshot: nat, ghost before: Objects)
    returns (ghost history: seq<seq<Mark>>)
    requires db.Valid() && snapshot <= |db.entries| && OnlyCalled(db.trie, before, db.objects, tx)
    modifies db
    ensures db.Valid() && Since(snapshot, old(db.marks), db.marks, old(db.entries), db.entries)
    ensures Ran(db.trie, db.hash, before, old(db.refund), tx, call, history, db.marks)
  {
    db.LastMark();
    CalledAlike(db.trie, before, db.objects, db.marks[|db.entries|].objects, tx);
    history := db.Run(call.ops, |db.entries|);
  }

  /** A contract that does not set the sender's nonce leaves it counted. */
  lemma RanCounts(db: Statedb, tx: Tx, call: Call, before: Objects, refund: nat, history: seq<seq<Mark>>)
    requires db.Valid() && Ran(db.trie, db.hash, before, refund, tx, call, history, db.marks)
    requires forall op :: op in call.ops ==> !SetsNonce(op, tx.from)
    ensures Recounted(tx, NonceOf(ViewOf(db.trie, db.objects, tx.from)))
  {
    var n := NonceOf(ViewOf(db.trie, Last(history[0]).objects, tx.from));
    assert Recounted(tx, n);
    NonceKept(db.trie, db.hash, |history[0]| - 1, call.ops, history, tx.from, n, |call.ops|);
    db.LastNonce(tx.from);
  }

  /** processSystemContract; the result says whether it failed, and None that the balance was too small. */
  method ProcessSystemContract(db: Statedb, tx: Tx, call: Call, snapshot: nat, leftOverGas: nat)
    returns (failed: Option<bool>, ghost history: seq<seq<Mark>>)
    requires db.Valid() && snapshot == |db.entries|
    modifies db
    ensures db.Valid() && Since(snapshot, old(db.marks), db.marks, old(db.entries), db.entries)
    ensures failed.None? ==>
      SameViews(db.trie, db.objects, old(db.marks)[snapshot].objects) && db.refund == old(db.marks)[snapshot].refund
    ensures failed.None? <==> BalanceOf(ViewOf(db.trie, old(db.objects), tx.from)) < tx.amount
    ensures failed.Some? ==> (failed.value <==> call.required > leftOverGas || call.fails)
    ensures failed.Some? && call.required <= leftOverGas ==>
      Ran(db.trie, db.hash, old(db.objects), old(db.refund), tx, call, history, db.marks)
    ensures failed.Some? && call.required > leftOverGas ==> OnlyCalled(db.trie, old(db.objects), db.objects, tx)
    ensures failed.Some? && LeavesNonce(call, leftOverGas, tx.from) ==>
      Recounted(tx, NonceOf(ViewOf(db.trie, db.objects, tx.from)))
  {
    history := [];
    Enter(db, tx);
    var balance := db.GetBalance(tx.from);
    if balance < tx.amount {
      db.RevertToSnapshot(snapshot);
      return None, history;
    }
    Transfer(db, tx, old(db.objects));
    if call.required > leftOverGas {
      return Some(true), history;
    }
    history := RunContract(db, tx, call, snapshot, old(db.objects));
    if LeavesNonce(call, leftOverGas, tx.from) {
      RanCounts(db, tx, call, old(db.objects), old(db.refund), history);
    }
    return Some(call.fails), history;
  }

  /** The nonce that a failed transaction leaves: none below the fork, otherwise past the transaction's. */
  function NonceAfter(tx: Tx, height: nat, current: nat): Option<nat> {
    if height <= NONCE_FORK_HEIGHT then None
    else if tx.nonce >= current then Some((tx.nonce + 1) % TWO_64)
    else Some(current)
  }

  /** A nonce that has been counted is left counted. */
  lemma NonceCounted(tx: Tx, height: nat, current: nat)
    requires Recounted(tx, current)
    ensures NonceAfter(tx, height, current) ==
      if height <= NONCE_FORK_HEIGHT then None else Some((tx.nonce + 1) % TWO_64)
  {
  }

  /** A failed transaction: everything is reverted, then the nonce is set and the fee is paid. */
  method Fail(db: Statedb, tx: Tx, creator: Address, height: nat, snapshot: nat, fee: int, ghost before: Objects)
    returns (ghost current: nat)
    requires db.Valid() && snapshot <= |db.entries| && SameViews(db.trie, db.marks[snapshot].objects, before)
    modifies db
    ensures db.Valid()
    ensures OnlyCharged(db.trie, before, db.objects, tx.from, creator, NonceAfter(tx, height, current), fee)
    ensures current == NonceOf(ViewOf(db.trie, old(db.objects), tx.from))
  {
    var nonce := db.GetNonce(tx.from);
    current := nonce;
    db.RevertToSnapshot(snapshot);
    var after := NonceAfter(tx, height, nonce);
    if after.Some? {
      db.SetNonce(tx.from, after.value);
    }
    HandleFee(db, tx.from, creator, fee);
  }

  function Smaller(m: nat, n: nat): nat {
    if m < n then m else n
  }

  /** The contract ran, and then only the fee has been paid: for the gas less the refund, at most half of it. */
  ghost predicate Completed(trie: Trie, hash: Bytes -> Bytes, x: Objects, y: Objects, tx: Tx, call: Call,
                            creator: Address, gas: nat, usedGas: nat, history: seq<seq<Mark>>) {
    && |history| == |call.ops| + 1 && history[|call.ops|] != []
    && Ran(trie, hash, x, 0, tx, call, history, history[|call.ops|])
    && var end := Last(history[|call.ops|]);
    && usedGas == gas - Smaller(end.refund, gas / 2)
    && OnlyCharged(trie, end.objects, y, tx.from, creator, None, usedGas * tx.price)
  }

  /** A call from states that read alike. */
  lemma RanAlike(trie: Trie, hash: Bytes -> Bytes, x: Objects, x': Objects, tx: Tx, call: Call,
                 history: seq<seq<Mark>>, marks: seq<Mark>)
    requires Ran(trie, hash, x, 0, tx, call, history, marks) && SameViews(trie, x, x')
    ensures Ran(trie, hash, x', 0, tx, call, history, marks)
  {
    var y := Last(history[0]).objects;
    forall a ensures ViewOf(trie, y, a) == CalledView(ViewOf(trie, x', a), a == tx.from, a == tx.to, tx) {
      assert ViewOf(trie, x, a) == ViewOf(trie, x', a);
    }
    forall a: Address, k: StorageKey ensures DataOf(trie, y, a, k) == DataOf(trie, x', a, k) {
      assert DataOf(trie, x, a, k) == DataOf(trie, x', a, k);
    }
  }

  /** The end of Process after a contract that did not fail: the refund, then the fee. */
  method Complete(db: Statedb, tx: Tx, call: Call, creator: Address, gas: nat, ghost before: Objects,
                  ghost history: seq<seq<Mark>>)
    returns (usedGas: nat)
    requires db.Valid() && Ran(db.trie, db.hash, before, 0, tx, call, history, db.marks)
    modifies db
    ensures db.Valid()
    ensures Completed(db.trie, db.hash, before, db.objects, tx, call, creator, gas, usedGas, history)
  {
    var refund := if db.refund > gas / 2 then gas / 2 else db.refund;
    usedGas := gas - refund;
    db.LastMark();
    ghost var ran, last := db.objects, db.marks[|db.entries|];
    HandleFee(db, tx.from, creator, usedGas * tx.price);
    ChargedAlike(db.trie, ran, last.objects, db.objects, tx.from, creator, usedGas * tx.price);
  }

  /** Process, for a transaction to a system contract that is not a gas estimate. */
  method Process(db: Statedb, tx: Tx, call: Call, creator: Address, height: nat, intrinsic: nat)
    returns (r: Outcome, ghost current: nat, ghost history: seq<seq<Mark>>)
    requires db.Valid()
    modifies db
    ensures db.Valid()
    ensures r.Rejected? ==> SameViews(db.trie, db.objects, old(db.objects))
    ensures r.Done? <==> var v := ViewOf(db.trie, old(db.objects), tx.from);
      tx.amount + tx.price * tx.gasLimit <= BalanceOf(v) && tx.amount <= BalanceOf(v) && NonceOf(v) <= tx.nonce
    ensures r.Done? ==> (r.failed <==> call.required > (tx.gasLimit - intrinsic) % TWO_64 || call.fails)
    ensures r.Done? && r.failed ==> r.usedGas == (call.required + intrinsic) % TWO_64
    ensures r.Done? && r.failed ==>
      OnlyCharged(db.trie, old(db.objects), db.objects, tx.from, creator, NonceAfter(tx, height, current),
                  r.usedGas * tx.price)
    ensures r.Done? && r.failed && LeavesNonce(call, (tx.gasLimit - intrinsic) % TWO_64, tx.from) ==>
      NonceAfter(tx, height, current) == if height <= NONCE_FORK_HEIGHT then None else Some((tx.nonce + 1) % TWO_64)
    ensures r.Done? && !r.failed ==>
      Completed(db.trie, db.hash, old(db.objects), db.objects, tx, call, creator,
                (call.required + intrinsic) % TWO_64, r.usedGas, history)
  {
    history := [];
    var balance := db.GetBalance(tx.from);
    var nonce := db.GetNonce(tx.from);
    if !Affordable(tx, balance, nonce) {
      return Rejected, 0, history;
    }
    var snapshot := db.Prepare();
    ghost var prepared := db.objects;
    var failed;
    failed, history := ProcessSystemContract(db, tx, call, snapshot, (tx.gasLimit - intrinsic) % TWO_64);
    if failed.None? {
      return Rejected, 0, history;
    }
    var usedGas := (call.required + intrinsic) % TWO_64;
    if failed.value {
      current := Fail(db, tx, creator, height, snapshot, usedGas * tx.price, old(db.objects));
      if Recounted(tx, current) {
        NonceCounted(tx, height, current);
      }
      return Done(true, usedGas), current, history;
    }
    RanAlike(db.trie, db.hash, prepared, old(db.objects), tx, call, history, db.marks);
    usedGas := Complete(db, tx, call, creator, usedGas, old(db.objects), history);
    return Done(false, usedGas), nonce, history;
  }

  /** Gas that was asked for and not refunded costs no more than the limit. */
  lemma FeeWithinLimit(tx: Tx, required: nat, intrinsic: nat, usedGas: nat)
    requires tx.price >= 0 && intrinsic <= tx.gasLimit < TWO_64
    requires required <= (tx.gasLimit - intrinsic) % TWO_64 && usedGas <= (required + intrinsic) % TWO_64
    ensures usedGas * tx.price <= tx.price * tx.gasLimit
  {
    assert usedGas <= tx.gasLimit;
  }

  /**
    What handleFee counts on: when the limit covers the intrinsic gas and the contract takes nothing from the sender,
    the sender still has the fee, so it is paid in full.
   */
  lemma SenderCanPay(trie: Trie, hash: Bytes -> Bytes, x: Objects, y: Objects, tx: Tx, call: Call, creator: Address,
                     intrinsic: nat, usedGas: nat, history: seq<seq<Mark>>)
    requires Completed(trie, hash, x, y, tx, call, creator, (call.required + intrinsic) % TWO_64, usedGas, history)
    requires Affordable(tx, BalanceOf(ViewOf(trie, x, tx.from)), NonceOf(ViewOf(trie, x, tx.from)))
    requires tx.amount >= 0 && tx.price >= 0 && intrinsic <= tx.gasLimit < TWO_64
    requires call.required <= (tx.gasLimit - intrinsic) % TWO_64
    requires forall op :: op in call.ops ==> !Lowers(op, tx.from)
    ensures usedGas * tx.price <= BalanceOf(ViewOf(trie, Last(history[|call.ops|]).objects, tx.from))
  {
    var n := BalanceOf(ViewOf(trie, x, tx.from)) - tx.amount;
    assert BalanceOf(ViewOf(trie, Last(history[0]).objects, tx.from)) >= n;
    BalanceKept(trie, hash, |history[0]| - 1, call.ops, history, tx.from, n, |call.ops|);
    FeeWithinLimit(tx, call.required, intrinsic, usedGas);
  }

  /** The account of a cross-shard sender, or of the block's creator, after the transfer. */
  function SentView(v: Option<View>, isFrom: bool, isCreator: bool, tx: Tx): Option<View> {
    var v1 := if isFrom && v.Some? then Some(v.value.(nonce := (tx.nonce + 1) % TWO_64)) else v;
    var v2 := if isFrom then Plus(Plus(v1, -tx.amount), -(tx.price * Conservation.CROSS_SHARD_TOTAL_GAS)) else v1;
    if isCreator then Plus(v2, tx.price * Conservation.CROSS_SHARD_GAS) else v2
  }

  ghost predicate OnlySent(trie: Trie, x: Objects, y: Objects, tx: Tx, creator: Address) {
    && (forall a :: ViewOf(trie, y, a) == SentView(ViewOf(trie, x, a), a == tx.from, a == creator, tx))
    && (forall a, k :: DataOf(trie, y, a, k) == DataOf(trie, x, a, k))
  }

  /** Two changes of one account. */
  lemma ViewTwice(trie: Trie, x: Objects, y: Objects, z: Objects, a: Address)
    requires OnlyView(trie, x, y, a, ViewOf(trie, y, a)) && OnlyView(trie, y, z, a, ViewOf(trie, z, a))
    ensures OnlyView(trie, x, z, a, ViewOf(trie, z, a))
  {
    forall b | b != a ensures ViewOf(trie, z, b) == ViewOf(trie, x, b) {
      assert ViewOf(trie, y, b) == ViewOf(trie, x, b);
    }
    forall b, k ensures DataOf(trie, z, b, k) == DataOf(trie, x, b, k) {
      assert DataOf(trie, y, b, k) == DataOf(trie, x, b, k);
    }
  }

  /** Subtract from a balance that is large enough. */
  method Spend(db: Statedb, a: Address, n: int) returns (ok: bool)
    requires db.Valid()
    modifies db
    ensures db.Valid() && Grown(old(db.marks), db.marks, old(db.entries), db.entries) && db.refund == old(db.refund)
    ensures ok <==> n <= BalanceOf(ViewOf(db.trie, old(db.objects), a))
    ensures ok ==> OnlyView(db.trie, old(db.objects), db.objects, a, Plus(ViewOf(db.trie, old(db.objects), a), -n))
  {
    var balance := db.GetBalance(a);
    ok := balance >= n;
    if ok {
      db.SubBalance(a, n);
    }
  }

  /** The sender's nonce, amount and fee of processCrossShardTransaction. */
  method DebitSender(db: Statedb, tx: Tx) returns (ok: bool)
    requires db.Valid() && tx.amount >= 0 && tx.price >= 0
    modifies db
    ensures db.Valid() && Grown(old(db.marks), db.marks, old(db.entries), db.entries) && db.refund == old(db.refund)
    ensures ok <==>
      tx.amount + tx.price * Conservation.CROSS_SHARD_TOTAL_GAS <= BalanceOf(ViewOf(db.trie, old(db.objects), tx.from))
    ensures ok ==>
      OnlyView(db.trie, old(db.objects), db.objects, tx.from,
               SentView(ViewOf(db.trie, old(db.objects), tx.from), true, false, tx))
  {
    var fee := tx.price * Conservation.CROSS_SHARD_TOTAL_GAS;
    db.SetNonce(tx.from, (tx.nonce + 1) % TWO_64);
    ghost var named := db.objects;
    ok := Spend(db, tx.from, tx.amount);
    if !ok {
      return;
    }
    ghost var reduced := db.objects;
    ok := Spend(db, tx.from, fee);
    if ok {
      ViewTwice(db.trie, old(db.objects), named, reduced, tx.from);
      ViewTwice(db.trie, old(db.objects), reduced, db.objects, tx.from);
    }
  }

  /**
    processCrossShardTransaction, without the state root: the debt that the receiving shard applies is the rest of the
    fee.
   */
  method ProcessCrossShard(db: Statedb, tx: Tx, creator: Address, snapshot: nat) returns (ok: bool)
    requires db.Valid() && snapshot == |db.entries| && tx.amount >= 0 && tx.price >= 0
    requires SameViews(db.trie, db.marks[snapshot].objects, db.objects)
    modifies db
    ensures db.Valid()
    ensures ok <==>
      tx.amount + tx.price * Conservation.CROSS_SHARD_TOTAL_GAS <= BalanceOf(ViewOf(db.trie, old(db.objects), tx.from))
    ensures if ok then OnlySent(db.trie, old(db.objects), db.objects, tx, creator)
            else SameViews(db.trie, db.objects, old(db.objects))
  {
    ok := DebitSender(db, tx);
    if !ok {
      db.RevertToSnapshot(snapshot);
      return;
    }
    db.AddBalance(creator, tx.price * Conservation.CROSS_SHARD_GAS);
  }

  /** Process, for a cross-shard transaction to an account that is no contract and that is not a gas estimate. */
  method ProcessTransfer(db: Statedb, tx: Tx, creator: Address) returns (ok: bool)
    requires db.Valid() && tx.amount >= 0 && tx.price >= 0
    modifies db
    ensures db.Valid()
    ensures ok <==> var v := ViewOf(db.trie, old(db.objects), tx.from);
      && tx.amount + tx.price * tx.gasLimit <= BalanceOf(v) && NonceOf(v) <= tx.nonce
      && tx.amount + tx.price * Conservation.CROSS_SHARD_TOTAL_GAS <= BalanceOf(v)
    ensures if ok then OnlySent(db.trie, old(db.objects), db.objects, tx, creator)
            else SameViews(db.trie, db.objects, old(db.objects))
  {
    var balance := db.GetBalance(tx.from);
    var nonce := db.GetNonce(tx.from);
    if !Affordable(tx, balance, nonce) {
      return false;
    }
    var snapshot := db.Prepare();
    ok := ProcessCrossShard(db, tx, creator, snapshot);
  }

  /** The account of a debt's receiver, created when it is missing, or of the block's creator. */
  function ReceivedView(v: Option<View>, isReceiver: bool, isCreator: bool, amount: int, fee: int): Option<View> {
    var v1 := if isReceiver && v.None? then Some(View(0, 0, [], [], false)) else v;
    var v2 := if isReceiver then Plus(v1, amount) else v1;
    if isCreator then Plus(v2, fee) else v2
  }

  ghost predicate OnlyReceived(trie: Trie, x: Objects, y: Objects, receiver: Address, creator: Address, amount: int,
                               fee: int) {
    && (forall a :: ViewOf(trie, y, a) == ReceivedView(ViewOf(trie, x, a), a == receiver, a == creator, amount, fee))
    && (forall a, k :: DataOf(trie, y, a, k) == DataOf(trie, x, a, k))
  }

  /** The balance changes of ApplyDebtWithoutVerify. */
  method ApplyDebt(db: Statedb, receiver: Address, amount: int, price: int, creator: Address) returns (ok: bool)
    requires db.Valid()
    modifies db
    ensures db.Valid() && (ok <==> amount >= 0 && price * Conservation.DEBT_GAS >= 0)
    ensures OnlyReceived(db.trie, old(db.objects), db.objects, receiver, creator, if ok then amount else 0,
                         if ok then price * Conservation.DEBT_GAS else 0)
  {
    db.CreateAccount(receiver);
    if amount < 0 || price * Conservation.DEBT_GAS < 0 {
      return false;
    }
    db.AddBalance(receiver, amount);
    db.AddBalance(creator, price * Conservation.DEBT_GAS);
    return true;
  }

  /** ApplyRewardTx, without the state root. */
  method ApplyReward(db: Statedb, to: Address, coins: nat)
    requires db.Valid()
    modifies db
    ensures db.Valid() && OnlyReceived(db.trie, old(db.objects), db.objects, to, to, coins, 0)
  {
    db.CreateAccount(to);
    db.AddBalance(to, coins);
  }

  /** `b` holds the balances of the shard's accounts. */
  ghost predicate Represents(b: Conservation.Balances, shard: nat, trie: Trie, objects: Objects) {
    forall a: Address :: var h, v := Conservation.Holder(shard, a), ViewOf(trie, objects, a);
      (h in b <==> v.Some?) && (v.Some? ==> b[h] == v.value.amount)
  }

  /** The ledger's balance of one account of the sending shard, as SentView computes it. */
  lemma SentAt(b: Conservation.Balances, op: Conservation.Op, a: Address)
    requires op.Send?
    ensures var h := Conservation.Holder(op.from.shard, a);
      && (h in Conservation.Sent(b, op) <==> h in b)
      && (h in b ==>
            Conservation.Sent(b, op)[h] ==
            SentAmount(b[h], a == op.from.address, a == op.creator, op.amount, op.price))
  {
  }

  function SentAmount(n: int, isFrom: bool, isCreator: bool, amount: int, price: int): int {
    var n1 := if isFrom then Lower(n, amount) else n;
    var n2 := if isFrom then Lower(n1, price * Conservation.CROSS_SHARD_TOTAL_GAS) else n1;
    if isCreator then Lower(n2, -(price * Conservation.CROSS_SHARD_GAS)) else n2
  }

  function Lower(n: int, x: int): int {
    if n - x >= 0 then n - x else n
  }

  /** A cross-shard transfer changes the balances as the ledger of all shards says. */
  lemma SentRepresents(b: Conservation.Balances, trie: Trie, x: Objects, y: Objects, tx: Tx, creator: Address,
                       op: Conservation.Op)
    requires op.Send? && op.from.address == tx.from && op.amount == tx.amount && op.price == tx.price
    requires op.creator == creator
    requires Represents(b, op.from.shard, trie, x) && OnlySent(trie, x, y, tx, creator)
    ensures Represents(Conservation.Sent(b, op), op.from.shard, trie, y)
  {
    var b' := Conservation.Sent(b, op);
    forall a: Address ensures var h, v := Conservation.Holder(op.from.shard, a), ViewOf(trie, y, a);
      (h in b' <==> v.Some?) && (v.Some? ==> b'[h] == v.value.amount)
    {
      assert ViewOf(trie, y, a) == SentView(ViewOf(trie, x, a), a == tx.from, a == creator, tx);
      SentAt(b, op, a);
    }
  }

  lemma ReceivedRepresents(b: Conservation.Balances, trie: Trie, x: Objects, y: Objects, d: Conservation.Debt,
                           creator: Address)
    requires Represents(b, d.to.shard, trie, x)
    requires OnlyReceived(trie, x, y, d.to.address, creator, d.amount, Conservation.Fee(d))
    ensures Represents(Conservation.Received(b, d, Conservation.Holder(d.to.shard, creator)), d.to.shard, trie, y)
  {
    var b' := Conservation.Received(b, d, Conservation.Holder(d.to.shard, creator));
    forall a: Address ensures var h, v := Conservation.Holder(d.to.shard, a), ViewOf(trie, y, a);
      (h in b' <==> v.Some?) && (v.Some? ==> b'[h] == v.value.amount)
    {
      assert ViewOf(trie, y, a) ==
        ReceivedView(ViewOf(trie, x, a), a == d.to.address, a == creator, d.amount, Conservation.Fee(d));
    }
  }
}
