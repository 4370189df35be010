/** The hash-time-lock system contract (contract/system/htlc.go), run as core/svm/svm.go runs it. */
module Htlc {
  import opened Common
  import Conservation

  type Address = nat
  type TxHash = nat

  /** HashTimeLockContractAddress; it has no key, so no transaction is sent from it. */
  const CONTRACT: Address := 0

  datatype Lock = Lock(from: Address, to: Address, amount: int, hashLock: Bytes, timeLock: int,
                       refunded: bool, withdrawn: bool, preimage: Bytes)

  type Locks = map<TxHash, Lock>

  datatype Command =
    | NewContract(hashLock: Bytes, timeLock: int, to: Address)
    | Withdraw(key: TxHash, preimage: Bytes)
    | Refund(key: TxHash)
    | GetContract(key: TxHash)
    | Malformed

  datatype Tx = Tx(hash: TxHash, from: Address, amount: int, cmd: Command)

  /** A payment out of the contract. */
  datatype Payout = Payout(key: TxHash, to: Address, amount: int, time: int, preimage: Option<Bytes>)

  type Balances = map<Address, int>

  predicate Open(l: Lock) {
    !l.withdrawn && !l.refunded
  }

  /** withdrawable and the hash check; whether the lock was refunded is not looked at. */
  predicate Withdrawable(sha: Bytes -> Bytes, l: Lock, from: Address, preimage: Bytes, now: int) {
    sha(preimage) == l.hashLock && from == l.to && now < l.timeLock && !l.withdrawn
  }

  predicate Refundable(l: Lock, from: Address, now: int) {
    from == l.from && now >= l.timeLock && !l.withdrawn && !l.refunded
  }

  /** What the contract owes: the amounts of the open locks. */
  ghost function OpenAmounts(locks: Locks): map<TxHash, int> {
    map h | h in locks && Open(locks[h]) :: locks[h].amount
  }

  /** The payment was due: to the receiver with the preimage before the time lock, or to the sender from then on. */
  ghost predicate Due(sha: Bytes -> Bytes, locks: Locks, p: Payout) {
    p.key in locks && var l := locks[p.key];
    p.amount == l.amount &&
    if p.preimage.Some? then l.withdrawn && p.to == l.to && sha(p.preimage.value) == l.hashLock && p.time < l.timeLock
    else l.refunded && p.to == l.from && p.time >= l.timeLock
  }

  /** Every payment was due, no lock was paid twice, and exactly the closed locks were paid. */
  ghost predicate Paid(sha: Bytes -> Bytes, locks: Locks, paid: seq<Payout>, now: int) {
    && (forall i :: 0 <= i < |paid| ==> Due(sha, locks, paid[i]))
    && (forall i, j :: 0 <= i < j < |paid| ==> paid[i].key != paid[j].key)
    && (forall h :: h in locks && !Open(locks[h]) ==> exists i :: 0 <= i < |paid| && paid[i].key == h)
    && (forall h :: h in locks && locks[h].refunded ==> now >= locks[h].timeLock)
  }

  /** The contract's balance covers the open locks. */
  ghost predicate Covered(locks: Locks, balances: Balances) {
    && (forall h :: h in locks ==> locks[h].amount > 0)
    && Conservation.Total(OpenAmounts(locks)) <= Conservation.BalanceOf(balances, CONTRACT)
  }

  lemma OpenTotal(locks: Locks, h: TxHash)
    requires forall k :: k in locks ==> locks[k].amount > 0
    requires h in locks && Open(locks[h])
    ensures Conservation.Total(OpenAmounts(locks)) == locks[h].amount + Conservation.Total(OpenAmounts(locks) - {h})
    ensures Conservation.Total(OpenAmounts(locks)) >= locks[h].amount
  {
    Conservation.TotalAt(OpenAmounts(locks), h);
    TotalNonNegative(OpenAmounts(locks) - {h});
  }

  lemma {:induction false} TotalNonNegative(m: map<TxHash, int>)
    requires forall h :: h in m ==> m[h] >= 0
    ensures Conservation.Total(m) >= 0
    decreases |m|
  {
    if m != map[] {
      var h :| h in m;
      Conservation.TotalAt(m, h);
      assert |(m - {h}).Keys| < |m.Keys|;
      TotalNonNegative(m - {h});
    }
  }

  /** Closing a lock takes its amount from what the contract owes. */
  lemma CloseTotal(locks: Locks, h: TxHash, l: Lock)
    requires (forall k :: k in locks ==> locks[k].amount > 0) && h in locks && Open(locks[h]) && !Open(l)
    ensures Conservation.Total(OpenAmounts(locks[h := l])) == Conservation.Total(OpenAmounts(locks)) - locks[h].amount
  {
    OpenTotal(locks, h);
    assert OpenAmounts(locks[h := l]) == OpenAmounts(locks) - {h};
  }

  lemma NewTotal(locks: Locks, h: TxHash, l: Lock)
    requires h !in locks && Open(l)
    ensures Conservation.Total(OpenAmounts(locks[h := l])) == Conservation.Total(OpenAmounts(locks)) + l.amount
  {
    assert OpenAmounts(locks[h := l]) == OpenAmounts(locks)[h := l.amount];
    Conservation.TotalWith(OpenAmounts(locks), h, l.amount);
  }

  /** A lock that can be withdrawn is open: had it been refunded, the time lock would be over. */
  lemma WithdrawableIsOpen(sha: Bytes -> Bytes, locks: Locks, paid: seq<Payout>, was: int, h: TxHash, from: Address,
                           preimage: Bytes, now: int)
    requires Paid(sha, locks, paid, was) && was <= now && h in locks && Withdrawable(sha, locks[h], from, preimage, now)
    ensures Open(locks[h])
  {
  }

  /** One more payment. */
  lemma PayOnce(sha: Bytes -> Bytes, locks: Locks, paid: seq<Payout>, now: int, h: TxHash, l: Lock, p: Payout)
    requires Paid(sha, locks, paid, now) && h in locks && Open(locks[h]) && p.key == h && Due(sha, locks[h := l], p)
    requires !Open(l) && (l.refunded ==> now >= l.timeLock)
    ensures Paid(sha, locks[h := l], paid + [p], now)
  {
    var locks', paid' := locks[h := l], paid + [p];
    forall i | 0 <= i < |paid| ensures paid[i].key != h {
      assert Due(sha, locks, paid[i]);
    }
    forall k | k in locks' && !Open(locks'[k]) ensures exists i :: 0 <= i < |paid'| && paid'[i].key == k {
      if k == h {
        assert paid'[|paid|].key == k;
      } else {
        var i :| 0 <= i < |paid| && paid[i].key == k;
        assert paid'[i].key == k;
      }
    }
  }

  ghost predicate NonNegative(b: Balances) {
    forall a :: a in b ==> b[a] >= 0
  }

  /** The balances after the sender has paid `n` into the contract, which is created when it is missing. */
  function PaidIn(b: Balances, from: Address, n: int): Balances {
    var b1 := if CONTRACT in b then b else b[CONTRACT := 0];
    Conservation.Credit(Conservation.Credit(b1, from, -n), CONTRACT, n)
  }

  /** The balances after the contract has paid `n` to `to`. */
  function PaidOut(b: Balances, to: Address, n: int): Balances {
    Conservation.Credit(Conservation.Credit(b, CONTRACT, -n), to, n)
  }

  lemma PaidInExact(b: Balances, from: Address, n: int)
    requires NonNegative(b) && from != CONTRACT && from in b && 0 <= n <= b[from]
    ensures var b' := PaidIn(b, from, n);
      && NonNegative(b') && b'.Keys == b.Keys + {CONTRACT} && b'[from] == b[from] - n
      && b'[CONTRACT] == Conservation.BalanceOf(b, CONTRACT) + n
      && forall a :: a in b && a != from && a != CONTRACT ==> b'[a] == b[a]
  {
  }

  lemma PaidOutExact(b: Balances, to: Address, n: int)
    requires NonNegative(b) && to != CONTRACT && to in b && CONTRACT in b && 0 <= n <= b[CONTRACT]
    ensures var b' := PaidOut(b, to, n);
      && NonNegative(b') && b'.Keys == b.Keys && b'[to] == b[to] + n && b'[CONTRACT] == b[CONTRACT] - n
      && forall a :: a in b && a != to && a != CONTRACT ==> b'[a] == b[a]
  {
  }

  /** When the contract accepts the command. */
  predicate Accepted(sha: Bytes -> Bytes, locks: Locks, tx: Tx, now: int) {
    match tx.cmd
    case NewContract(_, timeLock, _) => tx.amount > 0 && now < timeLock
    case Withdraw(key, preimage) =>
      && key in locks && tx.from == locks[key].to && sha(preimage) == locks[key].hashLock
      && now < locks[key].timeLock && !locks[key].withdrawn
    case Refund(key) =>
      key in locks && tx.from == locks[key].from && locks[key].timeLock <= now && Open(locks[key])
    case GetContract(key) => key in locks
    case Malformed => false
  }

  function LocksAfter(locks: Locks, tx: Tx): Locks {
    match tx.cmd
    case NewContract(hashLock, timeLock, to) =>
      locks[tx.hash := Lock(tx.from, to, tx.amount, hashLock, timeLock, false, false, [])]
    case Withdraw(key, preimage) =>
      if key in locks then locks[key := locks[key].(withdrawn := true, preimage := preimage)] else locks
    case Refund(key) => if key in locks then locks[key := locks[key].(refunded := true)] else locks
    case _ => locks
  }

  /** The sender's amount goes in, and a closed lock's amount goes out to the sender of the command. */
  function BalancesAfter(locks: Locks, b: Balances, tx: Tx): Balances {
    var b1 := PaidIn(b, tx.from, tx.amount);
    if (tx.cmd.Withdraw? || tx.cmd.Refund?) && tx.cmd.key in locks then PaidOut(b1, tx.from, locks[tx.cmd.key].amount)
    else b1
  }

  class HtlcContract {
    const sha: Bytes -> Bytes
    var locks: Locks
    var balances: Balances
    var now: int
    ghost var paid: seq<Payout>

    ghost predicate Valid()
      reads this
    {
      Paid(sha, locks, paid, now) && Covered(locks, balances) && NonNegative(balances)
    }

    constructor (sha: Bytes -> Bytes, balances: Balances, now: int)
      requires NonNegative(balances)
      ensures Valid() && locks == map[] && paid == []
      ensures this.sha == sha && this.balances == balances && this.now == now
    {
      this.sha := sha;
      locks, this.balances, this.now := map[], balances, now;
      paid := [];
    }

    /** newHTLC; the amount has been paid in. */
    method NewHtlc(tx: Tx) returns (ok: bool)
      requires tx.cmd.NewContract? && tx.hash !in locks
      requires Paid(sha, locks, paid, now) && NonNegative(balances)
      requires forall h :: h in locks ==> locks[h].amount > 0
      requires Conservation.Total(OpenAmounts(locks)) + tx.amount <= Conservation.BalanceOf(balances, CONTRACT)
      modifies this`locks
      ensures ok <==> tx.amount > 0 && now < tx.cmd.timeLock
      ensures ok ==> Valid()
      ensures ok ==>
        locks ==
        old(locks)[tx.hash := Lock(tx.from, tx.cmd.to, tx.amount, tx.cmd.hashLock, tx.cmd.timeLock, false, false, [])]
      ensures !ok ==> locks == old(locks)
    {
      if tx.amount <= 0 || now >= tx.cmd.timeLock {
        return false;
      }
      var l := Lock(tx.from, tx.cmd.to, tx.amount, tx.cmd.hashLock, tx.cmd.timeLock, false, false, []);
      NewTotal(locks, tx.hash, l);
      forall i | 0 <= i < |paid| ensures Due(sha, locks[tx.hash := l], paid[i]) {
        assert Due(sha, locks, paid[i]);
      }
      locks := locks[tx.hash := l];
      return true;
    }

    /** Close a lock and pay it out. */
    method Close(h: TxHash, l: Lock, p: Payout)
      requires Valid() && h in locks && Open(locks[h]) && !Open(l) && l.amount == locks[h].amount
      requires p.key == h && p.amount == l.amount && p.to != CONTRACT && p.to in balances
      requires Due(sha, locks[h := l], p) && (l.refunded ==> now >= l.timeLock)
      modifies this`locks, this`balances, this`paid
      ensures Valid() && locks == old(locks)[h := l] && paid == old(paid) + [p]
      ensures balances == PaidOut(old(balances), p.to, p.amount) && CONTRACT in balances
      ensures balances[CONTRACT] == old(balances)[CONTRACT] - p.amount
      ensures balances[p.to] == old(balances)[p.to] + p.amount
    {
      CloseTotal(locks, h, l);
      OpenTotal(locks, h);
      PaidOutExact(balances, p.to, p.amount);
      PayOnce(sha, locks, paid, now, h, l, p);
      locks := locks[h := l];
      balances := PaidOut(balances, p.to, p.amount);
      paid := paid + [p];
    }

    /** withdraw */
    method DoWithdraw(tx: Tx) returns (ok: bool)
      requires Valid() && tx.cmd.Withdraw? && tx.from != CONTRACT && tx.from in balances
      modifies this`locks, this`balances, this`paid
      ensures Valid()
      ensures ok <==> tx.cmd.key in old(locks) && var l := old(locks)[tx.cmd.key];
        tx.from == l.to && sha(tx.cmd.preimage) == l.hashLock && now < l.timeLock && !l.withdrawn
      ensures !ok ==> locks == old(locks) && balances == old(balances) && paid == old(paid)
      ensures ok ==> var l := old(locks)[tx.cmd.key];
        && locks == old(locks)[tx.cmd.key := l.(withdrawn := true, preimage := tx.cmd.preimage)]
        && paid == old(paid) + [Payout(tx.cmd.key, l.to, l.amount, now, Some(tx.cmd.preimage))]
        && balances == PaidOut(old(balances), tx.from, l.amount)
        && tx.from in balances && balances[tx.from] == old(balances)[tx.from] + l.amount
    {
      var h := tx.cmd.key;
      if h !in locks || !Withdrawable(sha, locks[h], tx.from, tx.cmd.preimage, now) {
        return false;
      }
      WithdrawableIsOpen(sha, locks, paid, now, h, tx.from, tx.cmd.preimage, now);
      var l := locks[h].(withdrawn := true, preimage := tx.cmd.preimage);
      Close(h, l, Payout(h, l.to, l.amount, now, Some(tx.cmd.preimage)));
      return true;
    }

    /** refund */
    method DoRefund(tx: Tx) returns (ok: bool)
      requires Valid() && tx.cmd.Refund? && tx.from != CONTRACT && tx.from in balances
      modifies this`locks, this`balances, this`paid
      ensures Valid()
      ensures ok <==> tx.cmd.key in old(locks) && var l := old(locks)[tx.cmd.key];
        tx.from == l.from && l.timeLock <= now && !l.withdrawn && !l.refunded
      ensures !ok ==> locks == old(locks) && balances == old(balances) && paid == old(paid)
      ensures ok ==> var l := old(locks)[tx.cmd.key];
        && locks == old(locks)[tx.cmd.key := l.(refunded := true)]
        && paid == old(paid) + [Payout(tx.cmd.key, l.from, l.amount, now, None)]
        && balances == PaidOut(old(balances), tx.from, l.amount)
        && tx.from in balances && balances[tx.from] == old(balances)[tx.from] + l.amount
    {
      var h := tx.cmd.key;
      if h !in locks || !Refundable(locks[h], tx.from, now) {
        return false;
      }
      var l := locks[h].(refunded := true);
      Close(h, l, Payout(h, l.from, l.amount, now, None));
      return true;
    }

    /** Time passes and the sender pays the transaction's amount in. */
    method PayIn(tx: Tx, time: int)
      requires Valid() && time >= now && tx.from != CONTRACT && tx.from in balances
      requires 0 <= tx.amount <= balances[tx.from]
      modifies this`balances, this`now
      ensures Valid() && now == time && balances == PaidIn(old(balances), tx.from, tx.amount) && tx.from in balances
      ensures Conservation.Total(OpenAmounts(locks)) + tx.amount <= Conservation.BalanceOf(balances, CONTRACT)
    {
      PaidInExact(balances, tx.from, tx.amount);
      now := time;
      balances := PaidIn(balances, tx.from, tx.amount);
    }

    /**
      A transaction to the contract in a block of the given time: what processSystemContract and the contract do, undone
      when the contract fails. The fee is paid apart.
     */
    method Process(tx: Tx, time: int) returns (ok: bool)
      requires Valid() && time >= now && tx.hash !in locks && tx.from != CONTRACT
      modifies this
      ensures Valid() && now == time && old(paid) <= paid
      ensures ok <==>
        tx.from in old(balances) && 0 <= tx.amount <= old(balances)[tx.from] && Accepted(sha, old(locks), tx, time)
      ensures !ok ==> locks == old(locks) && balances == old(balances) && paid == old(paid)
      ensures ok ==> locks == LocksAfter(old(locks), tx) && balances == BalancesAfter(old(locks), old(balances), tx)
      ensures ok && (tx.cmd.Withdraw? || tx.cmd.Refund?) <==> |paid| == |old(paid)| + 1
    {
      if tx.from !in balances || tx.amount < 0 || balances[tx.from] < tx.amount {
        now := time;
        return false;
      }
      var savedBalances := balances;
      PayIn(tx, time);
      match tx.cmd {
        case NewContract(_, _, _) => ok := NewHtlc(tx);
        case Withdraw(_, _) => ok := DoWithdraw(tx);
        case Refund(_) => ok := DoRefund(tx);
        case GetContract(key) => ok := key in locks;
        case Malformed => ok := false;
      }
      if !ok {
        balances := savedBalances;
      }
    }

    /** The fee of a transaction goes from its sender to the block's creator. */
    method PayFee(from: Address, creator: Address, fee: int)
      requires Valid() && from != CONTRACT && fee >= 0
      modifies this`balances
      ensures Valid() && balances == Conservation.Credit(Conservation.Credit(old(balances), from, -fee), creator, fee)
    {
      balances := Conservation.Credit(Conservation.Credit(balances, from, -fee), creator, fee);
    }
  }
}
