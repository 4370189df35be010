/** Coins across shards: rewards, transfers and the debts they leave (core/svm/svm.go, core/types/debt.go). */
module Conservation {

  /** An account of a shard. */
  datatype Holder = Holder(shard: nat, address: nat)

  type Balances = map<Holder, int>

  const TRANSFER_GAS: nat := 21000
  /** CrossShardTransactionGas, DebtGas and CrossShardTotalGas */
  const CROSS_SHARD_GAS: nat := TRANSFER_GAS
  const DEBT_GAS: nat := 2 * TRANSFER_GAS
  const CROSS_SHARD_TOTAL_GAS: nat := CROSS_SHARD_GAS + DEBT_GAS

  datatype Debt = Debt(to: Holder, amount: int, price: int)

  /** Debt.Fee */
  function Fee(d: Debt): int {
    d.price * DEBT_GAS
  }

  ghost function Total<K(!new)>(m: map<K, int>): int {
    if m == map[] then 0
    else
      var k :| k in m;
      m[k] + Total(m - {k})
  }

  lemma {:induction false} TotalAt<K(!new)>(m: map<K, int>, k: K)
    requires k in m
    ensures Total(m) == m[k] + Total(m - {k})
    decreases |m|
  {
    var j :| j in m && Total(m) == m[j] + Total(m - {j});
    if j != k {
      assert |(m - {j}).Keys| < |m.Keys| && |(m - {k}).Keys| < |m.Keys|;
      TotalAt(m - {j}, k);
      TotalAt(m - {k}, j);
      assert m - {j} - {k} == m - {k} - {j};
    }
  }

  lemma TotalWith<K(!new)>(m: map<K, int>, k: K, v: int)
    ensures Total(m[k := v]) == Total(m) + v - (if k in m then m[k] else 0)
  {
    TotalAt(m[k := v], k);
    assert m[k := v] - {k} == m - {k};
    if k in m {
      TotalAt(m, k);
    } else {
      assert m - {k} == m;
    }
  }

  datatype Ledger = Ledger(balances: Balances, pending: map<nat, Debt>, minted: int, lost: int)

  datatype Op =
    | Reward(miner: Holder, coins: nat)
    | Send(from: Holder, to: Holder, amount: int, price: int, gasLimit: nat, creator: nat, id: nat)
    | Apply(debt: nat, creator: nat)

  /** Statedb.AddBalance and SubBalance: nothing happens to a missing account, or when the balance would be negative. */
  function Credit<K>(b: map<K, int>, h: K, n: int): map<K, int> {
    if h in b && b[h] + n >= 0 then b[h := b[h] + n] else b
  }

  function BalanceOf<K>(b: map<K, int>, h: K): int {
    if h in b then b[h] else 0
  }

  /** ValidateState and the checks of processCrossShardTransaction; amounts and prices below zero are refused before. */
  predicate Sendable(l: Ledger, op: Op)
    requires op.Send?
  {
    && op.amount >= 0 && op.price >= 0 && op.from.shard != op.to.shard && op.id !in l.pending
    && op.amount + op.price * op.gasLimit <= BalanceOf(l.balances, op.from)
    && op.amount + op.price * CROSS_SHARD_TOTAL_GAS <= BalanceOf(l.balances, op.from)
  }

  /** What is paid to a creator that has no account is gone. */
  function Unpaid(b: Balances, h: Holder, n: int): int {
    if h in b then 0 else n
  }

  /** The balances of the sending shard: the sender pays amount and fee, the block's creator gets its part. */
  function Sent(b: Balances, op: Op): Balances
    requires op.Send?
  {
    var b1 := Credit(b, op.from, -op.amount);
    var b2 := Credit(b1, op.from, -(op.price * CROSS_SHARD_TOTAL_GAS));
    Credit(b2, Holder(op.from.shard, op.creator), op.price * CROSS_SHARD_GAS)
  }

  /** ApplyDebtWithoutVerify: the account is created when it is missing; the creator gets the debt's fee. */
  function Received(b: Balances, d: Debt, creator: Holder): Balances {
    var b1 := if d.to in b then b else b[d.to := 0];
    Credit(Credit(b1, d.to, d.amount), creator, Fee(d))
  }

  function Step(l: Ledger, op: Op): Ledger {
    match op
    case Reward(miner, coins) =>
      var b := if miner in l.balances then l.balances else l.balances[miner := 0];
      l.(balances := Credit(b, miner, coins), minted := l.minted + coins)
    case Send(from, to, amount, price, _, creator, id) =>
      if !Sendable(l, op) then l
      else
        l.(balances := Sent(l.balances, op), pending := l.pending[id := Debt(to, amount, price)],
           lost := l.lost + Unpaid(l.balances, Holder(from.shard, creator), price * CROSS_SHARD_GAS))
    case Apply(id, creator) =>
      if id !in l.pending || l.pending[id].amount < 0 || Fee(l.pending[id]) < 0 then l
      else
        var d := l.pending[id];
        var c := Holder(d.to.shard, creator);
        l.(balances := Received(l.balances, d, c), pending := l.pending - {id},
           lost := l.lost + if c == d.to then 0 else Unpaid(l.balances, c, Fee(d)))
  }

  /** Amount and fee of every debt that has not been applied. */
  ghost function Owed(pending: map<nat, Debt>): map<nat, int> {
    map id | id in pending :: pending[id].amount + Fee(pending[id])
  }

  /** All coins there are, in balances, on the way and lost, less those minted. */
  ghost function Wealth(l: Ledger): int {
    Total(l.balances) + Total(Owed(l.pending)) + l.lost - l.minted
  }

  ghost predicate Solvent(l: Ledger) {
    && NonNegative(l.balances)
    && (forall id :: id in l.pending ==> l.pending[id].amount >= 0 && l.pending[id].price >= 0)
  }

  lemma CreditTotal(b: Balances, h: Holder, n: int)
    requires h in b && b[h] + n >= 0
    ensures Total(Credit(b, h, n)) == Total(b) + n
  {
    TotalWith(b, h, b[h] + n);
  }

  lemma RewardConserves(l: Ledger, op: Op)
    requires Solvent(l) && op.Reward?
    ensures Solvent(Step(l, op)) && Wealth(Step(l, op)) == Wealth(l)
  {
    TotalWith(l.balances, op.miner, 0);
    var b := if op.miner in l.balances then l.balances else l.balances[op.miner := 0];
    CreditTotal(b, op.miner, op.coins);
  }

  lemma OwedWith(pending: map<nat, Debt>, id: nat, d: Debt)
    requires id !in pending
    ensures Total(Owed(pending[id := d])) == Total(Owed(pending)) + d.amount + Fee(d)
  {
    assert Owed(pending[id := d]) == Owed(pending)[id := d.amount + Fee(d)];
    TotalWith(Owed(pending), id, d.amount + Fee(d));
  }

  lemma OwedWithout(pending: map<nat, Debt>, id: nat)
    requires id in pending
    ensures Total(Owed(pending - {id})) == Total(Owed(pending)) - pending[id].amount - Fee(pending[id])
  {
    assert Owed(pending - {id}) == Owed(pending) - {id};
    TotalAt(Owed(pending), id);
  }

  ghost predicate NonNegative(b: Balances) {
    forall h :: h in b ==> b[h] >= 0
  }

  lemma PaidTotal(b: Balances, from: Holder, x: int, y: int)
    requires NonNegative(b) && x >= 0 && y >= 0 && x + y <= BalanceOf(b, from)
    ensures var b2 := Credit(Credit(b, from, -x), from, -y);
      NonNegative(b2) && b2.Keys == b.Keys && Total(b2) == Total(b) - x - y
  {
    if from in b {
      CreditTotal(b, from, -x);
      CreditTotal(Credit(b, from, -x), from, -y);
    }
  }

  /** The fee of a cross-shard transfer is the part of the sending creator and that of the receiving one. */
  lemma FeeSplits(price: int)
    ensures price * CROSS_SHARD_TOTAL_GAS == price * CROSS_SHARD_GAS + price * DEBT_GAS
    ensures price >= 0 ==> price * CROSS_SHARD_GAS >= 0 && price * DEBT_GAS >= 0
  {
  }

  lemma PaidOn(b: Balances, from: Holder, amount: int, fee: int, c: Holder, part: int)
    requires NonNegative(b) && amount >= 0 && 0 <= part <= fee && amount + fee <= BalanceOf(b, from)
    ensures var b3 := Credit(Credit(Credit(b, from, -amount), from, -fee), c, part);
      NonNegative(b3) && Total(b3) + Unpaid(b, c, part) == Total(b) - amount - (fee - part)
  {
    PaidTotal(b, from, amount, fee);
    var b2 := Credit(Credit(b, from, -amount), from, -fee);
    if c in b2 {
      CreditTotal(b2, c, part);
    }
  }

  lemma SentTotal(b: Balances, op: Op)
    requires NonNegative(b) && op.Send? && op.amount >= 0 && op.price >= 0
    requires op.amount + op.price * CROSS_SHARD_TOTAL_GAS <= BalanceOf(b, op.from)
    ensures NonNegative(Sent(b, op))
    ensures Total(Sent(b, op)) + Unpaid(b, Holder(op.from.shard, op.creator), op.price * CROSS_SHARD_GAS)
      == Total(b) - op.amount - op.price * DEBT_GAS
  {
    FeeSplits(op.price);
    PaidOn(b, op.from, op.amount, op.price * CROSS_SHARD_TOTAL_GAS, Holder(op.from.shard, op.creator),
           op.price * CROSS_SHARD_GAS);
  }

  lemma SendConserves(l: Ledger, op: Op)
    requires Solvent(l) && op.Send?
    ensures Solvent(Step(l, op)) && Wealth(Step(l, op)) == Wealth(l)
  {
    if Sendable(l, op) {
      SentTotal(l.balances, op);
      OwedWith(l.pending, op.id, Debt(op.to, op.amount, op.price));
    }
  }

  /**
    Who pays and gets what: with an account of its own, the creator of the sending block gets 21000 of the 63000 units
    of gas that the sender pays for, and the debt carries the other 42000.
   */
  lemma SendShares(l: Ledger, op: Op)
    requires op.Send? && Sendable(l, op)
    requires Holder(op.from.shard, op.creator) in l.balances && op.from in l.balances
    requires Holder(op.from.shard, op.creator) != op.from && l.balances[Holder(op.from.shard, op.creator)] >= 0
    ensures var b, creator := Step(l, op).balances, Holder(op.from.shard, op.creator);
      && b.Keys == l.balances.Keys
      && b[op.from] == l.balances[op.from] - op.amount - 63000 * op.price
      && b[creator] == l.balances[creator] + 21000 * op.price
      && forall h :: h in b && h != op.from && h != creator ==> b[h] == l.balances[h]
    ensures var d := Step(l, op).pending[op.id];
      d.to == op.to && d.amount == op.amount && Fee(d) == 42000 * op.price
  {
  }

  /** The receiver of a debt, new or not, gets its amount, and the creator of the block 42000 units of gas. */
  lemma ApplyShares(l: Ledger, id: nat, creator: nat, d: Debt, c: Holder)
    requires id in l.pending && d == l.pending[id] && d.amount >= 0 && d.price >= 0
    requires c == Holder(d.to.shard, creator) && c != d.to && c in l.balances && NonNegative(l.balances)
    ensures var l' := Step(l, Apply(id, creator));
      && l'.pending == l.pending - {id} && l'.balances.Keys == l.balances.Keys + {d.to}
      && l'.balances[d.to] == BalanceOf(l.balances, d.to) + d.amount
      && l'.balances[c] == l.balances[c] + 42000 * d.price
      && forall h :: h in l.balances && h != d.to && h != c ==> l'.balances[h] == l.balances[h]
  {
  }

  lemma ApplyConserves(l: Ledger, op: Op)
    requires Solvent(l) && op.Apply?
    ensures Solvent(Step(l, op)) && Wealth(Step(l, op)) == Wealth(l)
  {
    if op.debt in l.pending && Step(l, op) != l {
      var d := l.pending[op.debt];
      var c := Holder(d.to.shard, op.creator);
      TotalWith(l.balances, d.to, 0);
      var b1 := if d.to in l.balances then l.balances else l.balances[d.to := 0];
      CreditTotal(b1, d.to, d.amount);
      var b2 := Credit(b1, d.to, d.amount);
      if c in b2 {
        CreditTotal(b2, c, Fee(d));
      }
      OwedWithout(l.pending, op.debt);
    }
  }

  function Run(l: Ledger, ops: seq<Op>): Ledger
    decreases |ops|
  {
    if ops == [] then l else Run(Step(l, ops[0]), ops[1..])
  }

  /** The step pays a positive fee to a creator that has no account. */
  predicate Loses(l: Ledger, op: Op) {
    match op
    case Reward(_, _) => false
    case Send(from, _, _, price, _, creator, _) =>
      Sendable(l, op) && Holder(from.shard, creator) !in l.balances && price > 0
    case Apply(id, creator) =>
      && id in l.pending && l.pending[id].amount >= 0 && l.pending[id].price > 0
      && creator != l.pending[id].to.address && Holder(l.pending[id].to.shard, creator) !in l.balances
  }

  lemma StepKeeps(l: Ledger, op: Op)
    requires Solvent(l)
    ensures Solvent(Step(l, op)) && Wealth(Step(l, op)) == Wealth(l) && Step(l, op).lost >= l.lost
    ensures Loses(l, op) <==> Step(l, op).lost != l.lost
  {
    match op
    case Reward(_, _) => RewardConserves(l, op);
    case Send(_, _, _, _, _, _, _) => SendConserves(l, op);
    case Apply(_, _) => ApplyConserves(l, op);
  }

  /** No step of the run pays a fee to a missing account. */
  predicate NothingLost(l: Ledger, ops: seq<Op>)
    decreases |ops|
  {
    ops == [] || (!Loses(l, ops[0]) && NothingLost(Step(l, ops[0]), ops[1..]))
  }

  /**
    Over every interleaving on all shards, balances and unapplied debts add up to what was there and what was minted,
    less what was lost; and nothing is lost exactly when every creator that is paid a fee has an account.
   */
  lemma {:induction false} RunConserves(l: Ledger, ops: seq<Op>)
    requires Solvent(l)
    ensures Solvent(Run(l, ops)) && Wealth(Run(l, ops)) == Wealth(l) && Run(l, ops).lost >= l.lost
    ensures Run(l, ops).lost == l.lost <==> NothingLost(l, ops)
    decreases |ops|
  {
    if ops != [] {
      StepKeeps(l, ops[0]);
      RunConserves(Step(l, ops[0]), ops[1..]);
    }
  }

  /** From a genesis without debts: the sum is the genesis coins plus the rewards exactly when nothing was lost. */
  lemma GenesisPlusRewards(genesis: Balances, ops: seq<Op>)
    requires NonNegative(genesis)
    ensures var l := Run(Ledger(genesis, map[], 0, 0), ops);
      Total(l.balances) + Total(Owed(l.pending)) == Total(genesis) + l.minted <==>
        NothingLost(Ledger(genesis, map[], 0, 0), ops)
  {
    RunConserves(Ledger(genesis, map[], 0, 0), ops);
    assert Owed(map[]) == map[];
  }

  /**
    It does happen: of a transfer sent from a genesis account, the debt is applied in a block of a creator without an
    account.
   */
  lemma LossExample()
    ensures var genesis := map[Holder(0, 1) := 100000];
      var l := Run(Ledger(genesis, map[], 0, 0), [Send(Holder(0, 1), Holder(1, 5), 10, 1, 0, 1, 7), Apply(7, 9)]);
      l.lost == DEBT_GAS && Total(l.balances) + Total(Owed(l.pending)) == Total(genesis) - DEBT_GAS
  {
    var genesis := map[Holder(0, 1) := 100000];
    var l := Ledger(genesis, map[], 0, 0);
    var ops := [Send(Holder(0, 1), Holder(1, 5), 10, 1, 0, 1, 7), Apply(7, 9)];
    assert Sendable(l, ops[0]);
    var l1 := Step(l, ops[0]);
    var l2 := Step(l1, ops[1]);
    assert l1.pending == map[7 := Debt(Holder(1, 5), 10, 1)] && l1.lost == 0;
    assert l2.lost == DEBT_GAS && ops[1..] == [ops[1]] && ops[1..][1..] == [];
    assert Run(l, ops) == l2;
    RunConserves(l, ops);
    assert Owed(map[]) == map[];
  }
}
