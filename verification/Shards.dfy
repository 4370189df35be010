/** All shards together: their state databases, and the debts on the way between them. */
module Shards {
  import opened Common
  import opened StateObjects
  import S = Statedb
  import opened Svm
  import opened Conservation

  /** What happens in a block of some shard; `id` is the hash of a transfer's debt. */
  datatype Event =
    | Mint(miner: Holder, coins: nat)
    | Transfer(shard: nat, tx: Tx, to: Holder, creator: Address, id: nat)
    | Collect(id: nat, creator: Address)

  predicate InShards(e: Event, n: nat) {
    match e
    case Mint(miner, _) => miner.shard < n
    case Transfer(shard, _, to, _, _) => shard < n && to.shard < n
    case Collect(_, _) => true
  }

  /** What the event mints. */
  function Coins(e: Event): nat {
    if e.Mint? then e.coins else 0
  }

  function AllCoins(events: seq<Event>): nat {
    if events == [] then 0 else AllCoins(events[..|events| - 1]) + Coins(events[|events| - 1])
  }

  /** The event as an operation of the ledger. */
  function LedgerOp(e: Event): Op {
    match e
    case Mint(miner, coins) => Reward(miner, coins)
    case Transfer(shard, tx, to, creator, id) =>
      Send(Holder(shard, tx.from), to, tx.amount, tx.price, tx.gasLimit, creator, id)
    case Collect(id, creator) => Apply(id, creator)
  }

  ghost predicate Separate(dbs: seq<S.Statedb>) {
    forall i, j :: 0 <= i < j < |dbs| ==> dbs[i] != dbs[j]
  }

  /** The balances `b` are those of the databases, shard by shard. */
  ghost predicate Reflected(dbs: seq<S.Statedb>, b: Balances)
    reads dbs
  {
    forall s :: 0 <= s < |dbs| ==> dbs[s].Valid() && Represents(b, s, dbs[s].trie, dbs[s].objects)
  }

  /** Nonces by account; a missing one is 0. */
  type Nonces = map<Holder, nat>

  function NonceIn(nonces: Nonces, h: Holder): nat {
    if h in nonces then nonces[h] else 0
  }

  ghost predicate ShardNonces(nonces: Nonces, shard: nat, trie: Trie, objects: Objects) {
    forall a: Address :: S.NonceOf(ViewOf(trie, objects, a)) == NonceIn(nonces, Holder(shard, a))
  }

  /** The nonces are those of the databases, shard by shard. */
  ghost predicate Numbered(dbs: seq<S.Statedb>, nonces: Nonces)
    reads dbs
  {
    forall s :: 0 <= s < |dbs| ==> ShardNonces(nonces, s, dbs[s].trie, dbs[s].objects)
  }

  /** A transfer that is taken sets the nonce of a sender that has an account; nothing else sets one. */
  function NoncesAfter(nonces: Nonces, l: Ledger, e: Event, taken: bool): Nonces {
    if taken && e.Transfer? && Sender(e) in l.balances then nonces[Sender(e) := (e.tx.nonce + 1) % TWO_64] else nonces
  }

  function Sender(e: Event): Holder
    requires e.Transfer?
  {
    Holder(e.shard, e.tx.from)
  }

  lemma ReceivedNonces(nonces: Nonces, shard: nat, trie: Trie, x: Objects, y: Objects, to: Address, creator: Address,
                       amount: int, fee: int)
    requires ShardNonces(nonces, shard, trie, x) && OnlyReceived(trie, x, y, to, creator, amount, fee)
    ensures ShardNonces(nonces, shard, trie, y)
  {
    forall a: Address ensures S.NonceOf(ViewOf(trie, y, a)) == NonceIn(nonces, Holder(shard, a)) {
      assert ViewOf(trie, y, a) == ReceivedView(ViewOf(trie, x, a), a == to, a == creator, amount, fee);
      assert S.NonceOf(ViewOf(trie, x, a)) == NonceIn(nonces, Holder(shard, a));
    }
  }

  lemma SentNonces(nonces: Nonces, l: Ledger, e: Event, trie: Trie, x: Objects, y: Objects)
    requires e.Transfer? && Represents(l.balances, e.shard, trie, x)
    requires ShardNonces(nonces, e.shard, trie, x) && OnlySent(trie, x, y, e.tx, e.creator)
    ensures ShardNonces(NoncesAfter(nonces, l, e, true), e.shard, trie, y)
  {
    var after := NoncesAfter(nonces, l, e, true);
    forall a: Address ensures S.NonceOf(ViewOf(trie, y, a)) == NonceIn(after, Holder(e.shard, a)) {
      assert ViewOf(trie, y, a) == SentView(ViewOf(trie, x, a), a == e.tx.from, a == e.creator, e.tx);
      assert S.NonceOf(ViewOf(trie, x, a)) == NonceIn(nonces, Holder(e.shard, a));
      assert Holder(e.shard, a) in l.balances <==> ViewOf(trie, x, a).Some?;
    }
  }

  lemma SameNonces(nonces: Nonces, shard: nat, trie: Trie, x: Objects, y: Objects)
    requires ShardNonces(nonces, shard, trie, x) && SameViews(trie, y, x)
    ensures ShardNonces(nonces, shard, trie, y)
  {
    forall a: Address ensures S.NonceOf(ViewOf(trie, y, a)) == NonceIn(nonces, Holder(shard, a)) {
      assert ViewOf(trie, y, a) == ViewOf(trie, x, a);
      assert S.NonceOf(ViewOf(trie, x, a)) == NonceIn(nonces, Holder(shard, a));
    }
  }

  /** Another shard does not notice. */
  lemma NoncesElsewhere(nonces: Nonces, l: Ledger, e: Event, taken: bool, shard: nat, trie: Trie, objects: Objects)
    requires ShardNonces(nonces, shard, trie, objects) && (e.Transfer? ==> shard != e.shard)
    ensures ShardNonces(NoncesAfter(nonces, l, e, taken), shard, trie, objects)
  {
    var after := NoncesAfter(nonces, l, e, taken);
    forall a: Address ensures S.NonceOf(ViewOf(trie, objects, a)) == NonceIn(after, Holder(shard, a)) {
      assert S.NonceOf(ViewOf(trie, objects, a)) == NonceIn(nonces, Holder(shard, a));
    }
  }

  /** The ledger tells the balances of all shards and the debts on the way. */
  ghost predicate Books(dbs: seq<S.Statedb>, pending: map<nat, Debt>, l: Ledger, nonces: Nonces)
    reads dbs
  {
    && Separate(dbs) && Reflected(dbs, l.balances) && Numbered(dbs, nonces) && l.pending == pending && Solvent(l)
    && (forall id :: id in pending ==> pending[id].to.shard < |dbs|)
  }

  /** Two ledgers have the same balances in one shard. */
  ghost predicate SameShard(b: Balances, b': Balances, shard: nat) {
    forall a: Address :: var h := Holder(shard, a); (h in b <==> h in b') && (h in b ==> b[h] == b'[h])
  }

  lemma SameShardRepresents(b: Balances, b': Balances, shard: nat, trie: Trie, objects: Objects)
    requires Represents(b, shard, trie, objects) && SameShard(b, b', shard)
    ensures Represents(b', shard, trie, objects)
  {
    forall a: Address ensures var h, v := Holder(shard, a), ViewOf(trie, objects, a);
      (h in b' <==> v.Some?) && (v.Some? ==> b'[h] == v.value.amount)
    {
      assert Holder(shard, a) in b <==> ViewOf(trie, objects, a).Some?;
    }
  }

  lemma SameViewsRepresents(b: Balances, shard: nat, trie: Trie, x: Objects, y: Objects)
    requires Represents(b, shard, trie, x) && SameViews(trie, y, x)
    ensures Represents(b, shard, trie, y)
  {
    forall a: Address ensures var h, v := Holder(shard, a), ViewOf(trie, y, a);
      (h in b <==> v.Some?) && (v.Some? ==> b[h] == v.value.amount)
    {
      assert ViewOf(trie, y, a) == ViewOf(trie, x, a);
    }
  }

  lemma SentElsewhere(b: Balances, op: Op, shard: nat)
    requires op.Send? && shard != op.from.shard
    ensures SameShard(b, Sent(b, op), shard)
  {
  }

  lemma ReceivedElsewhere(b: Balances, d: Debt, creator: Holder, shard: nat)
    requires shard != d.to.shard && creator.shard == d.to.shard
    ensures SameShard(b, Received(b, d, creator), shard)
  {
  }

  /** A reward is received like a debt without a fee. */
  lemma MintIsReceived(l: Ledger, miner: Holder, coins: nat)
    requires Solvent(l)
    ensures Step(l, Reward(miner, coins)).balances == Received(l.balances, Debt(miner, coins, 0), miner)
  {
    var b1 := if miner in l.balances then l.balances else l.balances[miner := 0];
    var b2 := Credit(b1, miner, coins);
    assert Credit(b2, miner, 0) == b2;
  }

  /** Reading a balance of a shard from the ledger. */
  lemma BalanceShown(b: Balances, shard: nat, trie: Trie, objects: Objects, a: Address)
    requires Represents(b, shard, trie, objects)
    ensures Conservation.BalanceOf(b, Holder(shard, a)) == S.BalanceOf(ViewOf(trie, objects, a))
  {
    assert Holder(shard, a) in b <==> ViewOf(trie, objects, a).Some?;
  }

  method DoMint(dbs: seq<S.Statedb>, pending: map<nat, Debt>, e: Event, ghost l: Ledger, ghost nonces: Nonces)
    returns (ghost l': Ledger)
    requires Books(dbs, pending, l, nonces) && e.Mint? && InShards(e, |dbs|)
    modifies dbs
    ensures Books(dbs, pending, l', nonces) && l' == Step(l, LedgerOp(e))
  {
    var s := e.miner.shard;
    ApplyReward(dbs[s], e.miner.address, e.coins);
    l' := Step(l, LedgerOp(e));
    MintIsReceived(l, e.miner, e.coins);
    RewardConserves(l, LedgerOp(e));
    var d := Debt(e.miner, e.coins, 0);
    ReceivedRepresents(l.balances, dbs[s].trie, old(dbs[s].objects), dbs[s].objects, d, e.miner.address);
    ReceivedNonces(nonces, s, dbs[s].trie, old(dbs[s].objects), dbs[s].objects, e.miner.address, e.miner.address,
                   e.coins, 0);
    forall k | 0 <= k < |dbs| && k != s
      ensures dbs[k].Valid() && Represents(l'.balances, k, dbs[k].trie, dbs[k].objects)
      ensures ShardNonces(nonces, k, dbs[k].trie, dbs[k].objects)
    {
      ReceivedElsewhere(l.balances, d, e.miner, k);
      SameShardRepresents(l.balances, l'.balances, k, dbs[k].trie, dbs[k].objects);
    }
  }

  method DoTransfer(dbs: seq<S.Statedb>, pending: map<nat, Debt>, e: Event, ghost l: Ledger, ghost nonces: Nonces)
    returns (ok: bool, pending': map<nat, Debt>, ghost l': Ledger)
    requires Books(dbs, pending, l, nonces) && e.Transfer? && InShards(e, |dbs|)
    modifies dbs
    ensures Books(dbs, pending', l', NoncesAfter(nonces, l, e, ok)) && l' == if ok then Step(l, LedgerOp(e)) else l
    ensures ok <==> Sendable(l, LedgerOp(e)) && e.tx.nonce >= NonceIn(nonces, Sender(e))
  {
    var s, tx := e.shard, e.tx;
    ok, pending', l' := false, pending, l;
    if tx.amount < 0 || tx.price < 0 || s == e.to.shard || e.id in pending {
      return;
    }
    BalanceShown(l.balances, s, dbs[s].trie, dbs[s].objects, tx.from);
    assert S.NonceOf(ViewOf(dbs[s].trie, dbs[s].objects, tx.from)) == NonceIn(nonces, Sender(e));
    ok := ProcessTransfer(dbs[s], tx, e.creator);
    if ok {
      pending' := pending[e.id := Debt(e.to, tx.amount, tx.price)];
      l' := Step(l, LedgerOp(e));
      SendConserves(l, LedgerOp(e));
      SentRepresents(l.balances, dbs[s].trie, old(dbs[s].objects), dbs[s].objects, tx, e.creator, LedgerOp(e));
      SentNonces(nonces, l, e, dbs[s].trie, old(dbs[s].objects), dbs[s].objects);
    } else {
      SameViewsRepresents(l.balances, s, dbs[s].trie, old(dbs[s].objects), dbs[s].objects);
      SameNonces(nonces, s, dbs[s].trie, old(dbs[s].objects), dbs[s].objects);
    }
    OtherShards(dbs, l, l', e, ok, nonces, s);
  }

  /** The shards that a transfer was not sent from. */
  lemma OtherShards(dbs: seq<S.Statedb>, l: Ledger, l': Ledger, e: Event, ok: bool, nonces: Nonces, s: nat)
    requires e.Transfer? && s == e.shard < |dbs|
    requires l'.balances == if ok then Sent(l.balances, LedgerOp(e)) else l.balances
    requires forall k :: 0 <= k < |dbs| && k != s ==> Represents(l.balances, k, dbs[k].trie, dbs[k].objects)
    requires forall k :: 0 <= k < |dbs| && k != s ==> ShardNonces(nonces, k, dbs[k].trie, dbs[k].objects)
    ensures forall k :: 0 <= k < |dbs| && k != s ==> Represents(l'.balances, k, dbs[k].trie, dbs[k].objects)
    ensures forall k :: 0 <= k < |dbs| && k != s ==>
      ShardNonces(NoncesAfter(nonces, l, e, ok), k, dbs[k].trie, dbs[k].objects)
  {
    forall k | 0 <= k < |dbs| && k != s
      ensures Represents(l'.balances, k, dbs[k].trie, dbs[k].objects)
      ensures ShardNonces(NoncesAfter(nonces, l, e, ok), k, dbs[k].trie, dbs[k].objects)
    {
      NoncesElsewhere(nonces, l, e, ok, k, dbs[k].trie, dbs[k].objects);
      if ok {
        SentElsewhere(l.balances, LedgerOp(e), k);
        SameShardRepresents(l.balances, l'.balances, k, dbs[k].trie, dbs[k].objects);
      }
    }
  }

  method DoCollect(dbs: seq<S.Statedb>, pending: map<nat, Debt>, e: Event, ghost l: Ledger, ghost nonces: Nonces)
    returns (pending': map<nat, Debt>, ghost l': Ledger)
    requires Books(dbs, pending, l, nonces) && e.Collect?
    modifies dbs
    ensures Books(dbs, pending', l', nonces) && l' == Step(l, LedgerOp(e))
  {
    pending', l' := pending, Step(l, LedgerOp(e));
    if e.id !in pending {
      return;
    }
    var d := pending[e.id];
    var s := d.to.shard;
    var ok := ApplyDebt(dbs[s], d.to.address, d.amount, d.price, e.creator);
    pending' := pending - {e.id};
    ApplyConserves(l, LedgerOp(e));
    ReceivedRepresents(l.balances, dbs[s].trie, old(dbs[s].objects), dbs[s].objects, d, e.creator);
    ReceivedNonces(nonces, s, dbs[s].trie, old(dbs[s].objects), dbs[s].objects, d.to.address, e.creator, d.amount,
                   Fee(d));
    forall k | 0 <= k < |dbs| && k != s
      ensures dbs[k].Valid() && Represents(l'.balances, k, dbs[k].trie, dbs[k].objects)
      ensures ShardNonces(nonces, k, dbs[k].trie, dbs[k].objects)
    {
      ReceivedElsewhere(l.balances, d, Holder(s, e.creator), k);
      SameShardRepresents(l.balances, l'.balances, k, dbs[k].trie, dbs[k].objects);
    }
  }

  /** The ledger of all shards, with the nonces. */
  datatype World = World(ledger: Ledger, nonces: Nonces)

  /** Every reward and every debt is taken, and a transfer exactly when balance and nonce of the sender allow it. */
  predicate Takes(w: World, e: Event) {
    e.Transfer? ==> Sendable(w.ledger, LedgerOp(e)) && e.tx.nonce >= NonceIn(w.nonces, Sender(e))
  }

  function After(w: World, e: Event): World {
    World(if Takes(w, e) then Step(w.ledger, LedgerOp(e)) else w.ledger,
          NoncesAfter(w.nonces, w.ledger, e, Takes(w, e)))
  }

  function AfterAll(w: World, events: seq<Event>): World {
    if events == [] then w else After(AfterAll(w, events[..|events| - 1]), events[|events| - 1])
  }

  /** One event. */
  method Handle(dbs: seq<S.Statedb>, pending: map<nat, Debt>, e: Event, ghost w: World)
    returns (pending': map<nat, Debt>)
    requires Books(dbs, pending, w.ledger, w.nonces) && InShards(e, |dbs|)
    modifies dbs
    ensures Books(dbs, pending', After(w, e).ledger, After(w, e).nonces)
    ensures After(w, e).ledger.minted == w.ledger.minted + Coins(e)
  {
    pending' := pending;
    ghost var l';
    if e.Mint? {
      l' := DoMint(dbs, pending, e, w.ledger, w.nonces);
    } else if e.Transfer? {
      var ok;
      ok, pending', l' := DoTransfer(dbs, pending, e, w.ledger, w.nonces);
    } else {
      pending', l' := DoCollect(dbs, pending, e, w.ledger, w.nonces);
    }
  }

  /** The operations that the events come to, in order. */
  function OpsOf(w: World, events: seq<Event>): seq<Op> {
    if events == [] then []
    else
      var front, e := events[..|events| - 1], events[|events| - 1];
      OpsOf(w, front) + if Takes(AfterAll(w, front), e) then [LedgerOp(e)] else []
  }

  lemma {:induction false} RunTwice(l: Ledger, xs: seq<Op>, ys: seq<Op>)
    ensures Run(l, xs + ys) == Run(Run(l, xs), ys)
    decreases |xs|
  {
    if xs == [] {
      assert xs + ys == ys;
    } else {
      assert (xs + ys)[1..] == xs[1..] + ys;
      RunTwice(Step(l, xs[0]), xs[1..], ys);
    }
  }

  /** The events come to a run of the ledger. */
  lemma {:induction false} EventsAreRun(w: World, events: seq<Event>)
    ensures AfterAll(w, events).ledger == Run(w.ledger, OpsOf(w, events))
  {
    if events != [] {
      var front, e := events[..|events| - 1], events[|events| - 1];
      EventsAreRun(w, front);
      var more := if Takes(AfterAll(w, front), e) then [LedgerOp(e)] else [];
      RunTwice(w.ledger, OpsOf(w, front), more);
      assert more != [] ==> more[1..] == [];
    }
  }

  /**
    Any interleaving of rewards, cross-shard transfers and debt applications on the state databases of all shards, from
    databases that show `genesis` and `nonces`. The databases end up with the balances and nonces that the events come
    to. These balances, and the debts still on the way, add up to genesis plus rewards exactly when every creator that
    was paid a fee had an account.
   */
  method RunShards(dbs: seq<S.Statedb>, events: seq<Event>, ghost genesis: Balances, ghost nonces: Nonces)
    returns (pending: map<nat, Debt>)
    requires Separate(dbs) && Reflected(dbs, genesis) && Numbered(dbs, nonces) && NonNegative(genesis)
    requires forall i :: 0 <= i < |events| ==> InShards(events[i], |dbs|)
    modifies dbs
    ensures var start := World(Ledger(genesis, map[], 0, 0), nonces);
      var end := AfterAll(start, events);
      && Reflected(dbs, end.ledger.balances) && Numbered(dbs, end.nonces) && pending == end.ledger.pending
      && (Total(end.ledger.balances) + Total(Owed(pending)) == Total(genesis) + AllCoins(events)
          <==> NothingLost(start.ledger, OpsOf(start, events)))
  {
    ghost var start := World(Ledger(genesis, map[], 0, 0), nonces);
    pending := map[];
    for i := 0 to |events|
      invariant Books(dbs, pending, AfterAll(start, events[..i]).ledger, AfterAll(start, events[..i]).nonces)
      invariant AfterAll(start, events[..i]).ledger.minted == AllCoins(events[..i])
    {
      assert events[..i + 1][..i] == events[..i];
      pending := Handle(dbs, pending, events[i], AfterAll(start, events[..i]));
    }
    assert events[..|events|] == events;
    EventsAreRun(start, events);
    GenesisPlusRewards(genesis, OpsOf(start, events));
  }
}
