/** Pending transactions: a nonce heap per account under two account heaps (core/pool_queue.go). */
module PoolQueue {
  import opened Common
  import opened Heap

  /** Account addresses and object hashes are only compared. */
  datatype Address = Address(id: nat)

  datatype PoolObject = PoolObject(hash: nat, account: Address, nonce: nat, price: int, size: nat)

  datatype PoolItem = PoolItem(obj: PoolObject, timestamp: int)

  type Items = map<nat, PoolItem>

  /** What an account is ranked by: the price and the arrival time of its first object. */
  datatype Rank = Rank(price: int, timestamp: int)

  /** txCollection.cmp: a higher price wins, then an earlier time; an empty collection loses. */
  function Cmp(a: Option<Rank>, b: Option<Rank>): int {
    if a.None? && b.None? then 0
    else if b.None? then 1
    else if a.None? then -1
    else if a.value.price != b.value.price then (if a.value.price > b.value.price then 1 else -1)
    else if a.value.timestamp < b.value.timestamp then 1
    else if a.value.timestamp > b.value.timestamp then -1
    else 0
  }

  function NonceLess(a: nat, b: nat): bool {
    a < b
  }

  lemma NonceTransitive()
    ensures Transitive(NonceLess)
  {
  }

  /** `n` is the lowest nonce. */
  ghost predicate IsFirst(txs: Items, n: nat) {
    n in txs && forall k :: k in txs ==> n <= k
  }

  lemma {:induction false} FirstExists(txs: Items)
    requires txs != map[]
    ensures exists n :: IsFirst(txs, n)
    decreases |txs|
  {
    var n :| n in txs;
    var rest := txs - {n};
    assert forall k :: k in txs ==> k == n || k in rest;
    if rest == map[] {
      assert IsFirst(txs, n);
    } else {
      assert |rest.Keys| < |txs.Keys|;
      FirstExists(rest);
      var k :| IsFirst(rest, k);
      assert IsFirst(txs, if n < k then n else k);
    }
  }

  ghost function First(txs: Items): (n: nat)
    requires txs != map[]
    ensures IsFirst(txs, n)
  {
    FirstExists(txs);
    var n :| IsFirst(txs, n);
    n
  }

  ghost function RankOf(txs: Items): Option<Rank> {
    if txs == map[] then None
    else Some(Rank(txs[First(txs)].obj.price, txs[First(txs)].timestamp))
  }

  class TxCollection {
    var txs: Items
    const nonceHeap: Heap<nat>

    ghost predicate Valid()
      reads this, nonceHeap
    {
      forall k: nat {:trigger Opened(this, k)} :: Opened(this, k) ==> Sound()
    }

    ghost predicate Sound()
      reads this, nonceHeap
    {
      && nonceHeap.Indexed() && nonceHeap.index.Keys == txs.Keys
      && Heaped(NonceLess, nonceHeap.data, |nonceHeap.data|)
      && forall n :: n in txs ==> txs[n].obj.nonce == n
    }

    constructor ()
      ensures Valid() && txs == map[] && fresh(nonceHeap)
    {
      txs := map[];
      nonceHeap := new Heap<nat>();
    }

    /** The top of the nonce heap is the lowest nonce. */
    lemma TopIsFirst()
      requires Valid()
      ensures nonceHeap.data == [] <==> txs == map[]
      ensures txs != map[] ==> nonceHeap.data[0] == First(txs)
    {
      assert Opened(this, 0);
      if nonceHeap.data == [] {
        assert txs.Keys == {};
      } else {
        assert nonceHeap.data[0] in txs;
        NonceTransitive();
        forall k | k in txs ensures nonceHeap.data[0] <= k {
          RootFirst(NonceLess, nonceHeap.data, nonceHeap.index[k]);
        }
      }
    }

    /** add: an object with a known nonce is overwritten in place. */
    method Add(item: PoolItem) returns (added: bool)
      requires Valid()
      modifies this, nonceHeap
      ensures Valid() && txs == old(txs)[item.obj.nonce := item] && added == (item.obj.nonce !in old(txs))
    {
      assert Opened(this, 0);
      var n := item.obj.nonce;
      added := n !in txs;
      if added {
        NonceTransitive();
        nonceHeap.Push(n, NonceLess);
      }
      txs := txs[n := item];
    }

    method Remove(nonce: nat) returns (removed: bool)
      requires Valid()
      modifies this, nonceHeap
      ensures Valid() && txs == old(txs) - {nonce} && removed == (nonce in old(txs))
    {
      assert Opened(this, 0);
      removed := nonce in txs;
      if removed {
        NonceTransitive();
        var _ := nonceHeap.Remove(nonceHeap.index[nonce], NonceLess);
      }
      txs := txs - {nonce};
    }

    function Len(): (n: nat)
      requires Valid()
      reads this, nonceHeap
      ensures n == 0 <==> txs == map[]
    {
      TopIsFirst();
      |nonceHeap.data|
    }

    function Peek(): (item: Option<PoolItem>)
      requires Valid()
      reads this, nonceHeap
      ensures item == if txs == map[] then None else Some(txs[First(txs)])
    {
      assert Opened(this, 0);
      TopIsFirst();
      if nonceHeap.data == [] then None else Some(txs[nonceHeap.data[0]])
    }

    method Pop() returns (item: PoolItem)
      requires Valid() && txs != map[]
      modifies this, nonceHeap
      ensures Valid() && item == old(txs)[First(old(txs))] && txs == old(txs) - {First(old(txs))}
    {
      assert Opened(this, 0);
      TopIsFirst();
      NonceTransitive();
      var n := nonceHeap.Pop(NonceLess);
      item := txs[n];
      txs := txs - {n};
    }
  }

  /** The pending objects by account and nonce. */
  type Accounts = map<Address, Items>

  type Ranks = map<Address, Option<Rank>>

  ghost function RanksOf(model: Accounts): Ranks {
    map a | a in model :: RankOf(model[a])
  }

  /** An account whose collection has become empty is ranked like an absent one. */
  function At(ranks: Ranks, a: Address): Option<Rank> {
    if a in ranks then ranks[a] else None
  }

  function BestLess(ranks: Ranks): (Address, Address) -> bool {
    (a, b) => Cmp(At(ranks, a), At(ranks, b)) > 0
  }

  /** The worst heap's Less is not strict. */
  function WorstLess(ranks: Ranks): (Address, Address) -> bool {
    (a, b) => Cmp(At(ranks, a), At(ranks, b)) <= 0
  }

  lemma CmpOrder(a: Option<Rank>, b: Option<Rank>, c: Option<Rank>)
    ensures Cmp(a, b) == -Cmp(b, a)
    ensures Cmp(a, b) >= 0 && Cmp(b, c) >= 0 ==> Cmp(a, c) >= 0
  {
  }

  lemma LessTransitive(ranks: Ranks)
    ensures Transitive(BestLess(ranks)) && Transitive(WorstLess(ranks))
  {
    forall a, b, c
      ensures Le(BestLess(ranks), a, b) && Le(BestLess(ranks), b, c) ==> Le(BestLess(ranks), a, c)
      ensures Le(WorstLess(ranks), a, b) && Le(WorstLess(ranks), b, c) ==> Le(WorstLess(ranks), a, c)
    {
      CmpOrder(At(ranks, a), At(ranks, b), At(ranks, c));
      CmpOrder(At(ranks, c), At(ranks, b), At(ranks, a));
    }
  }

  /** Both heaps are in order for `ranks`. */
  ghost predicate Ordered(ranks: Ranks, best: seq<Address>, worst: seq<Address>) {
    Heaped(BestLess(ranks), best, |best|) && Heaped(WorstLess(ranks), worst, |worst|)
  }

  /** When only the rank of `a` has changed, both heaps are in order but for `a`. */
  lemma RankChanged(ranks: Ranks, ranks': Ranks, best: seq<Address>, i: nat, worst: seq<Address>, j: nat)
    requires Ordered(ranks, best, worst)
    requires i < |best| && j < |worst| && best[i] == worst[j]
    requires forall k :: 0 <= k < |best| && k != i ==> best[k] != best[i]
    requires forall k :: 0 <= k < |worst| && k != j ==> worst[k] != worst[j]
    requires forall b :: b != best[i] ==> At(ranks', b) == At(ranks, b)
    ensures HeapedBut(BestLess(ranks'), best, |best|, i)
    ensures HeapedBut(WorstLess(ranks'), worst, |worst|, j)
  {
    LessTransitive(ranks);
    Reranked(BestLess(ranks), BestLess(ranks'), best, i);
    Reranked(WorstLess(ranks), WorstLess(ranks'), worst, j);
  }

  /** The first of `txs` has a higher price than the first of `others`, or the same price and no later time. */
  ghost predicate Ahead(txs: Items, others: Items) {
    others != map[] ==>
      && txs != map[]
      && var x, y := txs[First(txs)], others[First(others)];
      x.obj.price > y.obj.price || (x.obj.price == y.obj.price && x.timestamp <= y.timestamp)
  }

  lemma AheadByCmp(txs: Items, others: Items)
    ensures Ahead(txs, others) <==> Cmp(RankOf(txs), RankOf(others)) >= 0
    ensures Ahead(txs, others) <==> Cmp(RankOf(others), RankOf(txs)) <= 0
  {
  }

  /** The first object of `a` is the best one. */
  ghost predicate IsBest(model: Accounts, a: Address) {
    a in model && forall b :: b in model ==> Ahead(model[a], model[b])
  }

  ghost predicate IsWorst(model: Accounts, a: Address) {
    a in model && forall b :: b in model ==> Ahead(model[b], model[a])
  }

  /** `obj` is the object with the lowest nonce of a best account. */
  ghost predicate Next(model: Accounts, obj: PoolObject) {
    IsBest(model, obj.account) && IsFirst(model[obj.account], obj.nonce) && model[obj.account][obj.nonce].obj == obj
  }

  function ItemsOf(model: Accounts, a: Address): Items {
    if a in model then model[a] else map[]
  }

  function Put(model: Accounts, item: PoolItem): Accounts {
    model[item.obj.account := ItemsOf(model, item.obj.account)[item.obj.nonce := item]]
  }

  /** Without the object of `a` at `nonce`, and without `a` when that was its last one. */
  function Drop(model: Accounts, a: Address, nonce: nat): Accounts {
    var rest := ItemsOf(model, a) - {nonce};
    if rest == map[] then model - {a} else model[a := rest]
  }

  /** Both heaps hold the accounts of `ranks`, indexed by position and in order. */
  ghost predicate Ranked(best: Heap<Address>, worst: Heap<Address>, ranks: Ranks)
    reads best, worst
  {
    forall k: nat {:trigger Opened(best, k)} :: Opened(best, k) ==> InRankOrder(best, worst, ranks)
  }

  ghost predicate InRankOrder(best: Heap<Address>, worst: Heap<Address>, ranks: Ranks)
    reads best, worst
  {
    && best.Indexed() && worst.Indexed()
    && best.index.Keys == ranks.Keys && worst.index.Keys == ranks.Keys
    && Ordered(ranks, best.data, worst.data)
  }

  /** Only the rank of `a` changes when only its objects change. */
  ghost predicate RankedAlike(was: Ranks, ranks: Ranks, a: Address) {
    forall b :: b != a ==> At(ranks, b) == At(was, b)
  }

  /** An account is gone. */
  lemma RankGone(was: Accounts, a: Address)
    ensures RankedAlike(RanksOf(was), RanksOf(was - {a}), a) && RanksOf(was - {a}).Keys == RanksOf(was).Keys - {a}
  {
  }

  /** The objects of an account have changed, or it is new. */
  lemma RankSet(was: Accounts, a: Address, items: Items)
    ensures RankedAlike(RanksOf(was), RanksOf(was[a := items]), a)
    ensures RanksOf(was[a := items]).Keys == RanksOf(was).Keys + {a}
  {
  }

  /** heap.Fix on both heaps, after the rank of `a` has changed. */
  method FixBoth(best: Heap<Address>, worst: Heap<Address>, a: Address, ghost was: Ranks, ranks: Ranks)
    requires best != worst && Ranked(best, worst, was)
    requires a in was && ranks.Keys == was.Keys && RankedAlike(was, ranks, a)
    modifies best, worst
    ensures Ranked(best, worst, ranks)
  {
    assert Opened(best, 0);
    LessTransitive(ranks);
    RankChanged(was, ranks, best.data, best.index[a], worst.data, worst.index[a]);
    best.Fix(best.index[a], BestLess(ranks));
    worst.Fix(worst.index[a], WorstLess(ranks));
  }

  /** heap.Remove on both heaps, after the account has been deleted. */
  method RemoveBoth(best: Heap<Address>, worst: Heap<Address>, a: Address, ghost was: Ranks, ranks: Ranks)
    requires best != worst && Ranked(best, worst, was)
    requires a in was && ranks.Keys == was.Keys - {a} && RankedAlike(was, ranks, a)
    modifies best, worst
    ensures Ranked(best, worst, ranks)
  {
    assert Opened(best, 0);
    LessTransitive(ranks);
    RankChanged(was, ranks, best.data, best.index[a], worst.data, worst.index[a]);
    var _ := best.Remove(best.index[a], BestLess(ranks));
    var _ := worst.Remove(worst.index[a], WorstLess(ranks));
  }

  /** heap.Push on both heaps. */
  method PushBoth(best: Heap<Address>, worst: Heap<Address>, a: Address, ghost was: Ranks, ranks: Ranks)
    requires best != worst && Ranked(best, worst, was)
    requires a !in was && ranks.Keys == was.Keys + {a} && RankedAlike(was, ranks, a)
    modifies best, worst
    ensures Ranked(best, worst, ranks)
  {
    assert Opened(best, 0);
    LessTransitive(ranks);
    SameOrder(was, ranks, best.data, worst.data);
    best.Push(a, BestLess(ranks));
    worst.Push(a, WorstLess(ranks));
  }

  /** heap.Pop on the worst heap and heap.Remove on the best one, while the account still has its rank. */
  method PopBoth(best: Heap<Address>, worst: Heap<Address>, ranks: Ranks) returns (a: Address)
    requires best != worst && Ranked(best, worst, ranks) && worst.data != []
    modifies best, worst
    ensures a == old(worst.data[0]) && Ranked(best, worst, ranks - {a})
  {
    assert Opened(best, 0);
    a := worst.data[0];
    LessTransitive(ranks);
    RankChanged(ranks, ranks, best.data, best.index[a], worst.data, 0);
    var _ := worst.Pop(WorstLess(ranks));
    var _ := best.Remove(best.index[a], BestLess(ranks));
    SameOrder(ranks, ranks - {a}, best.data, worst.data);
  }

  lemma SameOrder(ranks: Ranks, ranks': Ranks, best: seq<Address>, worst: seq<Address>)
    requires Ordered(ranks, best, worst)
    requires forall i :: 0 <= i < |best| ==> At(ranks', best[i]) == At(ranks, best[i])
    requires forall i :: 0 <= i < |worst| ==> At(ranks', worst[i]) == At(ranks, worst[i])
    ensures Ordered(ranks', best, worst)
  {
  }

  /** The top of either heap. */
  lemma TopIsBest(best: Heap<Address>, worst: Heap<Address>, model: Accounts)
    requires Ranked(best, worst, RanksOf(model))
    ensures best.data == [] <==> model == map[]
    ensures worst.data == [] <==> model == map[]
    ensures model != map[] ==> IsBest(model, best.data[0]) && IsWorst(model, worst.data[0])
  {
    assert Opened(best, 0);
    var ranks := RanksOf(model);
    if best.data != [] {
      assert best.data[0] in best.index.Keys;
    }
    if worst.data != [] {
      assert worst.data[0] in worst.index.Keys;
    }
    if model != map[] {
      var a :| a in model;
      assert a in best.index && a in worst.index;
      LessTransitive(ranks);
      forall b | b in model
        ensures Ahead(model[best.data[0]], model[b]) && Ahead(model[b], model[worst.data[0]])
      {
        AheadByCmp(model[best.data[0]], model[b]);
        AheadByCmp(model[b], model[worst.data[0]]);
        RootFirst(BestLess(ranks), best.data, best.index[b]);
        RootFirst(WorstLess(ranks), worst.data, worst.index[b]);
        CmpOrder(At(ranks, best.data[0]), At(ranks, b), None);
        CmpOrder(At(ranks, worst.data[0]), At(ranks, b), None);
      }
    }
  }

  ghost predicate Collected(c: TxCollection, items: Items)
    reads c, c.nonceHeap
  {
    c.Valid() && c.txs == items
  }

  /** `c` holds `items`, was one of the owned collections and no longer is. */
  ghost predicate Detached(c: TxCollection, items: Items, was: map<object, Address>, owner: map<object, Address>)
    reads c, c.nonceHeap
  {
    Collected(c, items) && c in was && c.nonceHeap in was && c !in owner && c.nonceHeap !in owner
  }

  /** No account without objects, and every object under its own account and nonce. */
  ghost predicate Filed(model: Accounts) {
    && (forall a :: a in model ==> model[a] != map[])
    && (forall a, n :: a in model && n in model[a] ==> model[a][n].obj.account == a && model[a][n].obj.nonce == n)
  }

  /** Each collection, and its heap, belongs to its account. */
  ghost predicate Owners(txs: map<Address, TxCollection>, owner: map<object, Address>) {
    forall a :: a in txs ==> Owned(a, txs[a], owner)
  }

  ghost predicate Owned(a: Address, c: TxCollection, owner: map<object, Address>) {
    c in owner && owner[c] == a && c.nonceHeap in owner && owner[c.nonceHeap] == a
  }

  ghost predicate AllCollected(txs: map<Address, TxCollection>, model: Accounts, owner: map<object, Address>)
    requires Owners(txs, owner)
    reads owner.Keys
  {
    txs.Keys == model.Keys && forall a :: a in txs ==> Collected(txs[a], model[a])
  }

  lemma Linked(txs: map<Address, TxCollection>, model: Accounts, owner: map<object, Address>, a: Address,
               c: TxCollection)
    requires Owners(txs, owner) && AllCollected(txs, model, owner)
    requires a !in txs && c !in owner && c.nonceHeap !in owner && Collected(c, c.txs)
    ensures Owners(txs[a := c], owner[c := a][c.nonceHeap := a])
    ensures AllCollected(txs[a := c], model[a := c.txs], owner[c := a][c.nonceHeap := a])
  {
  }

  lemma Unlinked(txs: map<Address, TxCollection>, model: Accounts, owner: map<object, Address>, a: Address)
    requires Owners(txs, owner) && AllCollected(txs, model, owner) && a in txs
    ensures Owners(txs - {a}, owner - {txs[a], txs[a].nonceHeap})
    ensures AllCollected(txs - {a}, model - {a}, owner - {txs[a], txs[a].nonceHeap})
  {
  }

  method Single(item: PoolItem) returns (c: TxCollection)
    ensures fresh(c) && fresh(c.nonceHeap) && Collected(c, map[item.obj.nonce := item])
  {
    c := new TxCollection();
    var _ := c.Add(item);
  }

  lemma PutFiled(model: Accounts, item: PoolItem)
    requires Filed(model)
    ensures Filed(Put(model, item))
  {
    assert item.obj.nonce in Put(model, item)[item.obj.account];
  }

  lemma DropFiled(was: Accounts, model: Accounts, a: Address, nonce: nat)
    requires Filed(was) && a in was && model == was[a := was[a] - {nonce}]
    ensures Filed(Drop(was, a, nonce))
    ensures Drop(was, a, nonce) == if model[a] == map[] then model - {a} else model
    ensures model - {a} == was - {a}
  {
  }

  /** `items` were all the objects of a worst account, whose first one was priced below `price`. */
  ghost predicate Discards(was: Accounts, model: Accounts, items: Items, price: int) {
    exists a :: DiscardsAt(was, model, items, price, a)
  }

  ghost predicate DiscardsAt(was: Accounts, model: Accounts, items: Items, price: int, a: Address) {
    && Filed(was) && IsWorst(was, a) && Cheapest(was, a) && HeadPrice(was, a) < price
    && items == was[a] && model == was - {a}
  }

  ghost function HeadPrice(model: Accounts, a: Address): int
    requires a in model && model[a] != map[]
  {
    model[a][First(model[a])].obj.price
  }

  ghost function HeadTime(model: Accounts, a: Address): int
    requires a in model && model[a] != map[]
  {
    model[a][First(model[a])].timestamp
  }

  /** The next object has the highest price of all first objects, and no older one of them has the same price. */
  ghost predicate Dearest(model: Accounts, item: PoolItem)
    requires Filed(model)
  {
    forall b :: b in model ==>
      && HeadPrice(model, b) <= item.obj.price
      && (HeadPrice(model, b) == item.obj.price ==> item.timestamp <= HeadTime(model, b))
  }

  lemma NextIsDearest(model: Accounts, obj: PoolObject)
    requires Filed(model) && Next(model, obj)
    ensures Dearest(model, model[obj.account][obj.nonce])
  {
    assert forall b :: b in model ==> Ahead(model[obj.account], model[b]);
  }

  /** No head is priced below the head of a worst account, and none at the same price is later. */
  ghost predicate Cheapest(model: Accounts, a: Address)
    requires Filed(model) && a in model
  {
    forall b :: b in model ==>
      && HeadPrice(model, a) <= HeadPrice(model, b)
      && (HeadPrice(model, a) == HeadPrice(model, b) ==> HeadTime(model, b) <= HeadTime(model, a))
  }

  lemma WorstIsCheapest(model: Accounts, a: Address)
    requires Filed(model) && IsWorst(model, a)
    ensures Cheapest(model, a)
  {
    assert forall b :: b in model ==> Ahead(model[b], model[a]);
  }

  /** Always true: opens what is stated about the collections `txs`. */
  ghost predicate Gathered(txs: map<Address, TxCollection>, k: nat) {
    true
  }

  class PendingQueue {
    var txs: map<Address, TxCollection>
    const best: Heap<Address>
    const worst: Heap<Address>
    /** What the collections hold. */
    ghost var model: Accounts
    /** The account that each collection, and each collection's heap, belongs to. */
    ghost var owner: map<object, Address>

    ghost predicate Shape()
      reads this, owner.Keys
    {
      && this !in owner && best !in owner && worst !in owner && best != worst && txs.Keys == model.Keys
      && forall k: nat {:trigger Gathered(txs, k)} :: Gathered(txs, k) ==>
        Owners(txs, owner) && AllCollected(txs, model, owner)
    }

    ghost predicate Heaps()
      reads this`model, best, worst
    {
      Ranked(best, worst, RanksOf(model))
    }

    /** Opened for this queue where Opened is mentioned. */
    ghost predicate Valid()
      reads this, owner.Keys, best, worst
    {
      forall k: nat {:trigger Opened(this, k)} :: Opened(this, k) ==> Shape() && Heaps()
    }

    constructor ()
      ensures Valid() && Filed(model) && model == map[] && owner == map[] && fresh(best) && fresh(worst)
    {
      txs, model, owner := map[], map[], map[];
      best := new Heap<Address>();
      worst := new Heap<Address>();
    }

    /** The rank of every account, as the closures of the heaps see it. */
    method CurrentRanks() returns (ranks: Ranks)
      requires Shape() && Filed(model)
      ensures ranks == RanksOf(model)
    {
      assert Gathered(txs, 0);
      ranks := map a | a in txs :: var head := txs[a].Peek().value; Some(Rank(head.obj.price, head.timestamp));
    }

    method AddKnown(item: PoolItem)
      requires Shape() && item.obj.account in txs
      modifies this`model, owner.Keys
      ensures Shape() && model == Put(old(model), item)
    {
      assert Gathered(txs, 0);
      var a := item.obj.account;
      var c := txs[a];
      var _ := c.Add(item);
      model := model[a := c.txs];
      forall b | b in txs && b != a ensures Collected(txs[b], model[b]) {
        assert old(Collected(txs[b], model[b]));
      }
    }

    method Link(a: Address, c: TxCollection)
      requires Shape() && a !in txs && c !in owner && c.nonceHeap !in owner
      requires Collected(c, c.txs)
      modifies this`txs, this`model, this`owner
      ensures Shape() && model == old(model)[a := c.txs] && owner.Keys == old(owner.Keys) + {c, c.nonceHeap}
    {
      assert Gathered(txs, 0);
      Linked(txs, model, owner, a, c);
      txs, model, owner := txs[a := c], model[a := c.txs], owner[c := a][c.nonceHeap := a];
    }

    method AddNew(item: PoolItem)
      requires Shape() && item.obj.account !in txs
      modifies this
      ensures Shape() && model == Put(old(model), item) && fresh(owner.Keys - old(owner.Keys))
    {
      var c := Single(item);
      Link(item.obj.account, c);
    }

    /** heap.Fix on both heaps, after the objects of `a` have changed. */
    method FixHeaps(a: Address, ghost was: Accounts)
      requires Shape() && Filed(model) && a in model && a in was && model == was[a := model[a]]
      requires Ranked(best, worst, RanksOf(was))
      modifies best, worst
      ensures Shape() && Heaps()
    {
      var ranks := CurrentRanks();
      RankSet(was, a, model[a]);
      FixBoth(best, worst, a, RanksOf(was), ranks);
    }

    method PushHeaps(a: Address, ghost was: Accounts)
      requires Shape() && Filed(model) && a in model && a !in was && model == was[a := model[a]]
      requires Ranked(best, worst, RanksOf(was))
      modifies best, worst
      ensures Shape() && Heaps()
    {
      var ranks := CurrentRanks();
      RankSet(was, a, model[a]);
      PushBoth(best, worst, a, RanksOf(was), ranks);
    }

    predicate Empty()
      requires Valid()
      reads this, owner.Keys, best, worst
      ensures Empty() <==> model == map[]
    {
      assert Opened(this, 0);
      TopIsBest(best, worst, model);
      best.data == []
    }

    /** The object that pop would return. */
    method Peek() returns (obj: PoolObject)
      requires Valid() && Filed(model) && model != map[]
      ensures Next(model, obj) && best.data != [] && obj.account == best.data[0]
    {
      assert Opened(this, 0) && Gathered(txs, 0);
      TopIsBest(best, worst, model);
      obj := txs[best.data[0]].Peek().value.obj;
    }

    function Get(a: Address, nonce: nat): (item: Option<PoolItem>)
      requires Valid()
      reads this, owner.Keys, best, worst
      ensures item == if nonce in ItemsOf(model, a) then Some(model[a][nonce]) else None
    {
      assert Opened(this, 0) && Gathered(txs, 0);
      if a in txs && nonce in txs[a].txs then Some(txs[a].txs[nonce]) else None
    }

    /** add: into the account's collection, or a new one. */
    method Add(item: PoolItem)
      requires Valid() && Filed(model)
      modifies this, owner.Keys, best, worst
      ensures Valid() && Filed(model) && fresh(owner.Keys - old(owner.Keys)) && model == Put(old(model), item)
    {
      assert Opened(this, 0);
      var a := item.obj.account;
      ghost var was := model;
      PutFiled(was, item);
      if a in txs {
        AddKnown(item);
        FixHeaps(a, was);
      } else {
        AddNew(item);
        PushHeaps(a, was);
      }
    }

    method Unlink(a: Address) returns (c: TxCollection)
      requires Shape() && a in txs
      modifies this`txs, this`model, this`owner
      ensures Shape() && model == old(model) - {a} && owner.Keys <= old(owner.Keys)
      ensures Detached(c, old(model)[a], old(owner), owner)
    {
      assert Gathered(txs, 0);
      c := txs[a];
      Unlinked(txs, model, owner, a);
      owner := owner - {txs[a], txs[a].nonceHeap};
      txs, model := txs - {a}, model - {a};
    }

    /** heap.Remove on both heaps, after `a` has been deleted. */
    method RemoveHeaps(a: Address, ghost was: Accounts)
      requires Shape() && Filed(model) && a in was && model == was - {a}
      requires Ranked(best, worst, RanksOf(was))
      modifies best, worst
      ensures Shape() && Heaps()
    {
      var ranks := CurrentRanks();
      RankGone(was, a);
      RemoveBoth(best, worst, a, RanksOf(was), ranks);
    }

    /** The account goes from the map and from both heaps. */
    method Dismiss(a: Address, ghost was: Accounts)
      requires Shape() && a in txs && a in was && model - {a} == was - {a} && Filed(was - {a})
      requires Ranked(best, worst, RanksOf(was))
      modifies this`txs, this`model, this`owner, best, worst
      ensures Shape() && Heaps() && model == was - {a} && owner.Keys <= old(owner.Keys)
    {
      var _ := Unlink(a);
      RemoveHeaps(a, was);
    }

    /** After an object has been taken from the collection of `a`: the account goes with its last object. */
    method Settle(a: Address, ghost was: Accounts, ghost nonce: nat)
      requires Shape() && Filed(was) && a in was && a in txs && model == was[a := was[a] - {nonce}]
      requires Ranked(best, worst, RanksOf(was))
      modifies this, best, worst
      ensures Shape() && Filed(model) && Heaps() && model == Drop(was, a, nonce) && owner.Keys <= old(owner.Keys)
    {
      assert Gathered(txs, 0);
      DropFiled(was, model, a, nonce);
      if txs[a].Len() == 0 {
        Dismiss(a, was);
      } else {
        FixHeaps(a, was);
      }
    }

    method TakeFrom(a: Address, nonce: nat) returns (removed: bool)
      requires Shape() && a in txs
      modifies this`model, owner.Keys
      ensures Shape() && model == old(model)[a := old(model)[a] - {nonce}] && removed == (nonce in old(model)[a])
      ensures !removed ==> model == old(model)
    {
      assert Gathered(txs, 0);
      var c := txs[a];
      removed := c.Remove(nonce);
      assert !removed ==> old(model)[a] - {nonce} == old(model)[a];
      model := model[a := c.txs];
      forall b | b in txs && b != a ensures Collected(txs[b], model[b]) {
        assert old(Collected(txs[b], model[b]));
      }
    }

    method Remove(a: Address, nonce: nat)
      requires Valid() && Filed(model)
      modifies this, owner.Keys, best, worst
      ensures Valid() && Filed(model) && owner.Keys <= old(owner.Keys)
      ensures model == if nonce in ItemsOf(old(model), a) then Drop(old(model), a, nonce) else old(model)
    {
      assert Opened(this, 0);
      if a in txs {
        ghost var was := model;
        var removed := TakeFrom(a, nonce);
        if removed {
          Settle(a, was, nonce);
        }
      }
    }

    method PopFrom(a: Address) returns (item: PoolItem)
      requires Shape() && a in txs && model[a] != map[]
      modifies this`model, owner.Keys
      ensures Shape() && model == old(model)[a := old(model)[a] - {First(old(model)[a])}]
      ensures item == old(model)[a][First(old(model)[a])]
    {
      assert Gathered(txs, 0);
      var c := txs[a];
      item := c.Pop();
      model := model[a := c.txs];
      forall b | b in txs && b != a ensures Collected(txs[b], model[b]) {
        assert old(Collected(txs[b], model[b]));
      }
    }

    /** The object with the lowest nonce of an account goes, and the account with its last object. */
    method PopOf(a: Address) returns (item: PoolItem)
      requires Shape() && Filed(model) && Heaps() && a in model
      modifies this, owner.Keys, best, worst
      ensures Shape() && Filed(model) && Heaps() && owner.Keys <= old(owner.Keys)
      ensures item == old(model)[a][First(old(model)[a])] && model == Drop(old(model), a, First(old(model)[a]))
    {
      ghost var was := model;
      item := PopFrom(a);
      Settle(a, was, First(was[a]));
    }

    /** pop: the object with the lowest nonce of the best account. */
    method Pop() returns (obj: PoolObject)
      requires Valid() && Filed(model) && model != map[]
      modifies this, owner.Keys, best, worst
      ensures Valid() && Filed(model) && owner.Keys <= old(owner.Keys)
      ensures Next(old(model), obj) && old(best.data) != [] && obj.account == old(best.data[0])
      ensures Dearest(old(model), old(model)[obj.account][obj.nonce])
      ensures model == Drop(old(model), obj.account, obj.nonce)
    {
      assert Opened(this, 0);
      TopIsBest(best, worst, model);
      var item := PopOf(best.data[0]);
      obj := item.obj;
      NextIsDearest(old(model), obj);
    }

    /** The worst account, when its first object is priced below `price`. */
    method WorstBelow(price: int) returns (a: Option<Address>)
      requires Shape() && Filed(model) && Heaps()
      ensures a.None? <==> forall b :: b in model ==> price <= HeadPrice(model, b)
      ensures a.Some? ==>
        && worst.data != [] && a.value == worst.data[0] && IsWorst(model, a.value)
        && Cheapest(model, a.value) && HeadPrice(model, a.value) < price
    {
      assert Gathered(txs, 0);
      TopIsBest(best, worst, model);
      if best.data == [] {
        return None;
      }
      var top := worst.data[0];
      WorstIsCheapest(model, top);
      if price <= txs[top].Peek().value.obj.price {
        return None;
      }
      return Some(top);
    }

    /** heap.Pop on the worst heap, heap.Remove on the best one. */
    method PopHeaps(ranks: Ranks) returns (a: Address)
      requires Shape() && ranks == RanksOf(model) && Ranked(best, worst, ranks) && worst.data != []
      modifies best, worst
      ensures Shape() && a == old(worst.data[0]) && Ranked(best, worst, RanksOf(model - {a}))
    {
      a := PopBoth(best, worst, ranks);
      assert RanksOf(model - {a}) == ranks - {a};
    }

    method DropWorst(ranks: Ranks) returns (c: TxCollection)
      requires Shape() && worst.data != [] && worst.data[0] in txs
      requires ranks == RanksOf(model) && Ranked(best, worst, ranks)
      modifies this, best, worst
      ensures Shape() && Heaps() && Detached(c, old(model)[old(worst.data[0])], old(owner), owner)
      ensures model == old(model) - {old(worst.data[0])} && owner.Keys <= old(owner.Keys)
    {
      var a := PopHeaps(ranks);
      ghost var left := RanksOf(model - {a});
      c := Unlink(a);
      assert RanksOf(model) == left;
      assert Ranked(best, worst, left);
    }

    /** discard: a worst account with all its objects, when its first object is priced below `price`. */
    method Discard(price: int) returns (c: Option<TxCollection>)
      requires Valid() && Filed(model)
      modifies this, best, worst
      ensures Valid() && Filed(model) && owner.Keys <= old(owner.Keys)
      ensures c.None? <==> forall a :: a in old(model) ==> price <= HeadPrice(old(model), a)
      ensures c.None? ==> model == old(model)
      ensures c.Some? ==> Detached(c.value, c.value.txs, old(owner), owner)
      ensures c.Some? ==> Discards(old(model), model, c.value.txs, price)
    {
      assert Opened(this, 0);
      var a := WorstBelow(price);
      if a.None? {
        return None;
      }
      var ranks := CurrentRanks();
      ghost var was := model;
      var worstCollection := DropWorst(ranks);
      assert DiscardsAt(was, model, worstCollection.txs, price, a.value);
      c := Some(worstCollection);
    }
  }
}
