/** The transaction pool over the pending queue (core/object_pool.go). */
module Pool {
  import opened Common
  import opened PoolQueue

  type Pooled = map<nat, PoolItem>

  /** A pending item is pooled under its hash and is not being processed. */
  ghost predicate Listed(all: Pooled, processing: set<nat>, item: PoolItem) {
    item.obj.hash in all && all[item.obj.hash] == item && item.obj.hash !in processing
  }

  /** Pending and processing objects are pooled, and no object is both. */
  ghost predicate Consistent(all: Pooled, model: Accounts, processing: set<nat>) {
    && processing <= all.Keys
    && (forall h :: h in all ==> all[h].obj.hash == h)
    && (forall a, n :: a in model && n in model[a] ==> Listed(all, processing, model[a][n]))
  }

  /** The queue after remove. */
  function Removed(model: Accounts, a: Address, nonce: nat): Accounts {
    if nonce in ItemsOf(model, a) then Drop(model, a, nonce) else model
  }

  lemma RemoveConsistent(all: Pooled, model: Accounts, processing: set<nat>, h: nat)
    requires Filed(model) && Consistent(all, model, processing) && h in all
    ensures Consistent(all - {h}, Removed(model, all[h].obj.account, all[h].obj.nonce), processing - {h})
  {
    var obj := all[h].obj;
    var left := Removed(model, obj.account, obj.nonce);
    forall a, n | a in left && n in left[a] ensures Listed(all - {h}, processing - {h}, left[a][n]) {
      assert left[a][n] == model[a][n];
      assert Listed(all, processing, model[a][n]);
    }
  }

  lemma AddConsistent(all: Pooled, model: Accounts, processing: set<nat>, item: PoolItem)
    requires Consistent(all, model, processing) && item.obj.hash !in all
    ensures Consistent(all[item.obj.hash := item], Put(model, item), processing)
  {
    var grown := Put(model, item);
    forall a, n | a in grown && n in grown[a] ensures Listed(all[item.obj.hash := item], processing, grown[a][n]) {
      if a != item.obj.account || n != item.obj.nonce {
        assert Listed(all, processing, model[a][n]);
      }
    }
  }

  function Hashes(items: Items): set<nat> {
    set n | n in items :: items[n].obj.hash
  }

  lemma DiscardConsistent(all: Pooled, model: Accounts, processing: set<nat>, a: Address)
    requires Filed(model) && Consistent(all, model, processing) && a in model
    ensures Consistent(all - Hashes(model[a]), model - {a}, processing)
    ensures |all - Hashes(model[a])| < |all|
  {
    var left := all - Hashes(model[a]);
    forall n | n in model[a] ensures model[a][n].obj.hash in all.Keys && model[a][n].obj.hash !in processing {
      assert Listed(all, processing, model[a][n]);
    }
    forall b, m | b in model && b != a && m in model[b] ensures Listed(left, processing, model[b][m]) {
      assert Listed(all, processing, model[b][m]);
    }
    var n :| n in model[a];
    assert model[a][n].obj.hash in Hashes(model[a]);
    Smaller(left.Keys, all.Keys);
  }

  ghost predicate Within(part: Items, items: Items) {
    part.Keys <= items.Keys && forall n :: n in part ==> part[n] == items[n]
  }

  /** One more object of `items` taken: `n`, out of those that were left. */
  lemma HashesStep(items: Items, had: Items, n: nat)
    requires Within(had, items) && n in had
    ensures Within(had - {n}, items) && |(had - {n}).Keys| < |had.Keys|
    ensures Hashes(items - (had - {n}).Keys) == Hashes(items - had.Keys) + {items[n].obj.hash}
  {
    var taken, before := items - (had - {n}).Keys, items - had.Keys;
    assert taken == before[n := items[n]];
    Smaller((had - {n}).Keys, had.Keys);
    forall h ensures h in Hashes(taken) <==> h in Hashes(before) + {items[n].obj.hash} {
      if h in Hashes(before) {
        var m :| m in before && before[m].obj.hash == h;
        assert m in taken && taken[m].obj.hash == h;
      }
      assert n in taken;
    }
  }

  lemma Smaller(a: set<nat>, b: set<nat>)
    requires a < b
    ensures |a| < |b|
  {
    assert b == a + (b - a);
  }

  /** All but the objects `rest` of `items` have been taken out of `all`. */
  ghost predicate Forgotten(all: Pooled, left: Pooled, items: Items, rest: Items) {
    Within(rest, items) && left == all - Hashes(items - rest.Keys)
  }

  lemma ForgottenStep(all: Pooled, left: Pooled, items: Items, rest: Items, n: nat)
    requires Forgotten(all, left, items, rest) && n in rest
    ensures Forgotten(all, left - {rest[n].obj.hash}, items, rest - {n}) && |(rest - {n}).Keys| < |rest.Keys|
  {
    HashesStep(items, rest, n);
  }

  lemma ForgottenAll(all: Pooled, left: Pooled, items: Items)
    ensures Forgotten(all, all, items, items)
    ensures Forgotten(all, left, items, map[]) ==> left == all - Hashes(items)
  {
    assert items - items.Keys == map[];
    var none: Items := map[];
    assert items - none.Keys == items;
    assert Hashes(map[]) == {};
  }

  /** Take every object of a discarded collection out of the hash map. */
  method Forget(c: TxCollection, all: Pooled) returns (left: Pooled)
    requires c.Valid()
    modifies c, c.nonceHeap
    ensures left == all - Hashes(old(c.txs))
  {
    ghost var items := c.txs;
    left := all;
    ForgottenAll(all, left, items);
    while c.Len() > 0
      invariant c.Valid() && Forgotten(all, left, items, c.txs)
      decreases |c.txs.Keys|
    {
      ForgottenStep(all, left, items, c.txs, First(c.txs));
      var item := c.Pop();
      left := left - {item.obj.hash};
    }
    ForgottenAll(all, left, items);
  }

  ghost predicate AllPriced(model: Accounts, price: int)
    requires Filed(model)
  {
    forall a :: a in model ==> price <= HeadPrice(model, a)
  }

  /** A worst account, with a head priced below `price`, has left the pool with all its objects. */
  ghost predicate Evicted(all: Pooled, all': Pooled, model: Accounts, model': Accounts, price: int)
    requires Filed(model)
  {
    exists a :: EvictedAt(all, all', model, model', price, a)
  }

  ghost predicate EvictedAt(all: Pooled, all': Pooled, model: Accounts, model': Accounts, price: int, a: Address)
    requires Filed(model)
  {
    IsWorst(model, a) && HeadPrice(model, a) < price && model' == model - {a} && all' == all - Hashes(model[a])
  }

  lemma EvictConsistent(all: Pooled, left: Pooled, was: Accounts, model: Accounts, processing: set<nat>, price: int)
    requires Filed(was) && Consistent(all, was, processing) && Evicted(all, left, was, model, price)
    ensures Consistent(left, model, processing) && |left| < |all|
  {
    var a :| EvictedAt(all, left, was, model, price, a);
    DiscardConsistent(all, was, processing, a);
  }

  /** The worst account leaves the queue, and its objects the hash map. */
  method TakeWorst(queue: PendingQueue, price: int, all: Pooled) returns (ok: bool, left: Pooled)
    requires queue.Valid() && Filed(queue.model)
    modifies queue, queue.owner.Keys, queue.best, queue.worst
    ensures queue.Valid() && Filed(queue.model) && queue.owner.Keys <= old(queue.owner.Keys)
    ensures ok <==> !AllPriced(old(queue.model), price)
    ensures !ok ==> left == all && queue.model == old(queue.model)
    ensures ok ==> Evicted(all, left, old(queue.model), queue.model, price)
  {
    ghost var was := queue.model;
    var c := queue.Discard(price);
    ok, left := c.Some?, all;
    if ok {
      ghost var a :| DiscardsAt(was, queue.model, c.value.txs, price, a);
      left := Forget(c.value, all);
      assert EvictedAt(all, left, was, queue.model, price, a);
    }
  }

  method Evict(queue: PendingQueue, price: int, all: Pooled, ghost processing: set<nat>)
    returns (ok: bool, left: Pooled)
    requires queue.Valid() && Filed(queue.model) && Consistent(all, queue.model, processing)
    modifies queue, queue.owner.Keys, queue.best, queue.worst
    ensures queue.Valid() && Filed(queue.model) && queue.owner.Keys <= old(queue.owner.Keys)
    ensures Consistent(left, queue.model, processing)
    ensures ok <==> !AllPriced(old(queue.model), price)
    ensures !ok ==> left == all && queue.model == old(queue.model)
    ensures ok ==> |left| < |all| && Evicted(all, left, old(queue.model), queue.model, price)
  {
    ghost var was := queue.model;
    ok, left := TakeWorst(queue, price, all);
    if ok {
      EvictConsistent(all, left, was, queue.model, processing, price);
    }
  }

  /** `txs` are objects popped one after the other from `was`, leaving `model`. */
  ghost predicate Greedy(was: Accounts, txs: seq<PoolObject>, model: Accounts)
    decreases |txs|
  {
    if txs == [] then model == was
    else
      var tx := txs[|txs| - 1];
      exists mid :: Greedy(was, txs[..|txs| - 1], mid) && Next(mid, tx) && model == Drop(mid, tx.account, tx.nonce)
  }

  function SizeOf(txs: seq<PoolObject>): nat {
    if txs == [] then 0 else SizeOf(txs[..|txs| - 1]) + txs[|txs| - 1].size
  }

  function HashSet(txs: seq<PoolObject>): set<nat> {
    set i | 0 <= i < |txs| :: txs[i].hash
  }

  function Pending(model: Accounts): set<(Address, nat)> {
    set a, n | a in model && n in model[a] :: (a, n)
  }

  /** What is pending in `part` is pending in `whole`. */
  ghost predicate Subqueue(part: Accounts, whole: Accounts) {
    forall a, n :: n in ItemsOf(part, a) ==> n in ItemsOf(whole, a) && part[a][n] == whole[a][n]
  }

  /** The state of a drain that has popped `txs`. */
  ghost predicate Drained(was: Accounts, model: Accounts, txs: seq<PoolObject>, total: nat, processing: set<nat>,
                          size: int) {
    && Greedy(was, txs, model) && processing == HashSet(txs)
    && total == SizeOf(txs) && (txs != [] ==> total <= size)
  }

  /** The next object, if any, is larger than `room`. */
  ghost predicate NoneFits(model: Accounts, room: int) {
    model != map[] ==> exists obj :: Next(model, obj) && obj.size > room
  }

  lemma DrainStep(was: Accounts, model: Accounts, txs: seq<PoolObject>, total: nat, processing: set<nat>, size: int,
                  tx: PoolObject)
    requires Drained(was, model, txs, total, processing, size) && Next(model, tx) && tx.size <= size - total
    ensures Drained(was, Drop(model, tx.account, tx.nonce), txs + [tx], total + tx.size, processing + {tx.hash}, size)
    ensures |Pending(Drop(model, tx.account, tx.nonce))| < |Pending(model)|
  {
    var grown, left := txs + [tx], Drop(model, tx.account, tx.nonce);
    assert grown[..|grown| - 1] == txs && grown[|grown| - 1] == tx;
    assert Greedy(was, grown[..|grown| - 1], model) && Next(model, tx);
    HashSetStep(txs, tx);
    assert (tx.account, tx.nonce) in Pending(model);
    Fewer(Pending(left), Pending(model), (tx.account, tx.nonce));
  }

  lemma HashSetStep(txs: seq<PoolObject>, tx: PoolObject)
    ensures HashSet(txs + [tx]) == HashSet(txs) + {tx.hash}
  {
    var grown := txs + [tx];
    forall h ensures h in HashSet(grown) <==> h in HashSet(txs) + {tx.hash} {
      if h in HashSet(txs) {
        var i :| 0 <= i < |txs| && txs[i].hash == h;
        assert grown[i].hash == h;
      }
      assert grown[|txs|] == tx;
    }
  }

  lemma Fewer<T>(a: set<T>, b: set<T>, x: T)
    requires a <= b - {x} && x in b
    ensures |a| < |b|
  {
    assert b == a + (b - a);
  }

  lemma PopConsistent(all: Pooled, model: Accounts, processing: set<nat>, tx: PoolObject)
    requires Filed(model) && Consistent(all, model, processing) && Next(model, tx)
    ensures Consistent(all, Drop(model, tx.account, tx.nonce), processing + {tx.hash})
  {
    var left := Drop(model, tx.account, tx.nonce);
    assert Listed(all, processing, model[tx.account][tx.nonce]);
    forall a, n | a in left && n in left[a] ensures Listed(all, processing + {tx.hash}, left[a][n]) {
      assert left[a][n] == model[a][n];
      assert Listed(all, processing, model[a][n]);
    }
  }

  datatype AddResult = Added | HashExists | Invalid | NonceUsed | PoolFull

  /** An object of the same account and nonce is pending at the same price or more. */
  ghost predicate Outbid(model: Accounts, obj: PoolObject) {
    obj.nonce in ItemsOf(model, obj.account) && obj.price <= model[obj.account][obj.nonce].obj.price
  }

  /** The outcome of addObject, with the pool before and after. */
  ghost predicate AddedBy(r: AddResult, item: PoolItem, valid: bool, capacity: nat,
                          all: Pooled, all': Pooled, model: Accounts, model': Accounts)
    requires Filed(model)
  {
    var obj := item.obj;
    var known := obj.nonce in ItemsOf(model, obj.account);
    && (r.HashExists? <==> obj.hash in all)
    && (r.Invalid? <==> obj.hash !in all && !valid)
    && (r.NonceUsed? <==> obj.hash !in all && valid && Outbid(model, obj))
    && (r.PoolFull? <==> obj.hash !in all && valid && !known && |all| >= capacity && AllPriced(model, obj.price))
    && (!r.Added? ==> all' == all && model' == model)
    && (r.Added? ==> exists left, rest ::
         GaveWay(obj, capacity, all, left, model, rest) && all' == left[obj.hash := item] && model' == Put(rest, item))
  }

  /** What gives way to the new object: the one it replaces, an evicted account, or nothing. */
  ghost predicate GaveWay(obj: PoolObject, capacity: nat, all: Pooled, left: Pooled, model: Accounts, rest: Accounts)
    requires Filed(model)
  {
    if obj.nonce in ItemsOf(model, obj.account) then
      left == all - {model[obj.account][obj.nonce].obj.hash} && rest == Drop(model, obj.account, obj.nonce)
    else if |all| >= capacity then Evicted(all, left, model, rest, obj.price)
    else left == all && rest == model
  }

  class Pool {
    const capacity: nat
    const queue: PendingQueue
    /** hashToTxMap */
    var all: Pooled
    /** processingObjects */
    var processing: set<nat>

    ghost predicate Valid()
      reads this, queue, queue.owner.Keys, queue.best, queue.worst
    {
      && this !in queue.owner && queue.Valid() && Filed(queue.model)
      && Consistent(all, queue.model, processing)
      && |all| <= capacity
    }

    constructor (capacity: nat)
      ensures Valid() && all == map[] && this.capacity == capacity
    {
      this.capacity := capacity;
      queue := new PendingQueue();
      all, processing := map[], {};
    }

    /** doRemoveObject */
    method DoRemove(h: nat)
      requires Valid()
      modifies this, queue, queue.owner.Keys, queue.best, queue.worst
      ensures Valid() && queue.owner.Keys <= old(queue.owner.Keys)
      ensures all == old(all) - {h} && processing == old(processing) - {h}
      ensures h in old(all) ==> queue.model == Removed(old(queue.model), old(all)[h].obj.account, old(all)[h].obj.nonce)
      ensures h !in old(all) ==> queue.model == old(queue.model)
    {
      if h in all {
        RemoveConsistent(all, queue.model, processing, h);
        queue.Remove(all[h].obj.account, all[h].obj.nonce);
        processing := processing - {h};
        all := all - {h};
      }
    }

    /** A full pool gives up a worst account that is cheaper than `price`. */
    method MakeRoom(price: int) returns (ok: bool)
      requires Valid()
      modifies this`all, queue, queue.owner.Keys, queue.best, queue.worst
      ensures Valid() && queue.owner.Keys <= old(queue.owner.Keys)
      ensures ok <==> !AllPriced(old(queue.model), price)
      ensures !ok ==> all == old(all) && queue.model == old(queue.model)
      ensures ok ==> |all| < old(|all|) && Evicted(old(all), all, old(queue.model), queue.model, price)
    {
      var left;
      ok, left := Evict(queue, price, all, processing);
      all := left;
    }

    /** doAddObject */
    method DoAdd(item: PoolItem)
      requires Valid() && item.obj.hash !in all && |all| < capacity
      modifies this`all, queue, queue.owner.Keys, queue.best, queue.worst
      ensures Valid() && fresh(queue.owner.Keys - old(queue.owner.Keys))
      ensures all == old(all)[item.obj.hash := item] && queue.model == Put(old(queue.model), item)
    {
      AddConsistent(all, queue.model, processing, item);
      all := all[item.obj.hash := item];
      queue.Add(item);
    }

    /** The part of addObject between the validation and the insertion. */
    method GiveWay(obj: PoolObject) returns (r: AddResult)
      requires Valid() && obj.hash !in all
      modifies this, queue, queue.owner.Keys, queue.best, queue.worst
      ensures Valid() && queue.owner.Keys <= old(queue.owner.Keys)
      ensures processing == old(processing)
      ensures !r.HashExists? && !r.Invalid? && (!r.Added? ==> all == old(all) && queue.model == old(queue.model))
      ensures r.NonceUsed? <==> Outbid(old(queue.model), obj)
      ensures r.PoolFull? <==>
        |old(all)| >= capacity && obj.nonce !in ItemsOf(old(queue.model), obj.account) &&
        AllPriced(old(queue.model), obj.price)
      ensures r.Added? ==> |all| < capacity && GaveWay(obj, capacity, old(all), all, old(queue.model), queue.model)
    {
      var exist := queue.Get(obj.account, obj.nonce);
      if exist.Some? {
        if obj.price <= exist.value.obj.price {
          return NonceUsed;
        }
        Replace(exist.value);
      } else if |all| >= capacity {
        var ok := MakeRoom(obj.price);
        if !ok {
          return PoolFull;
        }
      }
      return Added;
    }

    /** Remove a pending item: its hash leads to itself, so it leaves the queue and makes room for one. */
    method Replace(item: PoolItem)
      requires Valid() && item.obj.nonce in ItemsOf(queue.model, item.obj.account)
      requires queue.model[item.obj.account][item.obj.nonce] == item
      modifies this, queue, queue.owner.Keys, queue.best, queue.worst
      ensures Valid() && queue.owner.Keys <= old(queue.owner.Keys) && |all| < capacity
      ensures all == old(all) - {item.obj.hash} && processing == old(processing)
      ensures queue.model == Drop(old(queue.model), item.obj.account, item.obj.nonce)
    {
      assert Listed(all, processing, item);
      Smaller(all.Keys - {item.obj.hash}, all.Keys);
      DoRemove(item.obj.hash);
    }

    /** addObject: `valid` is the verdict of the validation against the current state, `now` the time. */
    method AddObject(obj: PoolObject, valid: bool, now: int) returns (r: AddResult)
      requires Valid()
      modifies this, queue, queue.owner.Keys, queue.best, queue.worst
      ensures Valid() && fresh(queue.owner.Keys - old(queue.owner.Keys))
      ensures AddedBy(r, PoolItem(obj, now), valid, capacity, old(all), all, old(queue.model), queue.model)
      ensures processing == old(processing)
    {
      if obj.hash in all {
        return HashExists;
      }
      if !valid {
        return Invalid;
      }
      r := GiveWay(obj);
      if r.Added? {
        ghost var left, rest := all, queue.model;
        DoAdd(PoolItem(obj, now));
        assert GaveWay(obj, capacity, old(all), left, old(queue.model), rest);
      }
    }

    /** One round of the loop of getProcessableObjects: pop the next object when it fits. */
    method PopFitting(room: int) returns (tx: Option<PoolObject>)
      requires Valid()
      modifies this`processing, queue, queue.owner.Keys, queue.best, queue.worst
      ensures Valid() && queue.owner.Keys <= old(queue.owner.Keys)
      ensures tx.None? ==>
        queue.model == old(queue.model) && processing == old(processing) && NoneFits(queue.model, room)
      ensures tx.Some? ==> Next(old(queue.model), tx.value) && tx.value.size <= room
      ensures tx.Some? ==> queue.model == Drop(old(queue.model), tx.value.account, tx.value.nonce)
      ensures tx.Some? ==> processing == old(processing) + {tx.value.hash}
    {
      if queue.Empty() {
        return None;
      }
      var obj := queue.Peek();
      if obj.size > room {
        return None;
      }
      obj := TakeNext();
      return Some(obj);
    }

    /** The next object goes from the queue into processing. */
    method TakeNext() returns (obj: PoolObject)
      requires Valid() && queue.model != map[]
      modifies this`processing, queue, queue.owner.Keys, queue.best, queue.worst
      ensures Valid() && queue.owner.Keys <= old(queue.owner.Keys)
      ensures Next(old(queue.model), obj) && old(queue.best.data) != [] && obj.account == old(queue.best.data[0])
      ensures queue.model == Drop(old(queue.model), obj.account, obj.nonce)
      ensures processing == old(processing) + {obj.hash}
    {
      ghost var was := queue.model;
      obj := queue.Pop();
      PopConsistent(all, was, processing, obj);
      processing := processing + {obj.hash};
    }

    /** One round of getProcessableObjects. */
    method PopRound(ghost start: Accounts, txs: seq<PoolObject>, total: nat, size: int)
      returns (grown: seq<PoolObject>, total': nat, more: bool)
      requires Valid() && Drained(start, queue.model, txs, total, processing, size)
      modifies this`processing, queue, queue.owner.Keys, queue.best, queue.worst
      ensures Valid() && queue.owner.Keys <= old(queue.owner.Keys)
      ensures Drained(start, queue.model, grown, total', processing, size)
      ensures if more then |Pending(queue.model)| < old(|Pending(queue.model)|)
              else NoneFits(queue.model, size - total')
    {
      ghost var was, before := queue.model, processing;
      var tx := PopFitting(size - total);
      if tx.None? {
        return txs, total, false;
      }
      DrainStep(start, was, txs, total, before, size, tx.value);
      return txs + [tx.value], total + tx.value.size, true;
    }

    /** getProcessableObjects: the objects popped while they fit into `size`. */
    method GetProcessable(size: int) returns (txs: seq<PoolObject>, total: nat)
      requires Valid()
      modifies this`processing, queue, queue.owner.Keys, queue.best, queue.worst
      ensures Valid() && queue.owner.Keys <= old(queue.owner.Keys)
      ensures Drained(old(queue.model), queue.model, txs, total, processing, size)
      ensures NoneFits(queue.model, size - total)
    {
      txs, total := [], 0;
      processing := {};
      var more := true;
      while more
        invariant Valid() && queue.owner.Keys <= old(queue.owner.Keys)
        invariant Drained(old(queue.model), queue.model, txs, total, processing, size)
        invariant more || NoneFits(queue.model, size - total)
        decreases more, |Pending(queue.model)|
      {
        txs, total, more := PopRound(old(queue.model), txs, total, size);
      }
    }
  }
}
