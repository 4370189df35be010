/** What Hash and Commit write into the account trie (core/state/stateobject.go, core/state/statedb.go). */
module Flush {
  import opened Common
  import opened StateObjects
  import opened Statedb

  const NO_OBJECTS: Objects := map[]

  /** The hash of code is never empty. */
  ghost predicate Digests(hash: Bytes -> Bytes) {
    forall c :: hash(c) != []
  }

  /** An account reads the same in two databases. */
  ghost predicate ReadsAs(trie: Trie, x: Objects, trie': Trie, y: Objects, a: Address) {
    && ViewOf(trie, x, a) == ViewOf(trie', y, a)
    && forall k: StorageKey :: DataOf(trie, x, a, k) == DataOf(trie', y, a, k)
  }

  /** A database that is newly opened on the trie reads the account as this one does. */
  ghost predicate Shows(trie: Trie, objects: Objects, a: Address) {
    ReadsAs(trie, objects, trie, NO_OBJECTS, a)
  }

  ghost predicate ShowsAll(trie: Trie, objects: Objects) {
    forall a: Address :: Shows(trie, objects, a)
  }

  ghost predicate SameStorage(x: Storage, y: Storage, a: Address) {
    forall k: StorageKey ::
      ((a, k) in x <==> (a, k) in y) && StorageAt(x, a, k) == StorageAt(y, a, k)
  }

  /** What two tries hold of an account is the same. */
  ghost predicate SameAt(x: Trie, y: Trie, a: Address) {
    && (a in x.accounts <==> a in y.accounts) && (a in x.accounts ==> x.accounts[a] == y.accounts[a])
    && (a in x.codes <==> a in y.codes) && (a in x.codes ==> x.codes[a] == y.codes[a])
    && SameStorage(x.storage, y.storage, a)
  }

  ghost predicate SameObject(x: Objects, y: Objects, a: Address) {
    (a in x <==> a in y) && (a in x ==> x[a] == y[a])
  }

  /** The trie holds nothing of the account. */
  ghost predicate Gone(trie: Trie, a: Address) {
    a !in trie.accounts && a !in trie.codes && forall k: StorageKey :: (a, k) !in trie.storage
  }

  /** DeletePrefix with the hash of the address, which starts the keys of that account and of no other. */
  function Without(trie: Trie, a: Address): Trie {
    Trie(trie.accounts - {a}, trie.codes - {a}, map p | p in trie.storage && p.0 != a :: trie.storage[p])
  }

  /** Sound, account by account. */
  ghost predicate SoundAt(trie: Trie, hash: Bytes -> Bytes, objects: Objects, a: Address) {
    && (forall k: StorageKey :: (a, k) in trie.storage ==> a in trie.accounts)
    && (a in objects && objects[a].deleted ==> a !in trie.accounts && Written(objects[a]))
    && (Lookup(trie, objects, a).Some? ==> SoundObject(trie, hash, a, Lookup(trie, objects, a).value))
  }

  lemma SoundEverywhere(trie: Trie, hash: Bytes -> Bytes, objects: Objects)
    ensures Sound(trie, hash, objects) <==> forall a: Address :: SoundAt(trie, hash, objects, a)
  {
    if Sound(trie, hash, objects) {
      forall a: Address ensures SoundAt(trie, hash, objects, a) {
      }
    }
    if forall a: Address :: SoundAt(trie, hash, objects, a) {
      forall a: Address, k: StorageKey | (a, k) in trie.storage ensures a in trie.accounts {
        assert SoundAt(trie, hash, objects, a);
      }
      forall a: Address | a in objects && objects[a].deleted ensures a !in trie.accounts && Written(objects[a]) {
        assert SoundAt(trie, hash, objects, a);
      }
      forall a: Address | Lookup(trie, objects, a).Some?
        ensures SoundObject(trie, hash, a, Lookup(trie, objects, a).value)
      {
        assert SoundAt(trie, hash, objects, a);
      }
    }
  }

  /** An account whose part of the trie and whose object have not changed is as it was. */
  lemma SameReads(trie: Trie, hash: Bytes -> Bytes, x: Objects, trie': Trie, y: Objects, a: Address)
    requires SameAt(trie, trie', a) && SameObject(x, y, a)
    ensures ReadsAs(trie, x, trie', y, a)
    ensures SoundAt(trie, hash, x, a) ==> SoundAt(trie', hash, y, a)
  {
    assert Lookup(trie, x, a) == Lookup(trie', y, a);
  }

  /** The cached values of an object are those of the trie. */
  ghost predicate CachedRight(storage: Storage, a: Address, o: Object) {
    forall k :: k in o.cached ==> o.cached[k] == StorageAt(storage, a, k)
  }

  /** The dirty values are in the storage, except those still to do. */
  ghost predicate StoredBut(storage: Storage, a: Address, o: Object, todo: set<StorageKey>, storage': Storage) {
    && (forall b: Address :: b != a ==> SameStorage(storage, storage', b))
    && (forall k: StorageKey ::
          StorageAt(storage', a, k) == if k in o.dirty && k !in todo then o.dirty[k] else StorageAt(storage, a, k))
  }

  lemma StoreOne(storage: Storage, a: Address, o: Object, todo: set<StorageKey>, storage': Storage, k: StorageKey)
    requires StoredBut(storage, a, o, todo, storage') && k in todo && k in o.dirty
    ensures StoredBut(storage, a, o, todo - {k}, storage'[(a, k) := o.dirty[k]])
    ensures StorageAt(storage, a, k) == o.dirty[k] ==> StoredBut(storage, a, o, todo - {k}, storage')
  {
    var storage'' := storage'[(a, k) := o.dirty[k]];
    forall b: Address | b != a ensures SameStorage(storage, storage'', b) {
      assert SameStorage(storage, storage', b);
      forall j: StorageKey
        ensures ((b, j) in storage <==> (b, j) in storage'') && StorageAt(storage, b, j) == StorageAt(storage'', b, j)
      {
        assert (b, j) != (a, k);
      }
    }
    forall j: StorageKey
      ensures StorageAt(storage'', a, j)
           == if j in o.dirty && j !in todo - {k} then o.dirty[j] else StorageAt(storage, a, j)
    {
      assert j != k ==> (a, j) != (a, k) && StorageAt(storage'', a, j) == StorageAt(storage', a, j);
    }
  }

  /** And they are in the cache. */
  ghost predicate CachedBut(o: Object, todo: set<StorageKey>, cached: map<StorageKey, Bytes>) {
    && cached.Keys == o.cached.Keys + (o.dirty.Keys - todo)
    && forall k :: k in cached ==> cached[k] == if k in o.dirty && k !in todo then o.dirty[k] else o.cached[k]
  }

  lemma CacheOne(o: Object, todo: set<StorageKey>, cached: map<StorageKey, Bytes>, k: StorageKey)
    requires CachedBut(o, todo, cached) && k in todo && todo <= o.dirty.Keys
    ensures CachedBut(o, todo - {k}, cached[k := o.dirty[k]])
    ensures k in cached && cached[k] == o.dirty[k] ==> CachedBut(o, todo - {k}, cached)
  {
  }

  /** The loop over the dirty storage; a value that is cached already is not written. */
  method FlushStorage(storage: Storage, a: Address, o: Object)
    returns (storage': Storage, cached: map<StorageKey, Bytes>)
    requires CachedRight(storage, a, o)
    ensures StoredBut(storage, a, o, {}, storage') && cached == o.cached + o.dirty
  {
    storage', cached := storage, o.cached;
    var todo := o.dirty.Keys;
    while todo != {}
      invariant todo <= o.dirty.Keys && StoredBut(storage, a, o, todo, storage') && CachedBut(o, todo, cached)
      decreases todo
    {
      var k :| k in todo;
      var v := o.dirty[k];
      StoreOne(storage, a, o, todo, storage', k);
      CacheOne(o, todo, cached, k);
      assert k in cached ==> cached[k] == o.cached[k] == StorageAt(storage, a, k);
      todo := todo - {k};
      if !(k in cached && cached[k] == v) {
        cached := cached[k := v];
        storage' := storage'[(a, k) := v];
      }
    }
  }

  function AsWritten(o: Object): Object {
    o.(cached := o.cached + o.dirty, dirty := map[], dirtyAccount := false, dirtyCode := false)
  }

  function AccountsAfter(trie: Trie, a: Address, o: Object): map<Address, Account> {
    if o.dirtyAccount then trie.accounts[a := o.account] else trie.accounts
  }

  function CodesAfter(trie: Trie, a: Address, o: Object): map<Address, Bytes> {
    if o.dirtyCode then trie.codes[a := if o.code.Some? then o.code.value else []] else trie.codes
  }

  /** The object and its part of the trie, once everything has been written. */
  ghost predicate Wrote(trie: Trie, a: Address, o: Object, trie': Trie, o': Object) {
    && o' == AsWritten(o)
    && a in trie'.accounts && trie'.accounts[a] == o.account
    && (if o.dirtyCode then a in trie'.codes && (o.code.Some? ==> trie'.codes[a] == o.code.value)
        else (a in trie'.codes <==> a in trie.codes) && (a in trie.codes ==> trie'.codes[a] == trie.codes[a]))
    && (forall k: StorageKey :: StorageAt(trie'.storage, a, k) == GetState(trie, a, o, k))
  }

  lemma WroteAll(trie: Trie, hash: Bytes -> Bytes, a: Address, o: Object, storage: Storage)
    requires SoundObject(trie, hash, a, o) && StoredBut(trie.storage, a, o, {}, storage)
    ensures var trie' := Trie(AccountsAfter(trie, a, o), CodesAfter(trie, a, o), storage);
      Wrote(trie, a, o, trie', AsWritten(o)) && forall b: Address :: b != a ==> SameAt(trie, trie', b)
  {
    forall k: StorageKey ensures StorageAt(storage, a, k) == GetState(trie, a, o, k) {
    }
    forall b: Address | b != a ensures SameStorage(trie.storage, storage, b) {
    }
  }

  /** The three writes of flush. */
  method WriteOut(trie: Trie, ghost hash: Bytes -> Bytes, a: Address, o: Object) returns (trie': Trie, o': Object)
    requires SoundObject(trie, hash, a, o)
    ensures Wrote(trie, a, o, trie', o') && forall b: Address :: b != a ==> SameAt(trie, trie', b)
  {
    var storage, cached := FlushStorage(trie.storage, a, o);
    WroteAll(trie, hash, a, o, storage);
    trie' := Trie(AccountsAfter(trie, a, o), CodesAfter(trie, a, o), storage);
    o' := o.(cached := cached, dirty := map[], dirtyAccount := false, dirtyCode := false);
  }

  lemma WithoutIsGone(trie: Trie, a: Address)
    ensures Gone(Without(trie, a), a) && forall b: Address :: b != a ==> SameAt(trie, Without(trie, a), b)
  {
  }

  /** flush writes an account, and removes one that has been marked. */
  ghost predicate FlushedTo(trie: Trie, a: Address, o: Object, trie': Trie, o': Object) {
    if o.deleted then trie' == trie && o' == o
    else if o.suicided then Gone(trie', a) && o'.deleted && Written(o')
    else Wrote(trie, a, o, trie', o')
  }

  method FlushObject(trie: Trie, ghost hash: Bytes -> Bytes, a: Address, o: Object) returns (trie': Trie, o': Object)
    requires if o.deleted then Written(o) else SoundObject(trie, hash, a, o)
    ensures FlushedTo(trie, a, o, trie', o') && forall b: Address :: b != a ==> SameAt(trie, trie', b)
  {
    trie', o' := trie, o;
    if !Written(o) {
      trie', o' := WriteOut(trie, hash, a, o);
    }
    if o.suicided && !o.deleted {
      WithoutIsGone(trie', a);
      forall b: Address | b != a ensures SameAt(trie, Without(trie', a), b) {
        assert SameAt(trie, trie', b) && SameAt(trie', Without(trie', a), b);
      }
      trie', o' := Without(trie', a), o'.(deleted := true);
    }
  }

  /** A written account reads as before, and a new database reads it so too. */
  lemma WroteReads(trie: Trie, hash: Bytes -> Bytes, a: Address, o: Object, trie': Trie, o': Object)
    requires Digests(hash) && SoundObject(trie, hash, a, o) && !o.suicided && Wrote(trie, a, o, trie', o')
    ensures ObjectView(trie', a, o') == ObjectView(trie, a, o) && SoundObject(trie', hash, a, o')
    ensures forall k: StorageKey :: GetState(trie', a, o', k) == GetState(trie, a, o, k)
    ensures var fresh' := NEW_OBJECT.(account := o.account);
      && ObjectView(trie', a, fresh') == ObjectView(trie, a, o) && SoundObject(trie', hash, a, fresh')
      && forall k: StorageKey :: GetState(trie', a, fresh', k) == GetState(trie, a, o, k)
  {
    assert CodeOf(trie', a, o') == CodeOf(trie, a, o);
    assert CodeOf(trie', a, NEW_OBJECT.(account := o.account)) == CodeOf(trie, a, o);
    forall k: StorageKey ensures GetState(trie', a, o', k) == GetState(trie, a, o, k) {
      assert StorageAt(trie'.storage, a, k) == GetState(trie, a, o, k);
    }
    forall k | k in o'.cached ensures o'.cached[k] == StorageAt(trie'.storage, a, k) {
      assert StorageAt(trie'.storage, a, k) == GetState(trie, a, o, k);
    }
  }

  /** What flush makes of an account: gone if it was marked, else as it was, and in the trie. */
  ghost predicate Flushed(trie: Trie, objects: Objects, trie': Trie, objects': Objects, a: Address) {
    && a in objects && a in objects' && Shows(trie', objects', a)
    && if !objects[a].deleted && objects[a].suicided then Gone(trie', a) && Lookup(trie', objects', a).None?
       else ReadsAs(trie, objects, trie', objects', a)
  }

  lemma FlushedAt(trie: Trie, hash: Bytes -> Bytes, x: Objects, trie': Trie, y: Objects, a: Address)
    requires Digests(hash) && a in x && a in y && SoundAt(trie, hash, x, a) && FlushedTo(trie, a, x[a], trie', y[a])
    ensures Flushed(trie, x, trie', y, a) && SoundAt(trie', hash, y, a) && SoundAt(trie', hash, NO_OBJECTS, a)
  {
    if !x[a].deleted && !x[a].suicided {
      WroteReads(trie, hash, a, x[a], trie', y[a]);
    }
  }

  /** The accounts in `done` are flushed, the others untouched. */
  ghost predicate Progress(trie: Trie, hash: Bytes -> Bytes, objects: Objects, done: set<Address>, trie': Trie,
                           objects': Objects, a: Address) {
    && SoundAt(trie', hash, objects', a) && SoundAt(trie', hash, NO_OBJECTS, a)
    && if a in done then Flushed(trie, objects, trie', objects', a)
       else SameAt(trie, trie', a) && SameObject(objects, objects', a)
  }

  lemma FlushStep(trie: Trie, hash: Bytes -> Bytes, objects: Objects, done: set<Address>, mid: Trie, x: Objects,
                  trie': Trie, y: Objects, a: Address, b: Address)
    requires Digests(hash) && a !in done && a in objects
    requires Progress(trie, hash, objects, done, mid, x, a) && Progress(trie, hash, objects, done, mid, x, b)
    requires a in y && FlushedTo(mid, a, x[a], trie', y[a])
    requires b != a ==> SameAt(mid, trie', b) && SameObject(x, y, b)
    ensures Progress(trie, hash, objects, done + {a}, trie', y, b)
  {
    if b == a {
      FlushedAt(mid, hash, x, trie', y, a);
      SameReads(trie, hash, objects, mid, x, a);
    } else {
      SameReads(mid, hash, x, trie', y, b);
      SameReads(mid, hash, NO_OBJECTS, trie', NO_OBJECTS, b);
    }
  }

  ghost predicate AllProgress(trie: Trie, hash: Bytes -> Bytes, objects: Objects, done: set<Address>, trie': Trie,
                              objects': Objects) {
    forall a: Address :: Progress(trie, hash, objects, done, trie', objects', a)
  }

  lemma ProgressStarts(trie: Trie, hash: Bytes -> Bytes, objects: Objects)
    requires Sound(trie, hash, NO_OBJECTS) && Sound(trie, hash, objects)
    ensures AllProgress(trie, hash, objects, {}, trie, objects)
  {
    SoundEverywhere(trie, hash, objects);
    SoundEverywhere(trie, hash, NO_OBJECTS);
  }

  lemma ProgressIsSound(trie: Trie, hash: Bytes -> Bytes, objects: Objects, done: set<Address>, trie': Trie,
                        objects': Objects)
    requires AllProgress(trie, hash, objects, done, trie', objects')
    ensures Sound(trie', hash, NO_OBJECTS) && Sound(trie', hash, objects')
  {
    forall a: Address ensures SoundAt(trie', hash, objects', a) && SoundAt(trie', hash, NO_OBJECTS, a) {
      assert Progress(trie, hash, objects, done, trie', objects', a);
    }
    SoundEverywhere(trie', hash, objects');
    SoundEverywhere(trie', hash, NO_OBJECTS);
  }

  /** One object of the loop. */
  method FlushNext(trie: Trie, ghost hash: Bytes -> Bytes, objects: Objects, a: Address, ghost was: Trie,
                   ghost before: Objects, ghost done: set<Address>)
    returns (trie': Trie, objects': Objects)
    requires Digests(hash) && AllProgress(was, hash, before, done, trie, objects) && a !in done && a in before
    ensures AllProgress(was, hash, before, done + {a}, trie', objects')
  {
    assert Progress(was, hash, before, done, trie, objects, a);
    var o';
    trie', o' := FlushObject(trie, hash, a, objects[a]);
    objects' := objects[a := o'];
    forall b: Address ensures Progress(was, hash, before, done + {a}, trie', objects', b) {
      assert Progress(was, hash, before, done, trie, objects, b);
      FlushStep(was, hash, before, done, trie, objects, trie', objects', a, b);
    }
  }

  /** The loop over the objects to flush. */
  method FlushAll(trie: Trie, ghost hash: Bytes -> Bytes, objects: Objects, keys: set<Address>)
    returns (trie': Trie, objects': Objects)
    requires Digests(hash) && Sound(trie, hash, NO_OBJECTS) && Sound(trie, hash, objects) && keys <= objects.Keys
    ensures Sound(trie', hash, NO_OBJECTS) && Sound(trie', hash, objects')
    ensures AllProgress(trie, hash, objects, keys, trie', objects')
  {
    ProgressStarts(trie, hash, objects);
    trie', objects' := trie, objects;
    var todo, done := keys, {};
    while todo != {}
      invariant todo !! done && todo + done == keys && AllProgress(trie, hash, objects, done, trie', objects')
      decreases todo
    {
      var a :| a in todo;
      trie', objects' := FlushNext(trie', hash, objects', a, trie, objects, done);
      todo, done := todo - {a}, done + {a};
    }
    ProgressIsSound(trie, hash, objects, done, trie', objects');
    assert done == keys;
  }

  /** The account has been marked in this transaction. */
  ghost predicate Ended(db: Statedb, a: Address)
    reads db
  {
    a in db.dirties && a in db.objects && !db.objects[a].deleted && db.objects[a].suicided
  }

  /** An entry leaves the other accounts alone. */
  lemma OthersSame(trie: Trie, hash: Bytes -> Bytes, x: Objects, e: Entry, y: Objects, a: Address)
    requires Reverts(trie, hash, x, e, y) && (e.RefundChange? || e.account != a)
    ensures ReadsAs(trie, x, trie, y, a)
  {
    var undone := Undo(trie, hash, y, e);
    assert Lookup(trie, undone, a) == Lookup(trie, y, a);
    assert ViewOf(trie, undone, a) == ViewOf(trie, x, a);
    forall k: StorageKey ensures DataOf(trie, x, a, k) == DataOf(trie, y, a, k) {
      assert DataOf(trie, undone, a, k) == DataOf(trie, x, a, k);
    }
  }

  /** An account without entries reads as when the journal was empty. */
  lemma {:induction false} UncountedSame(trie: Trie, hash: Bytes -> Bytes, marks: seq<Mark>, entries: seq<Entry>,
                                         a: Address)
    requires Recorded(trie, hash, marks, entries) && Count(entries, a) == 0
    ensures ReadsAs(trie, marks[0].objects, trie, marks[|entries|].objects, a)
  {
    if entries != [] {
      var n := |entries| - 1;
      assert forall i :: 0 <= i < n ==> Step(trie, hash, marks[i], entries[i], marks[i + 1]);
      UncountedSame(trie, hash, marks[..n + 1], entries[..n], a);
      assert Step(trie, hash, marks[n], entries[n], marks[n + 1]);
      OthersSame(trie, hash, marks[n].objects, entries[n], marks[n + 1].objects, a);
    }
  }

  /** The accounts that Hash leaves out read as when the journal was empty. */
  lemma LeftOutSame(db: Statedb, a: Address)
    requires db.Valid() && a !in db.dirties
    ensures ReadsAs(db.trie, db.marks[0].objects, db.trie, db.objects, a)
  {
    assert Opened(db, 0);
    UncountedSame(db.trie, db.hash, db.marks, db.entries, a);
    assert ViewOf(db.trie, db.objects, a) == ViewOf(db.trie, db.marks[|db.entries|].objects, a);
    forall k: StorageKey ensures DataOf(db.trie, db.marks[0].objects, a, k) == DataOf(db.trie, db.objects, a, k) {
      assert DataOf(db.trie, db.objects, a, k) == DataOf(db.trie, db.marks[|db.entries|].objects, a, k);
    }
  }

  /** What becomes of one account in Hash. */
  lemma HashAt(db: Statedb, keys: set<Address>, trie': Trie, objects': Objects, a: Address)
    requires db.Valid() && keys == db.dirties.Keys * db.objects.Keys
    requires Progress(db.trie, db.hash, db.objects, keys, trie', objects', a)
    ensures if Ended(db, a) then Gone(trie', a) && Lookup(trie', objects', a).None?
      else ReadsAs(db.trie, db.objects, trie', objects', a)
    ensures Shows(trie', objects', a) <==> a in db.dirties || Shows(db.trie, db.marks[0].objects, a)
    ensures a !in db.dirties ==> SameAt(db.trie, trie', a)
  {
    if a !in keys {
      SameReads(db.trie, db.hash, db.objects, trie', objects', a);
      SameReads(db.trie, db.hash, NO_OBJECTS, trie', NO_OBJECTS, a);
      if a !in db.dirties {
        LeftOutSame(db, a);
      }
    }
  }

  /**
    Hash: the accounts of the journal are written to the trie, and a database with an empty journal goes on. A new
    database on that trie shows an account if and only if the journal has an entry of it, or it was shown when the
    journal was last emptied.
   */
  method Hash(db: Statedb) returns (next: Statedb)
    requires db.Valid() && Digests(db.hash)
    ensures fresh(next) && next.Valid() && next.hash == db.hash && next.entries == [] && next.refund == 0
    ensures next.marks == [Mark(next.objects, 0)]
    ensures forall a: Address ::
      if Ended(db, a) then Gone(next.trie, a) && Lookup(next.trie, next.objects, a).None?
      else ReadsAs(db.trie, db.objects, next.trie, next.objects, a)
    ensures forall a: Address ::
      Shows(next.trie, next.objects, a) <==> a in db.dirties || Shows(db.trie, db.marks[0].objects, a)
    ensures forall a: Address :: a !in db.dirties ==> SameAt(db.trie, next.trie, a)
  {
    assert Opened(db, 0);
    var keys := db.dirties.Keys * db.objects.Keys;
    var trie, objects := FlushAll(db.trie, db.hash, db.objects, keys);
    forall a: Address
      ensures if Ended(db, a) then Gone(trie, a) && Lookup(trie, objects, a).None?
        else ReadsAs(db.trie, db.objects, trie, objects, a)
      ensures Shows(trie, objects, a) <==> a in db.dirties || Shows(db.trie, db.marks[0].objects, a)
      ensures a !in db.dirties ==> SameAt(db.trie, trie, a)
    {
      assert Progress(db.trie, db.hash, db.objects, keys, trie, objects, a);
      HashAt(db, keys, trie, objects, a);
    }
    next := new Statedb.Resume(trie, db.hash, objects);
  }

  /** A database between two transactions. */
  datatype Stage = Stage(trie: Trie, objects: Objects)

  predicate Doomed(v: Option<View>) {
    v.Some? && v.value.suicided
  }

  /** Hash after `objects`: marked accounts are gone, the others read the same, and the trie shows everything. */
  ghost predicate Flushes(trie: Trie, objects: Objects, y: Stage) {
    && ShowsAll(y.trie, y.objects)
    && forall a: Address ::
      if Doomed(ViewOf(trie, objects, a)) then Gone(y.trie, a) && Lookup(y.trie, y.objects, a).None?
      else ReadsAs(trie, objects, y.trie, y.objects, a)
  }

  /** The operations of a transaction lead from one stage, through the states of its journal, to the next one. */
  ghost predicate Carried(hash: Bytes -> Bytes, ops: seq<Op>, x: Stage, y: Stage, history: seq<seq<Mark>>) {
    && Performed(x.trie, hash, 0, ops, history) && history[0] == [Mark(x.objects, 0)] && history[|ops|] != []
    && Flushes(x.trie, history[|ops|][|history[|ops|]| - 1].objects, y)
  }

  ghost predicate TxDone(hash: Bytes -> Bytes, ops: seq<Op>, x: Stage, y: Stage) {
    exists history :: Carried(hash, ops, x, y, history)
  }

  /** Where the trie showed everything when the journal was empty, an account is marked only by an entry. */
  lemma DoomedIsEnded(db: Statedb, a: Address)
    requires db.Valid() && ShowsAll(db.trie, db.marks[0].objects)
    ensures Doomed(ViewOf(db.trie, db.objects, a)) <==> Ended(db, a)
  {
    assert Shows(db.trie, db.marks[0].objects, a);
    if a !in db.dirties {
      LeftOutSame(db, a);
    }
  }

  /** One transaction on a database that its trie shows: the trie after it shows the database after it. */
  method Transaction(db: Statedb, ops: seq<Op>) returns (next: Statedb, ghost history: seq<seq<Mark>>)
    requires db.Valid() && Digests(db.hash) && ShowsAll(db.trie, db.objects)
    modifies db
    ensures fresh(next) && next.Valid() && next.hash == db.hash
    ensures Carried(db.hash, ops, Stage(db.trie, old(db.objects)), Stage(next.trie, next.objects), history)
  {
    var id := db.Prepare();
    history := db.Run(ops, id);
    assert db.marks[..1][0] == Mark(old(db.objects), 0);
    next := Hash(db);
    db.LastMark();
    ghost var m := db.marks[|db.entries|];
    forall a: Address
      ensures if Doomed(ViewOf(db.trie, m.objects, a))
        then Gone(next.trie, a) && Lookup(next.trie, next.objects, a).None?
        else ReadsAs(db.trie, m.objects, next.trie, next.objects, a)
    {
      DoomedIsEnded(db, a);
      assert ViewOf(db.trie, db.objects, a) == ViewOf(db.trie, m.objects, a);
      forall k: StorageKey ensures DataOf(db.trie, db.objects, a, k) == DataOf(db.trie, m.objects, a, k) {
      }
    }
  }

  /**
    The transactions of a block, one after the other: each does what its operations say, and every root shows everything
    that can be read after its transaction.
   */
  method Transactions(db: Statedb, txs: seq<seq<Op>>)
    returns (last: Statedb, roots: seq<Trie>, ghost stages: seq<Stage>)
    requires db.Valid() && Digests(db.hash) && ShowsAll(db.trie, db.objects)
    modifies db
    ensures last.Valid() && last.hash == db.hash && |stages| == |txs| + 1 && |roots| == |txs|
    ensures stages[0] == Stage(db.trie, old(db.objects)) && stages[|txs|] == Stage(last.trie, last.objects)
    ensures forall i :: 0 <= i < |txs| ==> TxDone(db.hash, txs[i], stages[i], stages[i + 1])
    ensures forall i :: 0 <= i < |txs| ==> roots[i] == stages[i + 1].trie && ShowsAll(roots[i], stages[i + 1].objects)
  {
    last, roots, stages := db, [], [Stage(db.trie, db.objects)];
    for i := 0 to |txs|
      invariant last.Valid() && last.hash == db.hash && |stages| == i + 1 && |roots| == i
      invariant (last == db || fresh(last)) && ShowsAll(last.trie, last.objects)
      invariant stages[0] == Stage(db.trie, old(db.objects)) && stages[i] == Stage(last.trie, last.objects)
      invariant forall j :: 0 <= j < i ==> TxDone(db.hash, txs[j], stages[j], stages[j + 1])
      invariant forall j :: 0 <= j < i ==> roots[j] == stages[j + 1].trie && ShowsAll(roots[j], stages[j + 1].objects)
    {
      ghost var history;
      last, history := Transaction(last, txs[i]);
      roots, stages := roots + [last.trie], stages + [Stage(last.trie, last.objects)];
    }
  }

  /** What becomes of one account in Commit. */
  lemma CommitAt(trie: Trie, hash: Bytes -> Bytes, objects: Objects, trie': Trie, objects': Objects, a: Address)
    requires Progress(trie, hash, objects, objects.Keys, trie', objects', a)
    ensures Shows(trie', objects', a)
    ensures if a in objects && !objects[a].deleted && objects[a].suicided
      then Gone(trie', a) && Lookup(trie', objects', a).None?
      else ReadsAs(trie, objects, trie', objects', a)
  {
    if a !in objects {
      SameReads(trie, hash, objects, trie', objects', a);
    }
  }

  /** Commit writes every object, so a new database on the trie shows everything, whatever the journal was. */
  method Commit(db: Statedb) returns (trie: Trie, objects: Objects)
    requires db.Valid() && Digests(db.hash)
    ensures Sound(trie, db.hash, NO_OBJECTS) && Sound(trie, db.hash, objects) && ShowsAll(trie, objects)
    ensures forall a: Address ::
      if a in db.objects && !db.objects[a].deleted && db.objects[a].suicided
      then Gone(trie, a) && Lookup(trie, objects, a).None?
      else ReadsAs(db.trie, db.objects, trie, objects, a)
  {
    assert Opened(db, 0);
    trie, objects := FlushAll(db.trie, db.hash, db.objects, db.objects.Keys);
    forall a: Address
      ensures Shows(trie, objects, a)
      ensures if a in db.objects && !db.objects[a].deleted && db.objects[a].suicided
        then Gone(trie, a) && Lookup(trie, objects, a).None?
        else ReadsAs(db.trie, db.objects, trie, objects, a)
    {
      assert Progress(db.trie, db.hash, db.objects, db.objects.Keys, trie, objects, a);
      CommitAt(db.trie, db.hash, db.objects, trie, objects, a);
    }
  }

  /** Prepare without Hash before it: the payment before Prepare is in the database but not in the trie. */
  method ForgottenByPrepare(hash: Bytes -> Bytes) returns (next: Statedb)
    requires Digests(hash)
    ensures next.Valid() && !Shows(next.trie, next.objects, 1)
    ensures BalanceOf(ViewOf(next.trie, next.objects, 1)) == 5 && BalanceOf(ViewOf(next.trie, NO_OBJECTS, 1)) == 0
  {
    var db := new Statedb(Trie(map[1 := Account(0, 0, [])], map[], map[]), hash);
    assert BalanceOf(ViewOf(db.trie, db.objects, 1)) == 0;
    db.AddBalance(1, 5);
    var _ := db.Prepare();
    assert !Shows(db.trie, db.marks[0].objects, 1);
    assert !Ended(db, 1) && BalanceOf(ViewOf(db.trie, db.objects, 1)) == 5;
    next := Hash(db);
  }
}
