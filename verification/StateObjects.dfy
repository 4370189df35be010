/** Accounts as the state database sees them: cached objects over the account trie (core/state). */
module StateObjects {
  import opened Common

  type Address = nat
  type StorageKey = nat

  datatype Account = Account(nonce: nat, amount: int, codeHash: Bytes)

  type Storage = map<(Address, StorageKey), Bytes>

  /** What the account trie holds, by account. */
  datatype Trie = Trie(accounts: map<Address, Account>, codes: map<Address, Bytes>, storage: Storage)

  /** A nil slice is None in `code` and is not told from an empty one elsewhere. */
  datatype Object = Object(account: Account, dirtyAccount: bool, code: Option<Bytes>, dirtyCode: bool,
                           cached: map<StorageKey, Bytes>, dirty: map<StorageKey, Bytes>,
                           suicided: bool, deleted: bool)

  type Objects = map<Address, Object>

  const NEW_OBJECT := Object(Account(0, 0, []), true, None, false, map[], map[], false, false)

  /** getStateObject: from the cache, or else from the trie. */
  function Lookup(trie: Trie, objects: Objects, a: Address): Option<Object> {
    if a in objects then (if objects[a].deleted then None else Some(objects[a]))
    else if a in trie.accounts then Some(NEW_OBJECT.(account := trie.accounts[a]))
    else None
  }

  function LoadCode(trie: Trie, a: Address, o: Object): Option<Bytes> {
    if o.code.Some? then o.code
    else if o.account.codeHash == [] || a !in trie.codes then None
    else Some(trie.codes[a])
  }

  function CodeOf(trie: Trie, a: Address, o: Object): Bytes {
    var c := LoadCode(trie, a, o);
    if c.None? then [] else c.value
  }

  function StorageAt(storage: Storage, a: Address, k: StorageKey): Bytes {
    if (a, k) in storage then storage[(a, k)] else []
  }

  function GetState(trie: Trie, a: Address, o: Object, k: StorageKey): Bytes {
    if k in o.dirty then o.dirty[k]
    else if k in o.cached then o.cached[k]
    else StorageAt(trie.storage, a, k)
  }

  function SetAmount(o: Object, amount: int): Object {
    if amount >= 0 then o.(account := o.account.(amount := amount), dirtyAccount := true) else o
  }

  function CodeHash(hash: Bytes -> Bytes, code: Bytes): Bytes {
    if code == [] then [] else hash(code)
  }

  function SetNonce(o: Object, nonce: nat): Object {
    o.(account := o.account.(nonce := nonce), dirtyAccount := true)
  }

  function SetCode(hash: Bytes -> Bytes, o: Object, code: Option<Bytes>): Object {
    o.(code := code, account := o.account.(codeHash := if code.None? then [] else CodeHash(hash, code.value)),
       dirtyCode := true, dirtyAccount := true)
  }

  /** What can be read of an account. */
  datatype View = View(nonce: nat, amount: int, code: Bytes, codeHash: Bytes, suicided: bool)

  function ObjectView(trie: Trie, a: Address, o: Object): View {
    View(o.account.nonce, o.account.amount, CodeOf(trie, a, o), o.account.codeHash, o.suicided)
  }

  function ViewOf(trie: Trie, objects: Objects, a: Address): Option<View> {
    var o := Lookup(trie, objects, a);
    if o.None? then None else Some(ObjectView(trie, a, o.value))
  }

  function DataOf(trie: Trie, objects: Objects, a: Address, k: StorageKey): Bytes {
    var o := Lookup(trie, objects, a);
    if o.None? then [] else GetState(trie, a, o.value, k)
  }

  /** Everything that can be read is the same. */
  ghost predicate SameViews(trie: Trie, x: Objects, y: Objects) {
    && (forall a :: ViewOf(trie, x, a) == ViewOf(trie, y, a))
    && (forall a, k :: DataOf(trie, x, a, k) == DataOf(trie, y, a, k))
  }

  /** There is no storage without an account. */
  ghost predicate Housed(trie: Trie) {
    forall a, k :: (a, k) in trie.storage ==> a in trie.accounts
  }

  /** Nothing of the object is waiting to be written. */
  predicate Written(o: Object) {
    !o.dirtyAccount && !o.dirtyCode && o.dirty == map[]
  }

  /** Code hashes are those of the code, and an account that was deleted is not in the trie. */
  ghost predicate Sound(trie: Trie, hash: Bytes -> Bytes, objects: Objects) {
    && Housed(trie)
    && (forall a :: a in objects && objects[a].deleted ==> a !in trie.accounts && Written(objects[a]))
    && (forall a :: Lookup(trie, objects, a).Some? ==> SoundObject(trie, hash, a, Lookup(trie, objects, a).value))
  }

  /** What is not marked dirty is in the trie. */
  ghost predicate Marked(trie: Trie, a: Address, o: Object) {
    && (!o.dirtyAccount ==> a in trie.accounts && trie.accounts[a] == o.account)
    && (if o.code.None? then o.dirtyCode ==> o.account.codeHash == []
        else !o.dirtyCode ==> a in trie.codes && trie.codes[a] == o.code.value)
  }

  ghost predicate SoundObject(trie: Trie, hash: Bytes -> Bytes, a: Address, o: Object) {
    && !o.deleted && o.account.codeHash == CodeHash(hash, CodeOf(trie, a, o)) && Marked(trie, a, o)
    && (forall k :: k in o.cached ==> o.cached[k] == StorageAt(trie.storage, a, k))
  }

  datatype Entry =
    | RefundChange(prevRefund: nat)
    | StorageChange(account: Address, key: StorageKey, prevValue: Bytes)
    | BalanceChange(account: Address, prevAmount: int)
    | CodeChange(account: Address, prevCode: Option<Bytes>)
    | NonceChange(account: Address, prevNonce: nat)
    | SuicideChange(account: Address, prevSuicided: bool, prevBalance: int)
    | CreateObject(account: Address)

  /** What an entry puts back into an existing object. */
  function Restored(hash: Bytes -> Bytes, o: Object, e: Entry): Object {
    match e
    case StorageChange(_, k, prev) => o.(dirty := o.dirty[k := prev])
    case BalanceChange(_, prev) => o.(account := o.account.(amount := prev))
    case CodeChange(_, prev) => SetCode(hash, o, prev)
    case NonceChange(_, prev) => o.(account := o.account.(nonce := prev))
    case SuicideChange(_, prev, amount) => o.(suicided := prev, account := o.account.(amount := amount))
    case _ => o
  }

  /** journalEntry.revert on the accounts; an entry is only reverted while its account is there. */
  function Undo(trie: Trie, hash: Bytes -> Bytes, objects: Objects, e: Entry): Objects {
    if e.RefundChange? then objects
    else if e.CreateObject? then objects - {e.account}
    else
      var o := Lookup(trie, objects, e.account);
      if o.None? then objects else objects[e.account := Restored(hash, o.value, e)]
  }

  /** Reverting the entry marks the account dirty, or leaves it as it is. */
  ghost predicate Noticed(hash: Bytes -> Bytes, o: Object, e: Entry) {
    Restored(hash, o, e).dirtyAccount || Restored(hash, o, e).account == o.account
  }

  /** So it is for every entry, whichever of them are reverted before it. */
  ghost predicate AllNoticed(trie: Trie, hash: Bytes -> Bytes, objects: Objects, entries: seq<Entry>) {
    forall e :: e in entries && !e.RefundChange? && Lookup(trie, objects, e.account).Some? ==>
      Noticed(hash, Lookup(trie, objects, e.account).value, e)
  }

  /** A change that marks the account dirty, or leaves it and its mark alone, keeps that. */
  ghost predicate Marks(o: Object, o': Object) {
    o'.dirtyAccount || (o'.account == o.account && !o.dirtyAccount)
  }

  lemma NoticedAfter(trie: Trie, hash: Bytes -> Bytes, objects: Objects, entries: seq<Entry>, a: Address, o: Object)
    requires AllNoticed(trie, hash, objects, entries)
    requires o.dirtyAccount || (Lookup(trie, objects, a).Some? && Marks(Lookup(trie, objects, a).value, o))
    ensures AllNoticed(trie, hash, objects[a := o], entries)
  {
    var more := objects[a := o];
    forall e | e in entries && !e.RefundChange? && Lookup(trie, more, e.account).Some?
      ensures Noticed(hash, Lookup(trie, more, e.account).value, e)
    {
      if e.account != a || !o.dirtyAccount {
        assert Noticed(hash, Lookup(trie, objects, e.account).value, e);
      }
    }
  }

  /** An entry and its change that keep all of that. */
  ghost predicate Marking(trie: Trie, hash: Bytes -> Bytes, objects: Objects, e: Entry, o: Object)
    requires !e.RefundChange?
  {
    && Noticed(hash, o, e)
    && (o.dirtyAccount || (Lookup(trie, objects, e.account).Some? && Marks(Lookup(trie, objects, e.account).value, o)))
  }

  lemma NoticedWith(trie: Trie, hash: Bytes -> Bytes, objects: Objects, entries: seq<Entry>, e: Entry, o: Object)
    requires AllNoticed(trie, hash, objects, entries) && !e.RefundChange? && Marking(trie, hash, objects, e, o)
    ensures AllNoticed(trie, hash, objects[e.account := o], entries + [e])
  {
    NoticedAfter(trie, hash, objects, entries, e.account, o);
  }

  lemma NoticedUndone(trie: Trie, hash: Bytes -> Bytes, objects: Objects, entries: seq<Entry>, n: nat)
    requires n < |entries| && AllNoticed(trie, hash, objects, entries)
    ensures AllNoticed(trie, hash, Undo(trie, hash, objects, entries[n]), entries[..n])
  {
    var e := entries[n];
    var undone := Undo(trie, hash, objects, e);
    assert AllNoticed(trie, hash, objects, entries[..n]);
    if !e.RefundChange? && Lookup(trie, objects, e.account).Some? {
      var o := Lookup(trie, objects, e.account).value;
      assert e in entries && Noticed(hash, o, e);
      if e.CreateObject? {
        forall d | d in entries[..n] && !d.RefundChange? && Lookup(trie, undone, d.account).Some?
          ensures Noticed(hash, Lookup(trie, undone, d.account).value, d)
        {
          if d.account != e.account {
            assert Lookup(trie, undone, d.account) == Lookup(trie, objects, d.account);
          }
        }
      } else {
        NoticedAfter(trie, hash, objects, entries[..n], e.account, Restored(hash, o, e));
      }
    }
  }

  ghost predicate Undoable(trie: Trie, objects: Objects, e: Entry) {
    e.RefundChange? || Lookup(trie, objects, e.account).Some?
  }

  /** Two objects of one account that read alike. */
  ghost predicate Alike(trie: Trie, a: Address, o: Object, p: Object) {
    ObjectView(trie, a, o) == ObjectView(trie, a, p) && forall k :: GetState(trie, a, o, k) == GetState(trie, a, p, k)
  }

  lemma RestoredAlike(trie: Trie, hash: Bytes -> Bytes, a: Address, o: Object, p: Object, e: Entry)
    requires Alike(trie, a, o, p)
    ensures Alike(trie, a, Restored(hash, o, e), Restored(hash, p, e))
  {
    var o', p' := Restored(hash, o, e), Restored(hash, p, e);
    forall k ensures GetState(trie, a, o', k) == GetState(trie, a, p', k) {
      assert GetState(trie, a, o, k) == GetState(trie, a, p, k);
    }
  }

  /** Databases that read alike hold objects that read alike, account by account. */
  ghost predicate AlikeAt(trie: Trie, x: Objects, y: Objects, a: Address) {
    var o, p := Lookup(trie, x, a), Lookup(trie, y, a);
    if o.None? then p.None? else p.Some? && Alike(trie, a, o.value, p.value)
  }

  lemma AlikeEverywhere(trie: Trie, x: Objects, y: Objects)
    ensures SameViews(trie, x, y) <==> forall a :: AlikeAt(trie, x, y, a)
  {
    if SameViews(trie, x, y) {
      forall a ensures AlikeAt(trie, x, y, a) {
        assert ViewOf(trie, x, a) == ViewOf(trie, y, a);
        if Lookup(trie, x, a).Some? {
          forall k ensures GetState(trie, a, Lookup(trie, x, a).value, k) ==
            GetState(trie, a, Lookup(trie, y, a).value, k) {
            assert DataOf(trie, x, a, k) == DataOf(trie, y, a, k);
          }
        }
      }
    }
    if forall a :: AlikeAt(trie, x, y, a) {
      forall a ensures ViewOf(trie, x, a) == ViewOf(trie, y, a) {
        assert AlikeAt(trie, x, y, a);
      }
      forall a, k ensures DataOf(trie, x, a, k) == DataOf(trie, y, a, k) {
        assert AlikeAt(trie, x, y, a);
      }
    }
  }

  /** Reverting the same entry in two databases that read alike leaves two that read alike. */
  lemma UndoAlike(trie: Trie, hash: Bytes -> Bytes, x: Objects, y: Objects, e: Entry)
    requires SameViews(trie, x, y) && Undoable(trie, x, e)
    ensures SameViews(trie, Undo(trie, hash, x, e), Undo(trie, hash, y, e)) && Undoable(trie, y, e)
  {
    var x', y' := Undo(trie, hash, x, e), Undo(trie, hash, y, e);
    AlikeEverywhere(trie, x, y);
    forall a ensures AlikeAt(trie, x', y', a) {
      UndoAlikeAt(trie, hash, x, y, e, a);
    }
    AlikeEverywhere(trie, x', y');
    UndoAlikeAt(trie, hash, x, y, e, 0);
  }

  lemma UndoAlikeAt(trie: Trie, hash: Bytes -> Bytes, x: Objects, y: Objects, e: Entry, a: Address)
    requires (forall b :: AlikeAt(trie, x, y, b)) && Undoable(trie, x, e)
    ensures AlikeAt(trie, Undo(trie, hash, x, e), Undo(trie, hash, y, e), a) && Undoable(trie, y, e)
  {
    assert AlikeAt(trie, x, y, a);
    if !e.RefundChange? {
      assert AlikeAt(trie, x, y, e.account);
      if a == e.account && !e.CreateObject? {
        RestoredAlike(trie, hash, a, Lookup(trie, x, a).value, Lookup(trie, y, a).value, e);
      }
    }
  }

  /**
    One journaled change: `x` before it, `y` after it. Only the entry's account changes, and reverting the entry makes
    the database read as before.
   */
  ghost predicate Reverts(trie: Trie, hash: Bytes -> Bytes, x: Objects, e: Entry, y: Objects) {
    Undoable(trie, y, e) && SameViews(trie, Undo(trie, hash, y, e), x)
  }

  /** A change of one existing object is reverted by an entry that restores that object. */
  lemma ChangeReverts(trie: Trie, hash: Bytes -> Bytes, x: Objects, e: Entry, o: Object)
    requires !e.RefundChange? && !e.CreateObject? && !o.deleted
    requires Lookup(trie, x, e.account).Some?
    requires Alike(trie, e.account, Restored(hash, o, e), Lookup(trie, x, e.account).value)
    ensures Reverts(trie, hash, x, e, x[e.account := o])
  {
    var y := x[e.account := o];
    forall a ensures AlikeAt(trie, Undo(trie, hash, y, e), x, a) {
    }
    AlikeEverywhere(trie, Undo(trie, hash, y, e), x);
  }

  lemma CreateReverts(trie: Trie, hash: Bytes -> Bytes, x: Objects, a: Address)
    requires Lookup(trie, x, a).None? && Sound(trie, hash, x)
    ensures Reverts(trie, hash, x, CreateObject(a), x[a := NEW_OBJECT])
  {
    var y := x[a := NEW_OBJECT] - {a};
    forall b ensures AlikeAt(trie, y, x, b) {
    }
    AlikeEverywhere(trie, y, x);
  }

  lemma UndoSound(trie: Trie, hash: Bytes -> Bytes, x: Objects, e: Entry)
    requires Sound(trie, hash, map[]) && Sound(trie, hash, x)
    requires !e.RefundChange? && Lookup(trie, x, e.account).Some? ==> Noticed(hash, Lookup(trie, x, e.account).value, e)
    ensures Sound(trie, hash, Undo(trie, hash, x, e))
  {
    var y := Undo(trie, hash, x, e);
    var none: Objects := map[];
    forall a | Lookup(trie, y, a).Some? ensures SoundObject(trie, hash, a, Lookup(trie, y, a).value) {
      if e.RefundChange? || a != e.account {
        assert Lookup(trie, y, a) == Lookup(trie, x, a);
      } else if e.CreateObject? {
        assert Lookup(trie, y, a) == Lookup(trie, none, a);
      } else if Lookup(trie, x, a).Some? {
        RestoredSound(trie, hash, a, Lookup(trie, x, a).value, e);
      }
    }
  }

  lemma RestoredSound(trie: Trie, hash: Bytes -> Bytes, a: Address, o: Object, e: Entry)
    requires SoundObject(trie, hash, a, o) && Noticed(hash, o, e)
    ensures SoundObject(trie, hash, a, Restored(hash, o, e))
  {
  }
}
