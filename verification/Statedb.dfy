/** The state database with its journal: snapshots and reverts (core/state/statedb.go, core/state/journal.go). */
module Statedb {
  import opened Common
  import opened StateObjects

  /** The database as it read when the journal had a given length. */
  datatype Mark = Mark(objects: Objects, refund: nat)

  ghost predicate Step(trie: Trie, hash: Bytes -> Bytes, m: Mark, e: Entry, m': Mark) {
    Reverts(trie, hash, m.objects, e, m'.objects) && m.refund == if e.RefundChange? then e.prevRefund else m'.refund
  }

  /** Each journal entry leads from one mark to the next. */
  ghost predicate Recorded(trie: Trie, hash: Bytes -> Bytes, marks: seq<Mark>, entries: seq<Entry>) {
    |marks| == |entries| + 1 && forall i :: 0 <= i < |entries| ==> Step(trie, hash, marks[i], entries[i], marks[i + 1])
  }

  /** How many entries belong to the account. */
  function Count(entries: seq<Entry>, a: Address): nat {
    if entries == [] then 0
    else
      var e := entries[|entries| - 1];
      Count(entries[..|entries| - 1], a) + if !e.RefundChange? && e.account == a then 1 else 0
  }

  ghost predicate Counted(entries: seq<Entry>, dirties: map<Address, nat>) {
    forall a :: (a in dirties <==> Count(entries, a) > 0) && (a in dirties ==> dirties[a] == Count(entries, a))
  }

  function Raised(dirties: map<Address, nat>, e: Entry): map<Address, nat> {
    if e.RefundChange? then dirties
    else dirties[e.account := if e.account in dirties then dirties[e.account] + 1 else 1]
  }

  function Lowered(dirties: map<Address, nat>, e: Entry): map<Address, nat> {
    if e.RefundChange? || e.account !in dirties then dirties
    else if dirties[e.account] <= 1 then dirties - {e.account}
    else dirties[e.account := dirties[e.account] - 1]
  }

  lemma RaisedCounts(entries: seq<Entry>, dirties: map<Address, nat>, e: Entry)
    requires Counted(entries, dirties)
    ensures Counted(entries + [e], Raised(dirties, e))
  {
    assert (entries + [e])[..|entries|] == entries;
  }

  lemma LoweredCounts(entries: seq<Entry>, dirties: map<Address, nat>)
    requires entries != [] && Counted(entries, dirties)
    ensures Counted(entries[..|entries| - 1], Lowered(dirties, entries[|entries| - 1]))
  {
  }

  lemma SameCounts(entries: seq<Entry>, x: map<Address, nat>, y: map<Address, nat>)
    requires Counted(entries, x) && Counted(entries, y)
    ensures x == y
  {
  }

  /** One account changes to read `v`; its storage and every other account stay as they were. */
  ghost predicate OnlyView(trie: Trie, x: Objects, y: Objects, a: Address, v: Option<View>) {
    && ViewOf(trie, y, a) == v
    && (forall b :: b != a ==> ViewOf(trie, y, b) == ViewOf(trie, x, b))
    && (forall b, k :: DataOf(trie, y, b, k) == DataOf(trie, x, b, k))
  }

  /** One storage value changes. */
  ghost predicate OnlyData(trie: Trie, x: Objects, y: Objects, a: Address, k: StorageKey, value: Bytes) {
    && (forall b :: ViewOf(trie, y, b) == ViewOf(trie, x, b))
    && (forall b: Address, j: StorageKey ::
         DataOf(trie, y, b, j) == if (b, j) == (a, k) then value else DataOf(trie, x, b, j))
  }

  /** One more entry, from the last mark to a new one. */
  lemma RecordedStep(trie: Trie, hash: Bytes -> Bytes, marks: seq<Mark>, entries: seq<Entry>, x: Mark, e: Entry,
                     y: Mark)
    requires Recorded(trie, hash, marks, entries)
    requires SameViews(trie, x.objects, marks[|entries|].objects) && x.refund == marks[|entries|].refund
    requires Step(trie, hash, x, e, y)
    ensures Recorded(trie, hash, marks + [y], entries + [e])
  {
    var marks', entries' := marks + [y], entries + [e];
    forall i | 0 <= i < |entries'| ensures Step(trie, hash, marks'[i], entries'[i], marks'[i + 1]) {
      if i < |entries| {
        assert Step(trie, hash, marks[i], entries[i], marks[i + 1]);
      }
    }
  }

  /** Reverting the last entry leads back to the mark before it. */
  lemma UndoStep(trie: Trie, hash: Bytes -> Bytes, marks: seq<Mark>, entries: seq<Entry>, objects: Objects, refund: nat)
    requires entries != [] && Recorded(trie, hash, marks, entries)
    requires SameViews(trie, objects, marks[|entries|].objects) && refund == marks[|entries|].refund
    ensures var n, e := |entries| - 1, entries[|entries| - 1];
      && Recorded(trie, hash, marks[..n + 1], entries[..n])
      && SameViews(trie, Undo(trie, hash, objects, e), marks[n].objects)
      && (if e.RefundChange? then e.prevRefund else refund) == marks[n].refund
  {
    var n := |entries| - 1;
    var e := entries[n];
    assert Step(trie, hash, marks[n], e, marks[n + 1]);
    UndoAlike(trie, hash, marks[n + 1].objects, objects, e);
    assert forall i :: 0 <= i < n ==> Step(trie, hash, marks[i], entries[i], marks[i + 1]);
  }

  /** The database, its journal and the marks of the journal fit together. */
  ghost predicate Held(trie: Trie, hash: Bytes -> Bytes, marks: seq<Mark>, entries: seq<Entry>,
                       dirties: map<Address, nat>, objects: Objects, refund: nat) {
    && Sound(trie, hash, map[]) && Sound(trie, hash, objects)
    && Recorded(trie, hash, marks, entries)
    && SameViews(trie, objects, marks[|entries|].objects) && refund == marks[|entries|].refund
    && Counted(entries, dirties) && AllNoticed(trie, hash, objects, entries)
  }

  lemma UndoHeld(trie: Trie, hash: Bytes -> Bytes, marks: seq<Mark>, entries: seq<Entry>, dirties: map<Address, nat>,
                 objects: Objects, refund: nat)
    requires entries != [] && Held(trie, hash, marks, entries, dirties, objects, refund)
    ensures var n, e := |entries| - 1, entries[|entries| - 1];
      Held(trie, hash, marks[..n + 1], entries[..n], Lowered(dirties, e), Undo(trie, hash, objects, e),
           if e.RefundChange? then e.prevRefund else refund)
  {
    var n := |entries| - 1;
    UndoStep(trie, hash, marks, entries, objects, refund);
    NoticedUndone(trie, hash, objects, entries, n);
    assert entries[n] in entries;
    UndoSound(trie, hash, objects, entries[n]);
    LoweredCounts(entries, dirties);
  }

  /** An object loaded from the trie reads as the trie. */
  lemma LoadedHeld(trie: Trie, hash: Bytes -> Bytes, marks: seq<Mark>, entries: seq<Entry>, dirties: map<Address, nat>,
                   objects: Objects, refund: nat, a: Address)
    requires Held(trie, hash, marks, entries, dirties, objects, refund)
    requires a !in objects && Lookup(trie, objects, a).Some?
    ensures var more := objects[a := Lookup(trie, objects, a).value];
      && Held(trie, hash, marks, entries, dirties, more, refund) && SameViews(trie, more, objects)
      && Lookup(trie, more, a) == Lookup(trie, objects, a)
  {
    var more := objects[a := Lookup(trie, objects, a).value];
    assert forall b :: Lookup(trie, more, b) == Lookup(trie, objects, b);
  }

  /** A value read from the trie can be kept in the object. */
  lemma FilledSound(trie: Trie, hash: Bytes -> Bytes, a: Address, o: Object, k: StorageKey)
    requires SoundObject(trie, hash, a, o) && k !in o.cached && (a, k) in trie.storage
    ensures var o' := o.(cached := o.cached[k := trie.storage[(a, k)]]);
      SoundObject(trie, hash, a, o') && Alike(trie, a, o', o) && Marks(o, o')
  {
  }

  lemma SoundWith(trie: Trie, hash: Bytes -> Bytes, objects: Objects, a: Address, o: Object)
    requires Sound(trie, hash, objects) && SoundObject(trie, hash, a, o)
    ensures Sound(trie, hash, objects[a := o])
  {
    var more := objects[a := o];
    forall b | Lookup(trie, more, b).Some? ensures SoundObject(trie, hash, b, Lookup(trie, more, b).value) {
      if b != a {
        assert Lookup(trie, more, b) == Lookup(trie, objects, b);
      }
    }
  }

  lemma RefreshAlike(trie: Trie, objects: Objects, a: Address, o: Object)
    requires Lookup(trie, objects, a).Some? && !o.deleted && Alike(trie, a, o, Lookup(trie, objects, a).value)
    ensures SameViews(trie, objects[a := o], objects)
  {
    var y := objects[a := o];
    forall b ensures AlikeAt(trie, y, objects, b) {
    }
    AlikeEverywhere(trie, y, objects);
  }

  lemma ViewChange(trie: Trie, x: Objects, before: Objects, a: Address, o: Object)
    requires Lookup(trie, x, a).Some? && SameViews(trie, x, before) && !o.deleted
    requires forall k :: GetState(trie, a, o, k) == GetState(trie, a, Lookup(trie, x, a).value, k)
    ensures OnlyView(trie, before, x[a := o], a, Some(ObjectView(trie, a, o)))
  {
    var y := x[a := o];
    forall b | b != a ensures ViewOf(trie, y, b) == ViewOf(trie, before, b) {
      assert ViewOf(trie, x, b) == ViewOf(trie, before, b);
    }
    forall b, k ensures DataOf(trie, y, b, k) == DataOf(trie, before, b, k) {
      assert DataOf(trie, x, b, k) == DataOf(trie, before, b, k);
    }
  }

  /** A new account reads empty, and so does its storage. */
  lemma CreateView(trie: Trie, hash: Bytes -> Bytes, x: Objects, a: Address)
    requires Sound(trie, hash, x) && Lookup(trie, x, a).None?
    ensures OnlyView(trie, x, x[a := NEW_OBJECT], a, Some(View(0, 0, [], [], false)))
  {
    var y := x[a := NEW_OBJECT];
    forall b: Address, k: StorageKey ensures DataOf(trie, y, b, k) == DataOf(trie, x, b, k) {
      if b == a {
        assert a !in trie.accounts && (a, k) !in trie.storage;
      }
    }
  }

  lemma DataChange(trie: Trie, x: Objects, before: Objects, a: Address, k: StorageKey, value: Bytes, o: Object)
    requires Lookup(trie, x, a).Some? && SameViews(trie, x, before)
    requires o == Lookup(trie, x, a).value.(dirty := Lookup(trie, x, a).value.dirty[k := value]) && !o.deleted
    ensures OnlyData(trie, before, x[a := o], a, k, value)
  {
    var y := x[a := o];
    forall b ensures ViewOf(trie, y, b) == ViewOf(trie, before, b) {
      assert ViewOf(trie, x, b) == ViewOf(trie, before, b);
    }
    forall b: Address, j: StorageKey
      ensures DataOf(trie, y, b, j) == if (b, j) == (a, k) then value else DataOf(trie, before, b, j) {
      assert DataOf(trie, x, b, j) == DataOf(trie, before, b, j);
    }
  }

  function BalanceOf(v: Option<View>): int {
    if v.Some? then v.value.amount else 0
  }

  function CodeRead(v: Option<View>): Bytes {
    if v.Some? then v.value.code else []
  }

  function NonceOf(v: Option<View>): nat {
    if v.Some? then v.value.nonce else 0
  }

  /** A negative amount is not set. */
  function WithAmount(v: Option<View>, amount: int): Option<View> {
    if v.Some? && amount >= 0 then Some(v.value.(amount := amount)) else v
  }

  function Plus(v: Option<View>, amount: int): Option<View> {
    if v.Some? then WithAmount(v, v.value.amount + amount) else None
  }

  /** The journal has at most grown. */
  ghost predicate Grown(marks: seq<Mark>, marks': seq<Mark>, entries: seq<Entry>, entries': seq<Entry>) {
    marks <= marks' && entries <= entries'
  }

  /** The journal has grown by the one entry that was made, or not at all. */
  ghost predicate Stepped(marks: seq<Mark>, marks': seq<Mark>, entries: seq<Entry>, entries': seq<Entry>, made: bool) {
    Grown(marks, marks', entries, entries') && |marks'| == |marks| + if made then 1 else 0
  }

  /** Everything up to the snapshot `floor` is still there. */
  ghost predicate Since(floor: nat, marks: seq<Mark>, marks': seq<Mark>, entries: seq<Entry>, entries': seq<Entry>) {
    && floor < |marks| && floor < |marks'| && floor <= |entries| && floor <= |entries'|
    && marks'[..floor + 1] == marks[..floor + 1] && entries'[..floor] == entries[..floor]
  }

  /** An operation of a run; Revert goes back to an earlier snapshot. */
  datatype Op =
    | OpSetBalance(a: Address, n: int) | OpAddBalance(a: Address, n: int) | OpSubBalance(a: Address, n: int)
    | OpSetNonce(a: Address, nonce: nat) | OpSetCode(a: Address, code: Bytes) | OpSuicide(a: Address)
    | OpCreate(a: Address)
    | OpSetData(a: Address, k: StorageKey, value: Bytes)
    | OpRead(a: Address) | OpGetData(a: Address, k: StorageKey, committed: bool) | OpGetCode(a: Address)
    | OpAddRefund(gas: nat) | OpSubRefund(gas: nat) | OpRevert(id: nat)

  predicate OnAccount(op: Op) {
    || op.OpSetBalance? || op.OpAddBalance? || op.OpSubBalance? || op.OpSetNonce? || op.OpSetCode? || op.OpSuicide?
    || op.OpCreate?
  }

  /** Whether an operation makes a journal entry. */
  ghost predicate Journals(trie: Trie, op: Op, m: Mark) {
    match op
    case OpCreate(a) => ViewOf(trie, m.objects, a).None?
    case OpSetData(a, k, value) => ViewOf(trie, m.objects, a).Some? && DataOf(trie, m.objects, a, k) != value
    case OpRead(_) => false
    case OpGetData(_, _, _) => false
    case OpGetCode(_) => false
    case OpAddRefund(_) => true
    case OpSubRefund(_) => true
    case OpRevert(_) => false
    case _ => ViewOf(trie, m.objects, op.a).Some?
  }

  /** What the account reads after an operation on it. */
  function ViewAfter(hash: Bytes -> Bytes, op: Op, v: Option<View>): Option<View> {
    match op
    case OpSetBalance(_, n) => WithAmount(v, n)
    case OpAddBalance(_, n) => Plus(v, n)
    case OpSubBalance(_, n) => Plus(v, -n)
    case OpSetNonce(_, nonce) => if v.Some? then Some(v.value.(nonce := nonce)) else None
    case OpSetCode(_, code) => if v.Some? then Some(v.value.(code := code, codeHash := CodeHash(hash, code))) else None
    case OpSuicide(_) => if v.Some? then Some(v.value.(amount := 0, suicided := true)) else None
    case OpCreate(_) => if v.Some? then v else Some(View(0, 0, [], [], false))
    case _ => v
  }

  function RefundAfter(op: Op, refund: nat): nat {
    match op
    case OpAddRefund(gas) => (refund + gas) % TWO_64
    case OpSubRefund(gas) => if gas <= refund then refund - gas else refund
    case _ => refund
  }

  /** What an operation other than a revert does to all that can be read. */
  ghost predicate Does(trie: Trie, hash: Bytes -> Bytes, op: Op, m: Mark, m': Mark) {
    && m'.refund == RefundAfter(op, m.refund)
    && if op.OpSetData? && ViewOf(trie, m.objects, op.a).Some?
       then OnlyData(trie, m.objects, m'.objects, op.a, op.k, op.value)
       else if op.OpAddRefund? || op.OpSubRefund? || op.OpRevert? then SameViews(trie, m'.objects, m.objects)
       else OnlyView(trie, m.objects, m'.objects, op.a, ViewAfter(hash, op, ViewOf(trie, m.objects, op.a)))
  }

  lemma OnlyViewAlike(trie: Trie, x: Objects, y: Objects, x': Objects, y': Objects, a: Address, v: Option<View>)
    requires OnlyView(trie, x, y, a, v) && SameViews(trie, x, x') && SameViews(trie, y, y')
    ensures OnlyView(trie, x', y', a, v)
  {
    forall b | b != a ensures ViewOf(trie, y', b) == ViewOf(trie, x', b) {
      assert ViewOf(trie, y, b) == ViewOf(trie, x, b);
    }
    forall b: Address, k: StorageKey ensures DataOf(trie, y', b, k) == DataOf(trie, x', b, k) {
      assert DataOf(trie, y, b, k) == DataOf(trie, x, b, k);
    }
  }

  lemma OnlyDataAlike(trie: Trie, x: Objects, y: Objects, x': Objects, y': Objects, a: Address, k: StorageKey,
                      value: Bytes)
    requires OnlyData(trie, x, y, a, k, value) && SameViews(trie, x, x') && SameViews(trie, y, y')
    ensures OnlyData(trie, x', y', a, k, value)
  {
    forall b ensures ViewOf(trie, y', b) == ViewOf(trie, x', b) {
      assert ViewOf(trie, y, b) == ViewOf(trie, x, b);
    }
    forall b: Address, j: StorageKey
      ensures DataOf(trie, y', b, j) == if (b, j) == (a, k) then value else DataOf(trie, x', b, j) {
      assert DataOf(trie, y, b, j) == if (b, j) == (a, k) then value else DataOf(trie, x, b, j);
    }
  }

  lemma SameViewsThrough(trie: Trie, x: Objects, y: Objects, x': Objects, y': Objects)
    requires SameViews(trie, y, x) && SameViews(trie, x, x') && SameViews(trie, y, y')
    ensures SameViews(trie, y', x')
  {
    forall b ensures ViewOf(trie, y', b) == ViewOf(trie, x', b) {
      assert ViewOf(trie, y, b) == ViewOf(trie, x, b);
    }
    forall b: Address, k: StorageKey ensures DataOf(trie, y', b, k) == DataOf(trie, x', b, k) {
      assert DataOf(trie, y, b, k) == DataOf(trie, x, b, k);
    }
  }

  /** An operation does the same between states that read alike. */
  lemma DoesAlike(trie: Trie, hash: Bytes -> Bytes, op: Op, m: Mark, m': Mark, n: Mark, n': Mark)
    requires Does(trie, hash, op, m, m') && m.refund == n.refund && m'.refund == n'.refund
    requires SameViews(trie, m.objects, n.objects) && SameViews(trie, m'.objects, n'.objects)
    ensures Does(trie, hash, op, n, n')
  {
    if op.OpAddRefund? || op.OpSubRefund? || op.OpRevert? {
      SameViewsThrough(trie, m.objects, m'.objects, n.objects, n'.objects);
    } else {
      assert ViewOf(trie, m.objects, op.a) == ViewOf(trie, n.objects, op.a);
      if op.OpSetData? && ViewOf(trie, m.objects, op.a).Some? {
        OnlyDataAlike(trie, m.objects, m'.objects, n.objects, n'.objects, op.a, op.k, op.value);
      } else {
        OnlyViewAlike(trie, m.objects, m'.objects, n.objects, n'.objects, op.a,
                      ViewAfter(hash, op, ViewOf(trie, m.objects, op.a)));
      }
    }
  }

  lemma JournalsAlike(trie: Trie, op: Op, m: Mark, n: Mark)
    requires SameViews(trie, m.objects, n.objects) && !op.OpRevert?
    ensures Journals(trie, op, m) <==> Journals(trie, op, n)
  {
    if !op.OpAddRefund? && !op.OpSubRefund? {
      assert ViewOf(trie, m.objects, op.a) == ViewOf(trie, n.objects, op.a);
      if op.OpSetData? {
        assert DataOf(trie, m.objects, op.a, op.k) == DataOf(trie, n.objects, op.a, op.k);
      }
    }
  }

  /** One operation of a run on the states that the journal can go back to; the last one is the present. */
  ghost predicate Moves(trie: Trie, hash: Bytes -> Bytes, floor: nat, op: Op, ms: seq<Mark>, ms': seq<Mark>) {
    && ms != [] && ms' != []
    && if op.OpRevert? then ms' == if floor <= op.id < |ms| then ms[..op.id + 1] else ms
       else
         && ms <= ms' && |ms'| == |ms| + (if Journals(trie, op, ms[|ms| - 1]) then 1 else 0)
         && Does(trie, hash, op, ms[|ms| - 1], ms'[|ms'| - 1])
  }

  /** All operations of a run, one after the other. */
  ghost predicate Performed(trie: Trie, hash: Bytes -> Bytes, floor: nat, ops: seq<Op>, history: seq<seq<Mark>>) {
    && |history| == |ops| + 1
    && forall i :: 0 <= i < |ops| ==> Moves(trie, hash, floor, ops[i], history[i], history[i + 1])
  }

  predicate SetsNonce(op: Op, a: Address) {
    op.OpSetNonce? && op.a == a
  }

  /** The nonce of `a` is `n` at the snapshot `floor` and in every state that a run from there can still revert to. */
  ghost predicate NonceHeld(trie: Trie, marks: seq<Mark>, floor: nat, a: Address, n: nat) {
    forall i :: floor <= i < |marks| ==> NonceOf(ViewOf(trie, marks[i].objects, a)) == n
  }

  lemma DoesKeepNonce(trie: Trie, hash: Bytes -> Bytes, op: Op, m: Mark, m': Mark, a: Address)
    requires Does(trie, hash, op, m, m') && !SetsNonce(op, a)
    ensures NonceOf(ViewOf(trie, m'.objects, a)) == NonceOf(ViewOf(trie, m.objects, a))
  {
  }

  lemma MoveKeepsNonce(trie: Trie, hash: Bytes -> Bytes, floor: nat, op: Op, ms: seq<Mark>, ms': seq<Mark>, a: Address,
                       n: nat)
    requires Moves(trie, hash, floor, op, ms, ms') && |ms| > floor && NonceHeld(trie, ms, floor, a, n)
    requires !SetsNonce(op, a)
    ensures |ms'| > floor && NonceHeld(trie, ms', floor, a, n)
  {
    if !op.OpRevert? {
      DoesKeepNonce(trie, hash, op, ms[|ms| - 1], ms'[|ms'| - 1], a);
      forall i | floor <= i < |ms'| ensures NonceOf(ViewOf(trie, ms'[i].objects, a)) == n {
        assert i < |ms| ==> ms'[i] == ms[i];
      }
    }
  }

  /** A run that does not set the nonce of `a` keeps it, through all reverts; one that is not there has the nonce 0. */
  lemma {:induction false} NonceKept(trie: Trie, hash: Bytes -> Bytes, floor: nat, ops: seq<Op>,
                                     history: seq<seq<Mark>>, a: Address, n: nat, i: nat)
    requires Performed(trie, hash, floor, ops, history) && i <= |ops| && |history[0]| > floor
    requires NonceHeld(trie, history[0], floor, a, n) && forall op :: op in ops ==> !SetsNonce(op, a)
    ensures |history[i]| > floor && NonceHeld(trie, history[i], floor, a, n)
  {
    if i > 0 {
      NonceKept(trie, hash, floor, ops, history, a, n, i - 1);
      MoveKeepsNonce(trie, hash, floor, ops[i - 1], history[i - 1], history[i], a, n);
    }
  }

  /** Whether an operation can take from the balance of `a`. */
  predicate Lowers(op: Op, a: Address) {
    && OnAccount(op) && op.a == a
    && (op.OpSetBalance? || op.OpSuicide? || (op.OpAddBalance? && op.n < 0) || (op.OpSubBalance? && op.n > 0))
  }

  /** The balance of `a` is at least `n` at the snapshot `floor` and in every state that can still be reverted to. */
  ghost predicate BalanceHeld(trie: Trie, marks: seq<Mark>, floor: nat, a: Address, n: int) {
    forall i :: floor <= i < |marks| ==> BalanceOf(ViewOf(trie, marks[i].objects, a)) >= n
  }

  lemma DoesKeepBalance(trie: Trie, hash: Bytes -> Bytes, op: Op, m: Mark, m': Mark, a: Address)
    requires Does(trie, hash, op, m, m') && !Lowers(op, a)
    ensures BalanceOf(ViewOf(trie, m'.objects, a)) >= BalanceOf(ViewOf(trie, m.objects, a))
  {
  }

  lemma MoveKeepsBalance(trie: Trie, hash: Bytes -> Bytes, floor: nat, op: Op, ms: seq<Mark>, ms': seq<Mark>,
                         a: Address, n: int)
    requires Moves(trie, hash, floor, op, ms, ms') && |ms| > floor && BalanceHeld(trie, ms, floor, a, n)
    requires !Lowers(op, a)
    ensures |ms'| > floor && BalanceHeld(trie, ms', floor, a, n)
  {
    if !op.OpRevert? {
      DoesKeepBalance(trie, hash, op, ms[|ms| - 1], ms'[|ms'| - 1], a);
      forall i | floor <= i < |ms'| ensures BalanceOf(ViewOf(trie, ms'[i].objects, a)) >= n {
        assert i < |ms| ==> ms'[i] == ms[i];
      }
    }
  }

  /** A run that takes nothing from `a` leaves it at least its balance, through all reverts. */
  lemma {:induction false} BalanceKept(trie: Trie, hash: Bytes -> Bytes, floor: nat, ops: seq<Op>,
                                       history: seq<seq<Mark>>, a: Address, n: int, i: nat)
    requires Performed(trie, hash, floor, ops, history) && i <= |ops| && |history[0]| > floor
    requires BalanceHeld(trie, history[0], floor, a, n) && forall op :: op in ops ==> !Lowers(op, a)
    ensures |history[i]| > floor && BalanceHeld(trie, history[i], floor, a, n)
  {
    if i > 0 {
      BalanceKept(trie, hash, floor, ops, history, a, n, i - 1);
      MoveKeepsBalance(trie, hash, floor, ops[i - 1], history[i - 1], history[i], a, n);
    }
  }

  /** A value that a transaction has not changed, as GetCommittedData reads it. */
  function Committed(trie: Trie, objects: Objects, a: Address, k: StorageKey): Bytes {
    if Lookup(trie, objects, a).Some? then StorageAt(trie.storage, a, k) else []
  }

  class Statedb {
    const trie: Trie
    const hash: Bytes -> Bytes
    var objects: Objects
    var refund: nat
    var entries: seq<Entry>
    var dirties: map<Address, nat>
    ghost var marks: seq<Mark>

    /** Opened where Opened is mentioned. */
    ghost predicate Valid()
      reads this
    {
      |marks| == |entries| + 1 && forall k: nat {:trigger Opened(this, k)} :: Opened(this, k) ==> Intact()
    }

    ghost predicate Intact()
      reads this
    {
      Held(trie, hash, marks, entries, dirties, objects, refund)
    }

    constructor (trie: Trie, hash: Bytes -> Bytes)
      requires Sound(trie, hash, map[])
      ensures Valid() && this.trie == trie && this.hash == hash && objects == map[] && entries == [] && refund == 0
    {
      this.trie, this.hash := trie, hash;
      objects, refund, entries, dirties := map[], 0, [], map[];
      marks := [Mark(map[], 0)];
    }

    /** The database with an empty journal over objects and a trie that fit together. */
    constructor Resume(trie: Trie, hash: Bytes -> Bytes, objects: Objects)
      requires Sound(trie, hash, map[]) && Sound(trie, hash, objects)
      ensures Valid() && this.trie == trie && this.hash == hash && this.objects == objects
      ensures entries == [] && refund == 0
      ensures marks == [Mark(objects, 0)] && dirties == map[]
    {
      AlikeEverywhere(trie, objects, objects);
      this.trie, this.hash := trie, hash;
      this.objects, refund, entries, dirties := objects, 0, [], map[];
      marks := [Mark(objects, 0)];
    }

    /** getStateObject; an object loaded from the trie stays in the cache. */
    method GetStateObject(a: Address) returns (o: Option<Object>)
      requires Valid()
      modifies this`objects
      ensures Valid() && SameViews(trie, objects, old(objects))
      ensures o == Lookup(trie, objects, a) == Lookup(trie, old(objects), a)
      ensures o.Some? ==> SoundObject(trie, hash, a, o.value)
      ensures objects == if o.Some? then old(objects)[a := o.value] else old(objects)
    {
      assert Opened(this, 0);
      o := Lookup(trie, objects, a);
      if o.Some? && a !in objects {
        LoadedHeld(trie, hash, marks, entries, dirties, objects, refund, a);
        objects := objects[a := o.value];
      }
    }

    /** An object that reads as before takes the place of the one in the cache. */
    method Refresh(a: Address, o: Object)
      requires Valid() && SoundObject(trie, hash, a, o)
      requires Lookup(trie, objects, a).Some? && Alike(trie, a, o, Lookup(trie, objects, a).value)
      requires Marks(Lookup(trie, objects, a).value, o)
      modifies this`objects
      ensures Valid() && SameViews(trie, objects, old(objects)) && Lookup(trie, objects, a) == Some(o)
    {
      assert Opened(this, 0);
      NoticedAfter(trie, hash, objects, entries, a, o);
      SoundWith(trie, hash, objects, a, o);
      RefreshAlike(trie, objects, a, o);
      objects := objects[a := o];
    }

    /** getState: a value found in the trie stays in the object. */
    method LoadState(a: Address, o: Object, k: StorageKey, committed: bool) returns (o': Object, value: Bytes)
      requires Valid() && Lookup(trie, objects, a) == Some(o) && SoundObject(trie, hash, a, o)
      modifies this`objects
      ensures Valid() && SameViews(trie, objects, old(objects)) && Lookup(trie, objects, a) == Some(o')
      ensures SoundObject(trie, hash, a, o')
      ensures value == if committed then Committed(trie, objects, a, k) else GetState(trie, a, o, k)
      ensures Alike(trie, a, o', o) && o' == o.(cached := o'.cached)
      ensures (a, k) in trie.storage && (committed || k !in o.dirty) ==> k in o'.cached
    {
      o' := o;
      if !committed && k in o.dirty {
        return o, o.dirty[k];
      }
      if k in o.cached {
        return o, o.cached[k];
      }
      if (a, k) !in trie.storage {
        return o, [];
      }
      value := trie.storage[(a, k)];
      o' := o.(cached := o.cached[k := value]);
      FilledSound(trie, hash, a, o, k);
      Refresh(a, o');
    }

    /** loadCode: code found in the trie stays in the object. */
    method LoadCodeOf(a: Address, o: Object) returns (o': Object, code: Option<Bytes>)
      requires Valid() && Lookup(trie, objects, a) == Some(o) && SoundObject(trie, hash, a, o)
      modifies this`objects
      ensures Valid() && SameViews(trie, objects, old(objects)) && Lookup(trie, objects, a) == Some(o')
      ensures SoundObject(trie, hash, a, o')
      ensures code == LoadCode(trie, a, o) && Alike(trie, a, o', o) && o'.code == code
    {
      code := LoadCode(trie, a, o);
      o' := o;
      if o.code.None? && code.Some? {
        o' := o.(code := code);
        Refresh(a, o');
      }
    }

    /** GetData, and GetCommittedData, which leaves out what the transaction has changed. */
    method GetData(a: Address, k: StorageKey, committed: bool) returns (value: Bytes)
      requires Valid()
      modifies this`objects
      ensures Valid() && SameViews(trie, objects, old(objects))
      ensures value == if committed then Committed(trie, old(objects), a, k) else DataOf(trie, old(objects), a, k)
    {
      var o := GetStateObject(a);
      value := [];
      if o.Some? {
        var _, v := LoadState(a, o.value, k, committed);
        value := v;
      }
    }

    method GetCode(a: Address) returns (code: Bytes)
      requires Valid()
      modifies this`objects
      ensures Valid() && SameViews(trie, objects, old(objects))
      ensures code == CodeRead(ViewOf(trie, old(objects), a))
    {
      var o := GetStateObject(a);
      code := [];
      if o.Some? {
        var _, c := LoadCodeOf(a, o.value);
        code := if c.None? then [] else c.value;
      }
    }

    /** Append a journal entry and make its change: the object `o` for its account. */
    method Change(e: Entry, o: Object)
      requires Valid() && !e.RefundChange? && SoundObject(trie, hash, e.account, o)
      requires Marking(trie, hash, objects, e, o)
      requires Reverts(trie, hash, objects, e, objects[e.account := o])
      modifies this
      ensures Valid() && objects == old(objects)[e.account := o] && refund == old(refund)
      ensures entries == old(entries) + [e] && marks == old(marks) + [Mark(objects, refund)]
    {
      assert Opened(this, 0);
      RecordedStep(trie, hash, marks, entries, Mark(objects, refund), e, Mark(objects[e.account := o], refund));
      RaisedCounts(entries, dirties, e);
      SoundWith(trie, hash, objects, e.account, o);
      NoticedWith(trie, hash, objects, entries, e, o);
      entries := entries + [e];
      dirties := Raised(dirties, e);
      objects := objects[e.account := o];
      marks := marks + [Mark(objects, refund)];
    }

    /** As Change, for a change that leaves the storage alone; `before` reads like the database did. */
    method ChangeView(e: Entry, o: Object, ghost before: Objects)
      requires Valid() && !e.RefundChange? && !e.CreateObject? && SoundObject(trie, hash, e.account, o)
      requires Lookup(trie, objects, e.account).Some? && SameViews(trie, objects, before)
      requires Alike(trie, e.account, Restored(hash, o, e), Lookup(trie, objects, e.account).value)
      requires Marking(trie, hash, objects, e, o)
      requires forall k ::
        GetState(trie, e.account, o, k) == GetState(trie, e.account, Lookup(trie, objects, e.account).value, k)
      modifies this
      ensures Valid() && Stepped(old(marks), marks, old(entries), entries, true) && refund == old(refund)
      ensures OnlyView(trie, before, objects, e.account, Some(ObjectView(trie, e.account, o)))
    {
      ChangeReverts(trie, hash, objects, e, o);
      ViewChange(trie, objects, before, e.account, o);
      Change(e, o);
    }

    /** setAmount on a present object, journaled. */
    method PutAmount(a: Address, o: Object, amount: int, ghost before: Objects)
      requires Valid() && Lookup(trie, objects, a) == Some(o) && SoundObject(trie, hash, a, o)
      requires SameViews(trie, objects, before)
      modifies this
      ensures Valid() && Stepped(old(marks), marks, old(entries), entries, true) && refund == old(refund)
      ensures OnlyView(trie, before, objects, a, WithAmount(ViewOf(trie, before, a), amount))
    {
      ChangeView(BalanceChange(a, o.account.amount), SetAmount(o, amount), before);
    }

    method SetBalance(a: Address, amount: int)
      requires Valid()
      modifies this
      ensures Valid() && refund == old(refund)
      ensures Stepped(old(marks), marks, old(entries), entries, ViewOf(trie, old(objects), a).Some?)
      ensures OnlyView(trie, old(objects), objects, a, WithAmount(ViewOf(trie, old(objects), a), amount))
    {
      var o := GetStateObject(a);
      if o.Some? {
        PutAmount(a, o.value, amount, old(objects));
      }
    }

    method AddBalance(a: Address, amount: int)
      requires Valid()
      modifies this
      ensures Valid() && refund == old(refund)
      ensures Stepped(old(marks), marks, old(entries), entries, ViewOf(trie, old(objects), a).Some?)
      ensures OnlyView(trie, old(objects), objects, a, Plus(ViewOf(trie, old(objects), a), amount))
    {
      var o := GetStateObject(a);
      if o.Some? {
        PutAmount(a, o.value, o.value.account.amount + amount, old(objects));
      }
    }

    /** SubBalance: an amount above the balance is silently not subtracted. */
    method SubBalance(a: Address, amount: int)
      requires Valid()
      modifies this
      ensures Valid() && refund == old(refund)
      ensures Stepped(old(marks), marks, old(entries), entries, ViewOf(trie, old(objects), a).Some?)
      ensures OnlyView(trie, old(objects), objects, a, Plus(ViewOf(trie, old(objects), a), -amount))
    {
      var o := GetStateObject(a);
      if o.Some? {
        PutAmount(a, o.value, o.value.account.amount - amount, old(objects));
      }
    }

    method SetNonce(a: Address, nonce: nat)
      requires Valid()
      modifies this
      ensures Valid() && refund == old(refund)
      ensures Stepped(old(marks), marks, old(entries), entries, ViewOf(trie, old(objects), a).Some?)
      ensures var v := ViewOf(trie, old(objects), a);
        OnlyView(trie, old(objects), objects, a, if v.Some? then Some(v.value.(nonce := nonce)) else None)
    {
      var o := GetStateObject(a);
      if o.Some? {
        ChangeView(NonceChange(a, o.value.account.nonce), StateObjects.SetNonce(o.value, nonce),
                   old(objects));
      }
    }

    method SetCode(a: Address, code: Bytes)
      requires Valid()
      modifies this
      ensures Valid() && refund == old(refund)
      ensures Stepped(old(marks), marks, old(entries), entries, ViewOf(trie, old(objects), a).Some?)
      ensures var v := ViewOf(trie, old(objects), a);
        OnlyView(trie, old(objects), objects, a,
                 if v.Some? then Some(v.value.(code := code, codeHash := CodeHash(hash, code))) else None)
    {
      var o := GetStateObject(a);
      if o.Some? {
        var loaded, prev := LoadCodeOf(a, o.value);
        ChangeView(CodeChange(a, prev), StateObjects.SetCode(hash, loaded, Some(code)), old(objects));
      }
    }

    method Suicide(a: Address) returns (existed: bool)
      requires Valid()
      modifies this
      ensures Valid() && refund == old(refund)
      ensures Stepped(old(marks), marks, old(entries), entries, ViewOf(trie, old(objects), a).Some?)
      ensures var v := ViewOf(trie, old(objects), a);
        existed == v.Some? &&
        OnlyView(trie, old(objects), objects, a,
                 if v.Some? then Some(v.value.(amount := 0, suicided := true)) else None)
    {
      var o := GetStateObject(a);
      existed := o.Some?;
      if existed {
        ChangeView(SuicideChange(a, o.value.suicided, o.value.account.amount),
          SetAmount(o.value, 0).(suicided := true), old(objects));
      }
    }

    method CreateAccount(a: Address)
      requires Valid()
      modifies this
      ensures Valid() && refund == old(refund)
      ensures Stepped(old(marks), marks, old(entries), entries, ViewOf(trie, old(objects), a).None?)
      ensures if ViewOf(trie, old(objects), a).Some? then SameViews(trie, objects, old(objects))
        else OnlyView(trie, old(objects), objects, a, Some(View(0, 0, [], [], false)))
    {
      var o := GetStateObject(a);
      if o.None? {
        assert Opened(this, 0);
        CreateReverts(trie, hash, objects, a);
        CreateView(trie, hash, objects, a);
        Change(CreateObject(a), NEW_OBJECT);
      }
    }

    /** setState on a present object, journaled. */
    method PutData(a: Address, o: Object, k: StorageKey, prev: Bytes, value: Bytes, ghost before: Objects)
      requires Valid() && Lookup(trie, objects, a) == Some(o) && SoundObject(trie, hash, a, o)
      requires SameViews(trie, objects, before) && prev == GetState(trie, a, o, k)
      modifies this
      ensures Valid() && Stepped(old(marks), marks, old(entries), entries, true) && refund == old(refund)
      ensures OnlyData(trie, before, objects, a, k, value)
    {
      var o' := o.(dirty := o.dirty[k := value]);
      var e := StorageChange(a, k, prev);
      ChangeReverts(trie, hash, objects, e, o');
      DataChange(trie, objects, before, a, k, value, o');
      Change(e, o');
    }

    /** SetData; a value that is already there is not journaled. */
    method SetData(a: Address, k: StorageKey, value: Bytes)
      requires Valid()
      modifies this
      ensures Valid() && refund == old(refund)
      ensures Stepped(old(marks), marks, old(entries), entries,
                      ViewOf(trie, old(objects), a).Some? && DataOf(trie, old(objects), a, k) != value)
      ensures if ViewOf(trie, old(objects), a).Some? then OnlyData(trie, old(objects), objects, a, k, value)
        else SameViews(trie, objects, old(objects))
    {
      var o := GetStateObject(a);
      if o.Some? {
        var loaded, prev := LoadState(a, o.value, k, false);
        if prev != value {
          PutData(a, loaded, k, prev, value, old(objects));
        }
      }
    }

    method ChangeRefund(next: nat)
      requires Valid()
      modifies this
      ensures Valid() && Stepped(old(marks), marks, old(entries), entries, true)
      ensures objects == old(objects) && refund == next
    {
      assert Opened(this, 0);
      var e := RefundChange(refund);
      AlikeEverywhere(trie, objects, objects);
      RecordedStep(trie, hash, marks, entries, Mark(objects, refund), e, Mark(objects, next));
      RaisedCounts(entries, dirties, e);
      entries := entries + [e];
      dirties := Raised(dirties, e);
      refund := next;
      marks := marks + [Mark(objects, next)];
    }

    method AddRefund(gas: nat)
      requires Valid()
      modifies this
      ensures Valid() && Stepped(old(marks), marks, old(entries), entries, true) && objects == old(objects)
      ensures refund == (old(refund) + gas) % TWO_64
    {
      ChangeRefund((refund + gas) % TWO_64);
    }

    /** SubRefund; the program stops (`ok` is false) when the counter would go below zero, after the entry is made. */
    method SubRefund(gas: nat) returns (ok: bool)
      requires Valid()
      modifies this
      ensures Valid() && Stepped(old(marks), marks, old(entries), entries, true) && objects == old(objects)
      ensures ok == (gas <= old(refund)) && refund == if ok then old(refund) - gas else old(refund)
    {
      ok := gas <= refund;
      ChangeRefund(if ok then refund - gas else refund);
    }

    method GetBalance(a: Address) returns (n: int)
      requires Valid()
      modifies this`objects
      ensures Valid() && SameViews(trie, objects, old(objects)) && n == BalanceOf(ViewOf(trie, old(objects), a))
    {
      var o := GetStateObject(a);
      n := if o.Some? then o.value.account.amount else 0;
    }

    method GetNonce(a: Address) returns (n: nat)
      requires Valid()
      modifies this`objects
      ensures Valid() && SameViews(trie, objects, old(objects)) && n == NonceOf(ViewOf(trie, old(objects), a))
    {
      var o := GetStateObject(a);
      n := if o.Some? then o.value.account.nonce else 0;
    }

    /** Prepare: a new transaction starts with an empty journal and no refund. */
    method Prepare() returns (id: nat)
      requires Valid()
      modifies this
      ensures Valid() && objects == old(objects) && refund == 0 && entries == [] && id == 0
      ensures marks == [Mark(objects, 0)] && dirties == map[]
    {
      AlikeEverywhere(trie, objects, objects);
      refund, entries, dirties := 0, [], map[];
      marks := [Mark(objects, 0)];
      id := 0;
    }

    function Snapshot(): (id: nat)
      requires Valid()
      reads this
      ensures id < |marks| && SameViews(trie, objects, marks[id].objects) && refund == marks[id].refund
    {
      assert Opened(this, 0);
      |entries|
    }

    /** One round of journal.revert. */
    method UndoLast()
      requires Valid() && entries != []
      modifies this
      ensures Valid() && entries == old(entries)[..|old(entries)| - 1] && marks == old(marks)[..|old(entries)|]
    {
      assert Opened(this, 0);
      var n := |entries| - 1;
      var e := entries[n];
      UndoHeld(trie, hash, marks, entries, dirties, objects, refund);
      objects := Undo(trie, hash, objects, e);
      if e.RefundChange? {
        refund := e.prevRefund;
      }
      dirties := Lowered(dirties, e);
      entries := entries[..n];
      marks := marks[..n + 1];
    }

    /** RevertToSnapshot: the database reads as it did when the snapshot was taken. */
    method RevertToSnapshot(id: nat)
      requires Valid() && id <= |entries|
      modifies this
      ensures Valid() && entries == old(entries)[..id] && marks == old(marks)[..id + 1]
      ensures SameViews(trie, objects, old(marks)[id].objects) && refund == old(marks)[id].refund
    {
      assert Opened(this, 0);
      while |entries| > id
        invariant Valid() && id <= |entries| <= |old(entries)|
        invariant entries == old(entries)[..|entries|] && marks == old(marks)[..|entries| + 1]
        decreases |entries|
      {
        UndoLast();
      }
    }

    /** An operation on the account itself. */
    method PerformView(op: Op)
      requires Valid() && OnAccount(op)
      modifies this
      ensures Valid() && Does(trie, hash, op, Mark(old(objects), old(refund)), Mark(objects, refund))
      ensures Stepped(old(marks), marks, old(entries), entries, Journals(trie, op, Mark(old(objects), old(refund))))
    {
      match op
      case OpSetBalance(a, n) => SetBalance(a, n);
      case OpAddBalance(a, n) => AddBalance(a, n);
      case OpSubBalance(a, n) => SubBalance(a, n);
      case OpSetNonce(a, n) => SetNonce(a, n);
      case OpSetCode(a, code) => SetCode(a, code);
      case OpSuicide(a) => var _ := Suicide(a);
      case OpCreate(a) => CreateAccount(a);
    }

    /** One operation of a run other than a revert. */
    method Perform(op: Op)
      requires Valid() && !op.OpRevert?
      modifies this
      ensures Valid() && Does(trie, hash, op, Mark(old(objects), old(refund)), Mark(objects, refund))
      ensures Stepped(old(marks), marks, old(entries), entries, Journals(trie, op, Mark(old(objects), old(refund))))
    {
      if OnAccount(op) {
        PerformView(op);
        return;
      }
      match op
      case OpSetData(a, k, value) => SetData(a, k, value);
      case OpRead(a) => var _ := GetStateObject(a);
      case OpGetData(a, k, committed) => var _ := GetData(a, k, committed);
      case OpGetCode(a) => var _ := GetCode(a);
      case OpAddRefund(gas) => AddRefund(gas);
      case OpSubRefund(gas) => var _ := SubRefund(gas);
    }

    /** The last mark reads as the database. */
    lemma LastMark()
      requires Valid()
      ensures |marks| == |entries| + 1 && SameViews(trie, objects, marks[|entries|].objects)
      ensures refund == marks[|entries|].refund
    {
      assert Opened(this, 0);
    }

    /** As Perform, between the last marks. */
    method PerformMarked(op: Op, ghost floor: nat)
      requires Valid() && !op.OpRevert?
      modifies this
      ensures Valid() && Grown(old(marks), marks, old(entries), entries)
      ensures Moves(trie, hash, floor, op, old(marks), marks)
    {
      ghost var m := Mark(objects, refund);
      LastMark();
      ghost var n := marks[|entries|];
      Perform(op);
      LastMark();
      DoesAlike(trie, hash, op, m, Mark(objects, refund), n, marks[|entries|]);
      JournalsAlike(trie, op, m, n);
    }

    /** One operation of a run that started at the snapshot `floor` and does not revert below it. */
    method Exec(op: Op, floor: nat)
      requires Valid() && floor <= |entries|
      modifies this
      ensures Valid() && Since(floor, old(marks), marks, old(entries), entries)
      ensures Moves(trie, hash, floor, op, old(marks), marks)
    {
      if !op.OpRevert? {
        PerformMarked(op, floor);
      } else if floor <= op.id <= |entries| {
        RevertToSnapshot(op.id);
      }
    }

    /** The last mark reads as the database. */
    lemma LastNonce(who: Address)
      requires Valid()
      ensures NonceOf(ViewOf(trie, marks[|entries|].objects, who)) == NonceOf(ViewOf(trie, objects, who))
    {
      assert Opened(this, 0);
    }

    /** A run of operations; the states that its journal could go back to follow from them one by one. */
    method Run(ops: seq<Op>, floor: nat) returns (ghost history: seq<seq<Mark>>)
      requires Valid() && floor <= |entries|
      modifies this
      ensures Valid() && Since(floor, old(marks), marks, old(entries), entries)
      ensures Performed(trie, hash, floor, ops, history) && history[0] == old(marks) && history[|ops|] == marks
    {
      history := [marks];
      for i := 0 to |ops|
        invariant |history| == i + 1 && history[0] == old(marks) && history[i] == marks
        invariant forall j :: 0 <= j < i ==> Moves(trie, hash, floor, ops[j], history[j], history[j + 1])
        invariant Valid() && Since(floor, old(marks), marks, old(entries), entries)
      {
        Exec(ops[i], floor);
        history := history + [marks];
      }
    }

    /** Any nested run, reverted: everything reads as before, and the dirty counts are as before. */
    method RunAndRevert(ops: seq<Op>)
      requires Valid()
      modifies this
      ensures Valid() && SameViews(trie, objects, old(objects)) && refund == old(refund)
      ensures entries == old(entries) && dirties == old(dirties)
    {
      assert Opened(this, 0);
      var id := Snapshot();
      ghost var _ := Run(ops, id);
      RevertToSnapshot(id);
      assert entries == old(entries)[..id] == old(entries);
      SameCounts(entries, dirties, old(dirties));
    }
  }
}
