/** Tries built by Put alone have one shape per map, so their root does not depend on the order of the Puts. */
module TrieCanonical {
  import opened Common
  import opened TrieKeys
  import opened TrieTree

  /** Extensions end in branches and branches fork. */
  predicate Canonical(t: Tree) {
    match t
    case Nil => true
    case Leaf(_, _) => true
    case Ext(_, n) => n.Branch? && Canonical(n)
    case Branch(c) => Count(c) >= 2 && forall i :: 0 <= i < |c| ==> Canonical(c[i])
  }

  /** Two tries answer every key of the right kind alike. */
  ghost predicate SameMap(a: Tree, b: Tree, done: bool) {
    forall key: Key {:trigger Lookup(a, key)} {:trigger Lookup(b, key)} ::
      KeyRest(key) && (key == [] <==> done) ==> Lookup(a, key) == Lookup(b, key)
  }

  lemma {:induction false} CountSet(c: seq<Tree>, i: nat, t: Tree)
    requires i < |c| && !t.Nil?
    ensures Count(c[i := t]) == Count(c) + if c[i].Nil? then 1 else 0
  {
    var last := |c| - 1;
    if i == last {
      assert c[i := t][..last] == c[..last];
    } else {
      assert c[i := t][..last] == c[..last][i := t];
      CountSet(c[..last], i, t);
    }
  }

  lemma SplitCanonical(i: Byte, moved: Tree, key: Key, m: nat, value: Bytes)
    requires m < |key| && i < BRANCH_WIDTH && key[m] < BRANCH_WIDTH && i != key[m]
    requires Canonical(moved) && !moved.Nil?
    ensures Canonical(Split(i, moved, key, m, value))
  {
    var none := seq(BRANCH_WIDTH, j => Nil);
    CountSet(none, i, moved);
    CountSet(none[i := moved], key[m], Leaf(key[m + 1..], value));
    assert Canonical(SetChild(Fork(i, moved), key[m], Leaf(key[m + 1..], value)));
  }

  lemma LeafInsertCanonical(k: Key, v: Bytes, key: Key, value: Bytes)
    requires Fits(Leaf(k, v), key)
    ensures Canonical(Insert(Leaf(k, v), key, value))
  {
    var m := MatchLen(k, key);
    RestsDiverge(k, key);
    if m < |k| {
      SplitCanonical(k[m], Leaf(k[m + 1..], v), key, m, value);
    }
  }

  lemma ExtSplitCanonical(k: Key, n: Tree, key: Key, value: Bytes)
    requires Fits(Ext(k, n), key) && Canonical(Ext(k, n)) && !(k <= key)
    ensures Canonical(Insert(Ext(k, n), key, value))
  {
    var m := MatchLen(k, key);
    NibblesDiverge(k, key);
    assert Canonical(Shorten(k, n, m + 1));
    SplitCanonical(k[m], Shorten(k, n, m + 1), key, m, value);
  }

  lemma {:induction false} InsertCanonical(t: Tree, key: Key, value: Bytes)
    requires Fits(t, key) && Canonical(t)
    ensures Canonical(Insert(t, key, value))
    ensures t.Branch? ==> Insert(t, key, value).Branch?
    decreases t
  {
    match t
    case Nil =>
    case Leaf(k, v) => LeafInsertCanonical(k, v, key, value);
    case Ext(k, n) =>
      NibblesDiverge(k, key);
      if k <= key {
        InsertCanonical(n, key[|k|..], value);
      } else {
        ExtSplitCanonical(k, n, key, value);
      }
    case Branch(c) =>
      SlotFits(c, key);
      InsertCanonical(c[key[0]], key[1..], value);
      InsertWellFormed(c[key[0]], key[1..], value);
      SlotCanonical(c, key[0], Insert(c[key[0]], key[1..], value));
  }

  lemma SlotCanonical(c: seq<Tree>, i: nat, t: Tree)
    requires Canonical(Branch(c)) && i < |c| && Canonical(t) && !t.Nil?
    ensures Canonical(Branch(c[i := t]))
  {
    CountSet(c, i, t);
  }

  /** Two different occupied slots of a forking branch. */
  lemma {:induction false} TwoSlots(c: seq<Tree>) returns (i: nat, j: nat)
    requires Count(c) >= 2
    ensures i < j < |c| && !c[i].Nil? && !c[j].Nil?
  {
    var front := c[..|c| - 1];
    if c[|c| - 1].Nil? {
      i, j := TwoSlots(front);
    } else {
      j := |c| - 1;
      i := Last(front);
    }
  }

  /** Every part that is not empty holds a key, and the only child of a branch is a branch. */
  predicate Stocked(t: Tree) {
    match t
    case Nil => true
    case Leaf(_, _) => true
    case Ext(_, n) => !n.Nil? && Stocked(n)
    case Branch(c) =>
      && (forall i :: 0 <= i < |c| ==> Stocked(c[i]))
      && (Count(c) >= 2 || (Count(c) == 1 && c[Last(c)].Branch?))
  }

  lemma {:induction false} CanonicalStocked(t: Tree)
    requires Canonical(t)
    ensures Stocked(t)
  {
    match t
    case Nil =>
    case Leaf(_, _) =>
    case Ext(_, n) => CanonicalStocked(n);
    case Branch(c) =>
      forall i | 0 <= i < |c| ensures Stocked(c[i]) {
        CanonicalStocked(c[i]);
      }
  }

  lemma SplitStocked(i: Byte, moved: Tree, key: Key, m: nat, value: Bytes)
    requires m < |key| && i < BRANCH_WIDTH && key[m] < BRANCH_WIDTH && i != key[m]
    requires Stocked(moved) && !moved.Nil?
    ensures Stocked(Split(i, moved, key, m, value))
  {
    var none := seq(BRANCH_WIDTH, j => Nil);
    CountSet(none, i, moved);
    CountSet(none[i := moved], key[m], Leaf(key[m + 1..], value));
    assert Stocked(SetChild(Fork(i, moved), key[m], Leaf(key[m + 1..], value)));
  }

  lemma LeafInsertStocked(k: Key, v: Bytes, key: Key, value: Bytes)
    requires Fits(Leaf(k, v), key)
    ensures Stocked(Insert(Leaf(k, v), key, value))
  {
    var m := MatchLen(k, key);
    RestsDiverge(k, key);
    if m < |k| {
      SplitStocked(k[m], Leaf(k[m + 1..], v), key, m, value);
    }
  }

  lemma ExtSplitStocked(k: Key, n: Tree, key: Key, value: Bytes)
    requires Fits(Ext(k, n), key) && Stocked(Ext(k, n)) && !(k <= key)
    ensures Stocked(Insert(Ext(k, n), key, value))
  {
    var m := MatchLen(k, key);
    NibblesDiverge(k, key);
    assert Stocked(Shorten(k, n, m + 1));
    SplitStocked(k[m], Shorten(k, n, m + 1), key, m, value);
  }

  /** Put keeps a trie stocked. */
  lemma {:induction false} InsertStocked(t: Tree, key: Key, value: Bytes)
    requires Fits(t, key) && Stocked(t)
    ensures Stocked(Insert(t, key, value))
    ensures t.Branch? ==> Insert(t, key, value).Branch?
    decreases t
  {
    match t
    case Nil =>
    case Leaf(k, v) => LeafInsertStocked(k, v, key, value);
    case Ext(k, n) =>
      NibblesDiverge(k, key);
      if k <= key {
        InsertStocked(n, key[|k|..], value);
        InsertWellFormed(n, key[|k|..], value);
      } else {
        ExtSplitStocked(k, n, key, value);
      }
    case Branch(c) =>
      SlotFits(c, key);
      InsertStocked(c[key[0]], key[1..], value);
      InsertWellFormed(c[key[0]], key[1..], value);
      SlotStocked(c, key[0], Insert(c[key[0]], key[1..], value));
  }

  /** A branch with the child in one slot replaced; an only child stays a branch. */
  lemma SlotStocked(c: seq<Tree>, i: nat, t: Tree)
    requires Stocked(Branch(c)) && i < |c| && Stocked(t) && !t.Nil? && (c[i].Branch? ==> t.Branch?)
    ensures Stocked(Branch(c[i := t]))
  {
    CountSet(c, i, t);
    if Count(c[i := t]) == 1 {
      CountOne(c);
      CountOne(c[i := t]);
    }
  }

  lemma {:induction false} CountClear(c: seq<Tree>, i: nat)
    requires i < |c| && !c[i].Nil?
    ensures Count(c[i := Nil]) == Count(c) - 1
  {
    CountSet(c[i := Nil], i, c[i]);
    assert c[i := Nil][i := c[i]] == c;
  }

  lemma CollapseStocked(c: seq<Tree>)
    requires |c| == BRANCH_WIDTH && Count(c) >= 1 && forall i :: 0 <= i < |c| ==> Stocked(c[i])
    ensures Stocked(Collapse(c)) && !Collapse(c).Nil?
  {
    if Count(c) == 1 {
      CountOne(c);
    }
  }

  /** Delete keeps a trie stocked, and empties no branch. */
  lemma {:induction false} DeleteStocked(t: Tree, key: Key)
    requires Fits(t, key) && Stocked(t)
    ensures Stocked(Delete(t, key, false).1)
    ensures t.Branch? ==> !Delete(t, key, false).1.Nil?
    decreases t
  {
    match t
    case Nil =>
    case Leaf(k, v) =>
    case Ext(k, n) =>
      if MatchLen(key, k) == |k| {
        ExtDeletable(k, n, key, false);
        DeleteStocked(n, key[|k|..]);
      }
    case Branch(c) =>
      var child := c[key[0]];
      DeleteStocked(child, key[1..]);
      var (found, n) := Delete(child, key[1..], false);
      if found {
        ClearedCount(c, key[0], n);
        CollapseStocked(c[key[0] := n]);
      }
  }

  /** A stocked branch keeps a child when one that is no branch goes. */
  lemma ClearedCount(c: seq<Tree>, i: nat, n: Tree)
    requires Stocked(Branch(c)) && i < |c| && !c[i].Nil? && (c[i].Branch? ==> !n.Nil?)
    ensures Count(c[i := n]) >= 1
  {
    if n.Nil? {
      CountClear(c, i);
      if Count(c) == 1 {
        CountOne(c);
      }
    } else {
      CountSet(c, i, n);
    }
  }

  /** A key stored in a non-empty stocked trie. */
  lemma {:induction false} SomeKey(t: Tree, done: bool) returns (key: Key)
    requires WellFormed(t, done) && Stocked(t) && !t.Nil?
    ensures KeyRest(key) && (key == [] <==> done) && Lookup(t, key).Some?
    decreases t
  {
    match t
    case Leaf(k, v) => key := k;
    case Ext(k, n) =>
      var rest := SomeKey(n, false);
      key := k + rest;
      assert key[|k|..] == rest;
    case Branch(c) =>
      key := SlotKey(c, Last(c));
  }

  /** A stored key that goes through slot `i`. */
  lemma {:induction false} SlotKey(c: seq<Tree>, i: nat) returns (key: Key)
    requires WellFormed(Branch(c), false) && Stocked(Branch(c)) && i < |c| && !c[i].Nil?
    ensures Terminated(key) && key[0] == i && Lookup(Branch(c), key).Some?
    decreases c, 0
  {
    var rest := SomeKey(c[i], i == TERMINATOR);
    key := [i] + rest;
    assert key[1..] == rest;
  }

  /** The shared prefix above the first branch. */
  function Stem(t: Tree): Key
    requires t.Ext? || t.Branch?
  {
    if t.Ext? then t.key else []
  }

  /** The first branch. */
  function Core(t: Tree): Tree
    requires t.Ext? || t.Branch?
  {
    if t.Ext? then t.next else t
  }

  lemma CoreLookup(t: Tree, key: Key)
    requires t.Ext? || t.Branch?
    ensures Lookup(t, key) == if Stem(t) <= key then Lookup(Core(t), key[|Stem(t)|..]) else None
  {
    assert Stem(t) == [] ==> key[|Stem(t)|..] == key;
  }

  /** Two stored keys that part right after the stem. */
  lemma TwoKeys(t: Tree) returns (x: Key, y: Key)
    requires (t.Ext? || t.Branch?) && WellFormed(t, false) && Canonical(t)
    ensures Terminated(x) && Terminated(y)
    ensures Lookup(t, x).Some? && Lookup(t, y).Some?
    ensures Stem(t) <= x && Stem(t) <= y && x[|Stem(t)|] != y[|Stem(t)|]
  {
    var c := Core(t).children;
    CanonicalStocked(Core(t));
    var i, j := TwoSlots(c);
    var xr := SlotKey(c, i);
    var yr := SlotKey(c, j);
    x, y := Stem(t) + xr, Stem(t) + yr;
    assert x[|Stem(t)|..] == xr && y[|Stem(t)|..] == yr;
    CoreLookup(t, x);
    CoreLookup(t, y);
  }

  /** Every stem of another trie with the same map is at most as long. */
  lemma StemLe(a: Tree, b: Tree)
    requires (a.Ext? || a.Branch?) && WellFormed(a, false) && Canonical(a)
    requires b.Ext? || b.Branch?
    requires SameMap(a, b, false)
    ensures Stem(b) <= Stem(a)
  {
    var x, y := TwoKeys(a);
    assert Lookup(b, x) == Lookup(a, x) && Lookup(b, y) == Lookup(a, y);
    CoreLookup(b, x);
    CoreLookup(b, y);
  }

  /** A leaf holds no two keys. */
  lemma LeafOnce(a: Tree, x: Key, y: Key)
    requires a.Leaf? && Terminated(a.key) && Terminated(x) && Terminated(y) && x != y
    ensures Lookup(a, x).None? || Lookup(a, y).None?
  {
    RestsDiverge(a.key, x);
    RestsDiverge(a.key, y);
  }

  /** A trie with one leaf has the map of no trie with a branch. */
  lemma LeafIsNoFork(a: Tree, b: Tree, done: bool)
    requires a.Leaf? && WellFormed(a, done)
    requires b.Ext? || b.Branch?
    requires WellFormed(b, done) && Canonical(b)
    ensures !SameMap(a, b, done)
  {
    var x, y := TwoKeys(b);
    LeafOnce(a, x, y);
    assert Lookup(a, x) != Lookup(b, x) || Lookup(a, y) != Lookup(b, y);
  }

  lemma EmptyIsNil(b: Tree, done: bool)
    requires WellFormed(b, done) && Canonical(b) && SameMap(Nil, b, done)
    ensures b == Nil
  {
    if b != Nil {
      CanonicalStocked(b);
      var key := SomeKey(b, done);
    }
  }

  /** A prefix that a full key can have; with `done` it is the whole key. */
  predicate Reaches(prefix: Key, done: bool) {
    if done then Terminated(prefix) else forall i :: 0 <= i < |prefix| ==> prefix[i] < 16
  }

  lemma ReachesTerminated(prefix: Key, done: bool, rest: Key)
    requires Reaches(prefix, done) && KeyRest(rest) && (rest == [] <==> done)
    ensures Terminated(prefix + rest)
  {
    assert done ==> prefix + rest == prefix;
  }

  /** The same map below a shared prefix. */
  lemma SameBelow(a: Tree, b: Tree, prefix: Key, done: bool, a': Tree, b': Tree)
    requires SameMap(a, b, false) && Reaches(prefix, done)
    requires forall rest: Key :: Lookup(a', rest) == Lookup(a, prefix + rest)
    requires forall rest: Key :: Lookup(b', rest) == Lookup(b, prefix + rest)
    ensures SameMap(a', b', done)
  {
    forall rest: Key | KeyRest(rest) && (rest == [] <==> done)
      ensures Lookup(a', rest) == Lookup(b', rest)
    {
      ReachesTerminated(prefix, done, rest);
    }
  }

  /** Canonical tries with the same map are equal. */
  lemma {:induction false} SameMapSameTree(a: Tree, b: Tree, done: bool)
    requires WellFormed(a, done) && Canonical(a)
    requires WellFormed(b, done) && Canonical(b)
    requires SameMap(a, b, done)
    ensures a == b
    decreases a
  {
    if a.Nil? {
      EmptyIsNil(b, done);
    } else if b.Nil? {
      EmptyIsNil(a, done);
    } else if a.Leaf? {
      if b.Leaf? {
        RestsDiverge(b.key, a.key);
        assert Lookup(a, a.key) == Lookup(b, a.key);
      } else {
        LeafIsNoFork(a, b, done);
      }
    } else if b.Leaf? {
      LeafIsNoFork(b, a, done);
    } else {
      StemLe(a, b);
      StemLe(b, a);
      SameCores(a, b);
      CoresEqual(a, b);
    }
  }

  /** The first branches of two tries with one map have one map. */
  lemma SameCores(a: Tree, b: Tree)
    requires a.Ext? || a.Branch?
    requires b.Ext? || b.Branch?
    requires WellFormed(a, false) && Stem(a) == Stem(b) && SameMap(a, b, false)
    ensures SameMap(Core(a), Core(b), false)
  {
    forall rest: Key
      ensures Lookup(Core(a), rest) == Lookup(a, Stem(a) + rest)
      ensures Lookup(Core(b), rest) == Lookup(b, Stem(b) + rest)
    {
      assert (Stem(a) + rest)[|Stem(a)|..] == rest;
      CoreLookup(a, Stem(a) + rest);
      CoreLookup(b, Stem(b) + rest);
    }
    SameBelow(a, b, Stem(a), false, Core(a), Core(b));
  }

  lemma {:induction false} CoresEqual(a: Tree, b: Tree)
    requires a.Ext? || a.Branch?
    requires b.Ext? || b.Branch?
    requires WellFormed(a, false) && Canonical(a)
    requires WellFormed(b, false) && Canonical(b)
    requires Stem(a) == Stem(b) && SameMap(Core(a), Core(b), false)
    ensures a == b
    decreases a, 0
  {
    var ca, cb := Core(a).children, Core(b).children;
    forall i | 0 <= i < BRANCH_WIDTH ensures ca[i] == cb[i] {
      SameSlot(Core(a), Core(b), i);
      SameMapSameTree(ca[i], cb[i], i == TERMINATOR);
    }
  }

  lemma SameSlot(a: Tree, b: Tree, i: Byte)
    requires a.Branch? && b.Branch? && |a.children| == |b.children| == BRANCH_WIDTH && i < BRANCH_WIDTH
    requires SameMap(a, b, false)
    ensures SameMap(a.children[i], b.children[i], i == TERMINATOR)
  {
    forall rest: Key
      ensures Lookup(a.children[i], rest) == Lookup(a, [i] + rest)
      ensures Lookup(b.children[i], rest) == Lookup(b, [i] + rest)
    {
      assert ([i] + rest)[1..] == rest;
    }
    SameBelow(a, b, [i], i == TERMINATOR, a.children[i], b.children[i]);
  }

  /** One Put. */
  datatype Entry = Entry(key: Bytes, value: Bytes)

  /** Trie.Put on each entry in turn, starting from the empty trie. */
  function PutAll(es: seq<Entry>): (t: Tree)
    ensures WellFormed(t, false) && Canonical(t)
  {
    if es == [] then Nil
    else
      var t := PutAll(es[..|es| - 1]);
      var e := es[|es| - 1];
      InsertWellFormed(t, Hex(e.key), e.value);
      InsertCanonical(t, Hex(e.key), e.value);
      Insert(t, Hex(e.key), e.value)
  }

  /** The map the same entries leave behind. */
  function MapOf(es: seq<Entry>): map<Bytes, Bytes> {
    if es == [] then map[]
    else MapOf(es[..|es| - 1])[es[|es| - 1].key := es[|es| - 1].value]
  }

  /** The trie holds this map and no other key. */
  ghost predicate Holds(t: Tree, m: map<Bytes, Bytes>) {
    && (forall s {:trigger m[s]} {:trigger Lookup(t, Hex(s))} :: s in m ==> Lookup(t, Hex(s)) == Some(m[s]))
    && (forall key: Key {:trigger Lookup(t, key)} ::
          Terminated(key) && Lookup(t, key).Some? ==> exists s :: s in m && Hex(s) == key)
  }

  lemma InsertHolds(t: Tree, m: map<Bytes, Bytes>, key: Bytes, value: Bytes)
    requires WellFormed(t, false) && Holds(t, m)
    ensures Holds(Insert(t, Hex(key), value), m[key := value])
  {
    var t', m' := Insert(t, Hex(key), value), m[key := value];
    forall s | s in m' ensures Lookup(t', Hex(s)) == Some(m'[s]) {
      InsertLookup(t, Hex(key), value, Hex(s));
      if Hex(s) == Hex(key) {
        HexInjective(s, key);
      }
    }
    forall k: Key | Terminated(k) && Lookup(t', k).Some? ensures exists s :: s in m' && Hex(s) == k {
      InsertedOrHeld(t, m, key, value, k);
    }
  }

  lemma InsertedOrHeld(t: Tree, m: map<Bytes, Bytes>, key: Bytes, value: Bytes, k: Key)
    requires WellFormed(t, false) && Holds(t, m)
    requires Terminated(k) && Lookup(Insert(t, Hex(key), value), k).Some?
    ensures exists s :: s in m[key := value] && Hex(s) == k
  {
    InsertLookup(t, Hex(key), value, k);
    if k == Hex(key) {
      assert key in m[key := value];
    } else {
      var s :| s in m && Hex(s) == k;
      assert s in m[key := value];
    }
  }

  lemma {:induction false} PutAllHolds(es: seq<Entry>)
    ensures Holds(PutAll(es), MapOf(es))
  {
    if es != [] {
      var front, e := es[..|es| - 1], es[|es| - 1];
      PutAllHolds(front);
      InsertHolds(PutAll(front), MapOf(front), e.key, e.value);
    }
  }

  /** What a map answers to a full key. */
  ghost function Answer(m: map<Bytes, Bytes>, key: Key): Option<Bytes> {
    if s :| s in m && Hex(s) == key then Some(m[s]) else None
  }

  lemma HoldsAnswer(t: Tree, m: map<Bytes, Bytes>, key: Key)
    requires Holds(t, m) && Terminated(key)
    ensures Lookup(t, key) == Answer(m, key)
  {
  }

  lemma HoldsSame(a: Tree, b: Tree, m: map<Bytes, Bytes>)
    requires Holds(a, m) && Holds(b, m)
    ensures SameMap(a, b, false)
  {
    forall key: Key | Terminated(key) ensures Lookup(a, key) == Lookup(b, key) {
      HoldsAnswer(a, m, key);
      HoldsAnswer(b, m, key);
    }
  }

  /** Puts that end in the same map build the same trie, whatever their order and whatever was overwritten. */
  lemma PutOrderIrrelevant(xs: seq<Entry>, ys: seq<Entry>)
    requires MapOf(xs) == MapOf(ys)
    ensures PutAll(xs) == PutAll(ys)
  {
    PutAllHolds(xs);
    PutAllHolds(ys);
    HoldsSame(PutAll(xs), PutAll(ys), MapOf(xs));
    SameMapSameTree(PutAll(xs), PutAll(ys), false);
  }

  /** Entries with equal keys carry equal values, as transactions keyed by their hash do. */
  ghost predicate Consistent(es: seq<Entry>) {
    forall i, j :: 0 <= i < |es| && 0 <= j < |es| && es[i].key == es[j].key ==> es[i].value == es[j].value
  }

  lemma {:induction false} MapOfConsistent(es: seq<Entry>)
    requires Consistent(es)
    ensures forall k :: k in MapOf(es) ==> Entry(k, MapOf(es)[k]) in es
    ensures forall e :: e in es ==> e.key in MapOf(es) && MapOf(es)[e.key] == e.value
  {
    if es != [] {
      var front, last := es[..|es| - 1], es[|es| - 1];
      assert es == front + [last];
      assert forall i :: 0 <= i < |front| ==> es[i] == front[i];
      MapOfConsistent(front);
    }
  }

  /** A block's transactions, receipts or debts have one Merkle root in every order. */
  lemma PermutationSameTrie(xs: seq<Entry>, ys: seq<Entry>)
    requires multiset(xs) == multiset(ys) && Consistent(xs)
    ensures PutAll(xs) == PutAll(ys)
  {
    assert forall e :: e in xs <==> e in multiset(xs);
    assert forall e :: e in ys <==> e in multiset(ys);
    assert forall e :: e in xs <==> e in ys;
    forall i, j | 0 <= i < |ys| && 0 <= j < |ys| && ys[i].key == ys[j].key ensures ys[i].value == ys[j].value {
      assert ys[i] in xs && ys[j] in xs;
    }
    MapOfConsistent(xs);
    MapOfConsistent(ys);
    PutOrderIrrelevant(xs, ys);
  }

  lemma HeldIffPresent(t: Tree, m: map<Bytes, Bytes>, key: Bytes)
    requires Holds(t, m)
    ensures Lookup(t, Hex(key)) == if key in m then Some(m[key]) else None
  {
    if Lookup(t, Hex(key)).Some? {
      var s :| s in m && Hex(s) == Hex(key);
      HexInjective(s, key);
    }
  }

  /** Deleting a key removes exactly that key from the map. */
  lemma DeleteHolds(t: Tree, m: map<Bytes, Bytes>, key: Bytes)
    requires WellFormed(t, false) && Holds(t, m)
    ensures Delete(t, Hex(key), false).0 <==> key in m
    ensures Holds(Delete(t, Hex(key), false).1, m - {key})
  {
    var t' := Delete(t, Hex(key), false).1;
    DeleteReports(t, Hex(key));
    HeldIffPresent(t, m, key);
    forall s | s in m - {key} ensures Lookup(t', Hex(s)) == Some((m - {key})[s]) {
      DeleteLookup(t, Hex(key), false, Hex(s));
      if Hex(s) == Hex(key) {
        HexInjective(s, key);
      }
    }
    forall k: Key | Terminated(k) && Lookup(t', k).Some? ensures exists s :: s in m - {key} && Hex(s) == k {
      DeleteLookup(t, Hex(key), false, k);
      var s := HolderOf(t, m, k);
      NotDropped(t, t', key, k, s);
      assert s in m - {key};
    }
  }

  /** Delete on a trie that holds a map. */
  lemma DeleteMeans(t: Tree, m: map<Bytes, Bytes>, key: Bytes)
    requires WellFormed(t, false) && Holds(t, m)
    ensures WellFormed(Delete(t, Hex(key), false).1, false) && Holds(Delete(t, Hex(key), false).1, m - {key})
    ensures Delete(t, Hex(key), false).0 <==> key in m
  {
    DeleteWellFormed(t, Hex(key), false);
    DeleteHolds(t, m, key);
  }

  lemma NotDropped(t: Tree, t': Tree, key: Bytes, k: Key, s: Bytes)
    requires Drops(t, t', Hex(key), false, k) && Lookup(t', k).Some? && Hex(s) == k
    ensures s != key
  {
  }

  lemma HolderOf(t: Tree, m: map<Bytes, Bytes>, k: Key) returns (s: Bytes)
    requires Holds(t, m) && Terminated(k) && Lookup(t, k).Some?
    ensures s in m && Hex(s) == k
  {
    s :| s in m && Hex(s) == k;
  }

  /** The entries whose key does not start with `prefix`. */
  function Without(m: map<Bytes, Bytes>, prefix: Bytes): map<Bytes, Bytes> {
    map s | s in m && !(prefix <= s) :: m[s]
  }

  /** Deleting a non-empty prefix removes exactly the keys that start with it. */
  lemma DeletePrefixHolds(t: Tree, m: map<Bytes, Bytes>, prefix: Bytes)
    requires WellFormed(t, false) && Holds(t, m) && prefix != []
    ensures Holds(Delete(t, Nibbles(prefix), true).1, Without(m, prefix))
  {
    var t' := Delete(t, Nibbles(prefix), true).1;
    forall s | s in Without(m, prefix) ensures Lookup(t', Hex(s)) == Some(m[s]) {
      DeleteLookup(t, Nibbles(prefix), true, Hex(s));
      PrefixIffBytePrefix(prefix, s);
    }
    forall k: Key | Terminated(k) && Lookup(t', k).Some? ensures exists s :: s in Without(m, prefix) && Hex(s) == k {
      DeleteLookup(t, Nibbles(prefix), true, k);
      var s :| s in m && Hex(s) == k;
      PrefixIffBytePrefix(prefix, s);
      assert s in Without(m, prefix);
    }
  }

  lemma HoldsOneMap(t: Tree, a: map<Bytes, Bytes>, b: map<Bytes, Bytes>)
    requires Holds(t, a) && Holds(t, b)
    ensures a == b
  {
    forall s ensures s in a <==> s in b
      ensures s in a && s in b ==> a[s] == b[s]
    {
      HeldIffPresent(t, a, s);
      HeldIffPresent(t, b, s);
    }
  }

  /** DeletePrefix on a trie that holds a map; without a match no key started with the prefix. */
  lemma DeletePrefixMeans(t: Tree, m: map<Bytes, Bytes>, prefix: Bytes)
    requires WellFormed(t, false) && Holds(t, m) && prefix != []
    ensures WellFormed(Delete(t, Nibbles(prefix), true).1, false)
    ensures Holds(Delete(t, Nibbles(prefix), true).1, Without(m, prefix))
    ensures !Delete(t, Nibbles(prefix), true).0 ==> Without(m, prefix) == m
  {
    DeleteWellFormed(t, Nibbles(prefix), true);
    DeletePrefixHolds(t, m, prefix);
    DeleteMiss(t, Nibbles(prefix), true);
    if !Delete(t, Nibbles(prefix), true).0 {
      HoldsOneMap(t, m, Without(m, prefix));
    }
  }
}
