/** The trie as a value: shape, lookup, insertion and deletion, and the finite map they implement. */
module TrieTree {
  import opened Common
  import opened TrieKeys

  datatype Tree =
    | Nil
    | Leaf(key: Key, value: Bytes)
    | Ext(key: Key, next: Tree)
    | Branch(children: seq<Tree>)

  /**
    Shape of every reachable trie. `done` says that the path to this node has consumed the
    terminator, so only an empty slot or a leaf without further key can stand here.
   */
  predicate WellFormed(t: Tree, done: bool) {
    match t
    case Nil => true
    case Leaf(k, _) => if done then k == [] else Terminated(k)
    case Ext(k, n) =>
      !done && k != [] && (forall i :: 0 <= i < |k| ==> k[i] < 16) && !n.Nil? && WellFormed(n, false)
    case Branch(c) =>
      !done && |c| == BRANCH_WIDTH && forall i :: 0 <= i < |c| ==> WellFormed(c[i], i == TERMINATOR)
  }

  /** Behind its first nibble a key has ended or goes on. */
  lemma RestOfKey(key: Key)
    requires Terminated(key)
    ensures key[0] <= TERMINATOR && (key[1..] == [] <==> key[0] == TERMINATOR) && KeyRest(key[1..])
  {
  }

  /** The key can be looked up, inserted or deleted below this node. */
  predicate Fits(t: Tree, key: Key) {
    KeyRest(key) && WellFormed(t, key == [])
  }

  /** Trie.get: a leaf answers every key that starts with its own. */
  function Lookup(t: Tree, key: Key): Option<Bytes> {
    match t
    case Nil => None
    case Leaf(k, v) => if k <= key then Some(v) else None
    case Ext(k, n) => if k <= key then Lookup(n, key[|k|..]) else None
    case Branch(c) => if key == [] || key[0] >= |c| then None else Lookup(c[key[0]], key[1..])
  }

  /** A branch whose only child is `t` at slot `i`. */
  function Fork(i: Byte, t: Tree): (b: Tree)
    requires i < BRANCH_WIDTH
    ensures b.Branch? && |b.children| == BRANCH_WIDTH
  {
    Branch(seq(BRANCH_WIDTH, j => Nil)[i := t])
  }

  /** Put `t` at slot `i` of a branch. */
  function SetChild(b: Tree, i: Byte, t: Tree): Tree
    requires b.Branch? && i < |b.children|
  {
    Branch(b.children[i := t])
  }

  /** The branch, below its shared prefix if there is one. */
  function Under(prefix: Key, b: Tree): Tree {
    if prefix == [] then b else Ext(prefix, b)
  }

  /** What remains of an extension after dropping the first `n` nibbles of its key. */
  function Shorten(k: Key, next: Tree, n: nat): Tree
    requires n <= |k|
  {
    if n == |k| then next else Ext(k[n..], next)
  }

  /**
    The common end of insertLeafNode and insertExtensionNode: `moved` moves to slot `i` of a new branch,
    a new leaf takes the slot where `key` parts from it, and the first `m` nibbles stay shared.
   */
  function Split(i: Byte, moved: Tree, key: Key, m: nat, value: Bytes): Tree
    requires m < |key| && i < BRANCH_WIDTH && key[m] < BRANCH_WIDTH
  {
    Under(key[..m], SetChild(Fork(i, moved), key[m], Leaf(key[m + 1..], value)))
  }

  /** Trie.insert with insertLeafNode and insertExtensionNode. */
  function Insert(t: Tree, key: Key, value: Bytes): Tree
    requires Fits(t, key)
    decreases t
  {
    match t
    case Nil => Leaf(key, value)
    case Leaf(k, v) =>
      var m := MatchLen(k, key);
      RestsDiverge(k, key);
      if m == |k| then Leaf(k, value) else Split(k[m], Leaf(k[m + 1..], v), key, m, value)
    case Ext(k, n) =>
      var m := MatchLen(k, key);
      NibblesDiverge(k, key);
      if m == |k| then Ext(k, Insert(n, key[m..], value))
      else Split(k[m], Shorten(k, n, m + 1), key, m, value)
    case Branch(c) => Branch(c[key[0] := Insert(c[key[0]], key[1..], value)])
  }

  /** Below its first nibble the rest of a key fits again. */
  lemma SlotFits(c: seq<Tree>, key: Key)
    requires Fits(Branch(c), key)
    ensures key != [] && key[0] < |c| && Fits(c[key[0]], key[1..])
  {
    var rest := key[1..];
    if |key| > 1 {
      assert rest[|rest| - 1] == key[|key| - 1];
      assert forall i :: 0 <= i < |rest| - 1 ==> rest[i] == key[i + 1] < 16;
      assert key[0] < 16;
    }
    assert WellFormed(c[key[0]], key[0] == TERMINATOR);
  }

  /** Two rests of full keys that are not equal part at a position inside both. */
  lemma RestsDiverge(k: Key, key: Key)
    requires KeyRest(k) && KeyRest(key) && (k == [] <==> key == [])
    ensures var m := MatchLen(k, key); m == |k| <==> k == key
    ensures var m := MatchLen(k, key); m < |k| ==> m < |key| && k[m] <= 16 && key[m] <= 16
    ensures k <= key <==> k == key
  {
    var m := MatchLen(k, key);
    SharedPrefix(k, key, m);
    if m == |k| {
      EndsTogether(k, key);
    }
    if m == |key| {
      EndsTogether(key, k);
    }
    if k <= key {
      MatchLenUnique(k, key, |k|);
    }
  }

  lemma SharedPrefix(a: Key, b: Key, m: nat)
    requires m <= |a| && m <= |b| && a[..m] == b[..m]
    ensures forall i :: 0 <= i < m ==> a[i] == b[i]
    ensures m == |a| ==> a <= b
    ensures m == |b| ==> b <= a
  {
    assert forall i :: 0 <= i < m ==> a[i] == a[..m][i] && b[i] == b[..m][i];
    assert m == |a| ==> a == a[..m];
    assert m == |b| ==> b == b[..m];
  }

  /** A rest of a full key that is a prefix of another is the other. */
  lemma EndsTogether(k: Key, key: Key)
    requires KeyRest(k) && KeyRest(key) && (k == [] <==> key == []) && k <= key
    ensures k == key
  {
    if k != [] {
      var last := |k| - 1;
      assert key[last] == k[last] == TERMINATOR;
    }
  }

  /** A run of nibbles and a full key part inside both, or the run is a proper prefix. */
  lemma NibblesDiverge(k: Key, key: Key)
    requires Terminated(key) && forall i :: 0 <= i < |k| ==> k[i] < 16
    ensures var m := MatchLen(k, key); m < |key|
    ensures var m := MatchLen(k, key); m < |k| ==> key[m] <= 16
    ensures var m := MatchLen(k, key); m == |k| <==> k <= key
    ensures k <= key ==> Terminated(key[|k|..])
  {
    var m := MatchLen(k, key);
    SharedPrefix(k, key, m);
    if k <= key {
      MatchLenUnique(k, key, |k|);
    }
  }

  /** A prefix test taken apart at position `m`. */
  lemma PrefixSplit(k: Key, m: nat, other: Key)
    requires m < |k|
    ensures k <= other <==>
            k[..m] <= other && m < |other| && k[m] == other[m] && k[m + 1..] <= other[m + 1..]
    ensures k <= other ==> other[|k|..] == other[m + 1..][|k| - m - 1..]
  {
    assert k == k[..m] + [k[m]] + k[m + 1..];
    if k[..m] <= other && m < |other| && k[m] == other[m] && k[m + 1..] <= other[m + 1..] {
      assert other == other[..m] + [other[m]] + other[m + 1..];
    }
  }

  /** `t'` answers `other` as `t` does after `key` has been set to `value`. */
  predicate Sets(t: Tree, t': Tree, key: Key, value: Bytes, other: Key) {
    Lookup(t', other) == if other == key then Some(value) else Lookup(t, other)
  }

  lemma ForkLookup(i: Byte, moved: Tree, j: Byte, added: Tree, other: Key)
    requires i < BRANCH_WIDTH && j < BRANCH_WIDTH
    ensures Lookup(SetChild(Fork(i, moved), j, added), other)
         == if other == [] then None
            else if other[0] == j then Lookup(added, other[1..])
            else if other[0] == i then Lookup(moved, other[1..])
            else None
  {
  }

  /** Looking below a split: the new leaf, the moved subtree, or nothing. */
  lemma SplitLookup(i: Byte, moved: Tree, key: Key, m: nat, value: Bytes, other: Key)
    requires m < |key| && i < BRANCH_WIDTH && key[m] < BRANCH_WIDTH && i != key[m]
    ensures Lookup(Split(i, moved, key, m, value), other)
         == if key <= other then Some(value)
            else if key[..m] <= other && m < |other| && other[m] == i then Lookup(moved, other[m + 1..])
            else None
  {
    var b := SetChild(Fork(i, moved), key[m], Leaf(key[m + 1..], value));
    PrefixSplit(key, m, other);
    if key[..m] <= other {
      var rest := other[m..];
      assert rest != [] ==> rest[1..] == other[m + 1..];
      ForkLookup(i, moved, key[m], Leaf(key[m + 1..], value), rest);
      assert m == 0 ==> rest == other;
      assert Lookup(Split(i, moved, key, m, value), other) == Lookup(b, rest);
    }
  }

  /** A split is well formed when the moved subtree is. */
  lemma SplitWellFormed(i: Byte, moved: Tree, key: Key, m: nat, value: Bytes)
    requires Terminated(key) && m < |key| && i < BRANCH_WIDTH && i != key[m]
    requires WellFormed(moved, i == TERMINATOR)
    ensures WellFormed(Split(i, moved, key, m, value), false)
  {
    var fork := Fork(i, moved);
    assert WellFormed(fork, false);
    assert WellFormed(Leaf(key[m + 1..], value), key[m] == TERMINATOR);
    assert WellFormed(SetChild(fork, key[m], Leaf(key[m + 1..], value)), false);
  }

  lemma LeafInsertWellFormed(k: Key, v: Bytes, key: Key, value: Bytes)
    requires Fits(Leaf(k, v), key)
    ensures WellFormed(Insert(Leaf(k, v), key, value), key == [])
    ensures !Insert(Leaf(k, v), key, value).Nil?
  {
    var m := MatchLen(k, key);
    RestsDiverge(k, key);
    if m < |k| {
      SplitWellFormed(k[m], Leaf(k[m + 1..], v), key, m, value);
    }
  }

  lemma {:induction false} InsertWellFormed(t: Tree, key: Key, value: Bytes)
    requires Fits(t, key)
    ensures WellFormed(Insert(t, key, value), key == [])
    ensures !Insert(t, key, value).Nil?
    decreases t
  {
    match t
    case Nil =>
    case Leaf(k, v) =>
      LeafInsertWellFormed(k, v, key, value);
    case Ext(k, n) =>
      NibblesDiverge(k, key);
      if k <= key {
        InsertWellFormed(n, key[|k|..], value);
      } else {
        var m := MatchLen(k, key);
        assert WellFormed(Shorten(k, n, m + 1), false);
        SplitWellFormed(k[m], Shorten(k, n, m + 1), key, m, value);
      }
    case Branch(c) =>
      InsertWellFormed(c[key[0]], key[1..], value);
  }

  /** Insertion sets exactly its own key. */
  lemma {:induction false} InsertLookup(t: Tree, key: Key, value: Bytes, other: Key)
    requires Fits(t, key) && Fits(t, other) && (key == [] <==> other == [])
    ensures Sets(t, Insert(t, key, value), key, value, other)
    decreases t
  {
    match t
    case Nil =>
      RestsDiverge(key, other);
    case Leaf(k, v) =>
      LeafInsertLookup(k, v, key, value, other);
    case Ext(k, n) =>
      NibblesDiverge(k, key);
      NibblesDiverge(k, other);
      if !(k <= key) {
        ExtSplitLookup(k, n, key, value, other);
      } else {
        if k <= other {
          InsertLookup(n, key[|k|..], value, other[|k|..]);
        }
        ExtInsertLookup(k, n, key, value, other);
      }
    case Branch(c) =>
      if key[0] == other[0] {
        InsertLookup(c[key[0]], key[1..], value, other[1..]);
      }
      BranchInsertLookup(c, key, value, other);
  }

  lemma ExtInsertLookup(k: Key, n: Tree, key: Key, value: Bytes, other: Key)
    requires Fits(Ext(k, n), key) && Fits(Ext(k, n), other) && k <= key
    requires Terminated(key[|k|..])
    requires k <= other ==> Sets(n, Insert(n, key[|k|..], value), key[|k|..], value, other[|k|..])
    ensures Sets(Ext(k, n), Insert(Ext(k, n), key, value), key, value, other)
  {
    NibblesDiverge(k, key);
    if k <= other {
      PrefixCancels(k, key, other);
    }
  }

  /** Below a shared prefix only the rests matter. */
  lemma PrefixCancels(k: Key, key: Key, other: Key)
    requires k <= key && k <= other
    ensures other == key <==> other[|k|..] == key[|k|..]
    ensures key <= other <==> key[|k|..] <= other[|k|..]
  {
    assert other == k + other[|k|..] && key == k + key[|k|..];
  }

  lemma BranchInsertLookup(c: seq<Tree>, key: Key, value: Bytes, other: Key)
    requires Fits(Branch(c), key) && Fits(Branch(c), other)
    requires key[0] == other[0] ==> Sets(c[key[0]], Insert(c[key[0]], key[1..], value), key[1..], value, other[1..])
    ensures Sets(Branch(c), Insert(Branch(c), key, value), key, value, other)
  {
    assert other == [other[0]] + other[1..] && key == [key[0]] + key[1..];
  }

  lemma LeafInsertLookup(k: Key, v: Bytes, key: Key, value: Bytes, other: Key)
    requires Fits(Leaf(k, v), key) && Fits(Leaf(k, v), other)
    ensures Sets(Leaf(k, v), Insert(Leaf(k, v), key, value), key, value, other)
  {
    var m := MatchLen(k, key);
    RestsDiverge(k, key);
    RestsDiverge(k, other);
    RestsDiverge(key, other);
    if m < |k| {
      PrefixSplit(k, m, other);
      SplitLookup(k[m], Leaf(k[m + 1..], v), key, m, value, other);
    }
  }

  lemma ExtSplitLookup(k: Key, n: Tree, key: Key, value: Bytes, other: Key)
    requires Fits(Ext(k, n), key) && Fits(Ext(k, n), other)
    requires !(k <= key)
    ensures Sets(Ext(k, n), Insert(Ext(k, n), key, value), key, value, other)
  {
    var m := MatchLen(k, key);
    NibblesDiverge(k, key);
    RestsDiverge(key, other);
    SplitLookup(k[m], Shorten(k, n, m + 1), key, m, value, other);
    ShortenLookup(k, n, m, other);
  }

  /** Looking up in the shortened extension after consuming what it lost. */
  lemma ShortenLookup(k: Key, n: Tree, m: nat, other: Key)
    requires m < |k|
    ensures Lookup(Ext(k, n), other)
         == if !(k[..m] <= other && m < |other| && other[m] == k[m]) then None
            else Lookup(Shorten(k, n, m + 1), other[m + 1..])
  {
    PrefixSplit(k, m, other);
    if k[..m] <= other && m < |other| && other[m] == k[m] {
      var rest := other[m + 1..];
      assert m + 1 == |k| ==> other[|k|..] == rest;
    }
  }

  /** Number of occupied slots. */
  function Count(c: seq<Tree>): (n: nat)
    ensures n == 0 <==> forall i :: 0 <= i < |c| ==> c[i].Nil?
  {
    if c == [] then 0
    else Count(c[..|c| - 1]) + if c[|c| - 1].Nil? then 0 else 1
  }

  /** The last occupied slot, or -1. */
  function Last(c: seq<Tree>): (pos: int)
    ensures -1 <= pos < |c|
    ensures pos >= 0 ==> !c[pos].Nil?
    ensures forall i :: pos < i < |c| ==> c[i].Nil?
  {
    if c == [] then -1
    else if !c[|c| - 1].Nil? then |c| - 1
    else Last(c[..|c| - 1])
  }

  /** With one occupied slot, that is the last one. */
  lemma {:induction false} CountOne(c: seq<Tree>)
    requires Count(c) == 1
    ensures Last(c) >= 0
    ensures forall i :: 0 <= i < |c| && i != Last(c) ==> c[i].Nil?
  {
    var front := c[..|c| - 1];
    if c[|c| - 1].Nil? {
      CountOne(front);
    }
    assert forall i :: 0 <= i < |front| ==> c[i] == front[i];
  }

  lemma CountStep(c: seq<Tree>, i: nat)
    requires i < |c|
    ensures Count(c[..i + 1]) == Count(c[..i]) + if c[i].Nil? then 0 else 1
    ensures Last(c[..i + 1]) == if c[i].Nil? then Last(c[..i]) else i
  {
    assert c[..i + 1][..i] == c[..i];
  }

  /** A branch left with one leaf or extension takes over its key; any other branch stays. */
  function Collapse(c: seq<Tree>): Tree
    requires |c| == BRANCH_WIDTH
  {
    if Count(c) != 1 then Branch(c)
    else
      CountOne(c);
      var pos := Last(c);
      match c[pos]
      case Leaf(k, v) => Leaf([pos] + k, v)
      case Ext(k, n) => Ext([pos] + k, n)
      case _ => Branch(c)
  }

  /** The key asked for in Trie.delete: a full key, or with `descendant` a non-empty run of nibbles. */
  predicate Deletable(t: Tree, key: Key, descendant: bool) {
    if descendant then
      key != [] && (forall i :: 0 <= i < |key| ==> key[i] < 16) && WellFormed(t, false)
    else
      Fits(t, key)
  }

  /** Trie.delete: whether something matched, and what is left. */
  function Delete(t: Tree, key: Key, descendant: bool): (bool, Tree)
    requires Deletable(t, key, descendant)
    decreases t
  {
    match t
    case Nil => (false, Nil)
    case Leaf(k, v) =>
      var m := MatchLen(key, k);
      if m == |k| || m == |key| then (true, Nil) else (false, t)
    case Ext(k, n) =>
      var m := MatchLen(key, k);
      if descendant && m == |key| then (true, Nil)
      else if m != |k| then (false, t)
      else
        ExtDeletable(k, n, key, descendant);
        var (found, n') := Delete(n, key[m..], descendant);
        if !found then (false, t)
        else if n'.Nil? then (true, Nil)
        else (true, Ext(k, n'))
    case Branch(c) =>
      if descendant && |key| == 1 then
        if c[key[0]].Nil? then (false, t) else (true, Collapse(c[key[0] := Nil]))
      else
        var (found, n) := Delete(c[key[0]], key[1..], descendant);
        if !found then (false, t) else (true, Collapse(c[key[0] := n]))
  }

  /** Below an extension the rest of the key is again one to delete. */
  lemma ExtDeletable(k: Key, n: Tree, key: Key, descendant: bool)
    requires Deletable(Ext(k, n), key, descendant)
    requires MatchLen(key, k) == |k| && !(descendant && |k| == |key|)
    ensures k <= key && Deletable(n, key[|k|..], descendant)
  {
    assert k == k[..|k|] == key[..|k|];
    if !descendant {
      NibblesDiverge(k, key);
    }
  }

  /** The keys a deletion is asked to remove. */
  predicate Hit(key: Key, descendant: bool, other: Key) {
    if descendant then key <= other else other == key
  }

  /** `t'` answers `other` as `t` does after the hit keys have been removed. */
  predicate Drops(t: Tree, t': Tree, key: Key, descendant: bool, other: Key) {
    Lookup(t', other) == if Hit(key, descendant, other) then None else Lookup(t, other)
  }

  lemma CollapseWellFormed(c: seq<Tree>)
    requires WellFormed(Branch(c), false)
    ensures WellFormed(Collapse(c), false) && !Collapse(c).Nil?
  {
    if Count(c) == 1 {
      CountOne(c);
      var pos := Last(c);
      assert WellFormed(c[pos], pos == TERMINATOR);
    }
  }

  /** A key one nibble longer is looked up one slot further up. */
  lemma StepLookup(pos: Byte, t: Tree, other: Key)
    requires t.Leaf? || t.Ext?
    requires other != []
    ensures Lookup(if t.Leaf? then Leaf([pos] + t.key, t.value) else Ext([pos] + t.key, t.next), other)
         == if other[0] == pos then Lookup(t, other[1..]) else None
  {
    var k := [pos] + t.key;
    PrefixSplit(k, 0, other);
    assert k[1..] == t.key;
  }

  lemma CollapseLookup(c: seq<Tree>, other: Key)
    requires |c| == BRANCH_WIDTH && other != [] && other[0] < BRANCH_WIDTH
    ensures Lookup(Collapse(c), other) == Lookup(c[other[0]], other[1..])
  {
    if Count(c) == 1 {
      CountOne(c);
      var pos := Last(c);
      if c[pos].Leaf? || c[pos].Ext? {
        StepLookup(pos, c[pos], other);
      }
    }
  }

  lemma {:induction false} DeleteWellFormed(t: Tree, key: Key, descendant: bool)
    requires Deletable(t, key, descendant)
    ensures WellFormed(Delete(t, key, descendant).1, !descendant && key == [])
    decreases t
  {
    match t
    case Nil =>
    case Leaf(k, v) =>
    case Ext(k, n) =>
      if MatchLen(key, k) == |k| && !(descendant && |k| == |key|) {
        ExtDeletable(k, n, key, descendant);
        DeleteWellFormed(n, key[|k|..], descendant);
      }
    case Branch(c) =>
      if descendant && |key| == 1 {
        CollapseWellFormed(c[key[0] := Nil]);
      } else {
        DeleteWellFormed(c[key[0]], key[1..], descendant);
        var (found, n) := Delete(c[key[0]], key[1..], descendant);
        CollapseWellFormed(c[key[0] := n]);
      }
  }

  /** Without a match nothing changes. */
  lemma DeleteMiss(t: Tree, key: Key, descendant: bool)
    requires Deletable(t, key, descendant)
    ensures !Delete(t, key, descendant).0 ==> Delete(t, key, descendant).1 == t
  {
  }

  /** Deletion removes exactly the hit keys. */
  lemma {:induction false} DeleteLookup(t: Tree, key: Key, descendant: bool, other: Key)
    requires Deletable(t, key, descendant) && Fits(t, other)
    requires other == [] <==> !descendant && key == []
    ensures Drops(t, Delete(t, key, descendant).1, key, descendant, other)
    decreases t
  {
    match t
    case Nil =>
    case Leaf(k, v) =>
      LeafDeleteLookup(k, v, key, descendant, other);
    case Ext(k, n) =>
      if MatchLen(key, k) == |k| && !(descendant && |k| == |key|) {
        ExtDeletable(k, n, key, descendant);
        if k <= other {
          NibblesDiverge(k, other);
          DeleteLookup(n, key[|k|..], descendant, other[|k|..]);
        }
        ExtDeleteLookup(k, n, key, descendant, other);
      } else {
        ExtDropLookup(k, n, key, descendant, other);
      }
    case Branch(c) =>
      if descendant && |key| == 1 {
        BranchDropLookup(c, key, other);
      } else {
        if key[0] == other[0] {
          SlotFits(c, other);
          DeleteLookup(c[key[0]], key[1..], descendant, other[1..]);
        }
        BranchDeleteLookup(c, key, descendant, other);
      }
  }

  lemma LeafDeleteLookup(k: Key, v: Bytes, key: Key, descendant: bool, other: Key)
    requires Deletable(Leaf(k, v), key, descendant) && Fits(Leaf(k, v), other)
    ensures Drops(Leaf(k, v), Delete(Leaf(k, v), key, descendant).1, key, descendant, other)
  {
    RestsDiverge(k, other);
    if descendant {
      NibblesDiverge(key, k);
    } else {
      RestsDiverge(key, k);
      RestsDiverge(k, key);
    }
  }

  lemma ExtDropLookup(k: Key, n: Tree, key: Key, descendant: bool, other: Key)
    requires Deletable(Ext(k, n), key, descendant) && Fits(Ext(k, n), other)
    requires MatchLen(key, k) != |k| || (descendant && |k| == |key|)
    ensures Drops(Ext(k, n), Delete(Ext(k, n), key, descendant).1, key, descendant, other)
  {
  }

  lemma ExtDeleteLookup(k: Key, n: Tree, key: Key, descendant: bool, other: Key)
    requires Deletable(Ext(k, n), key, descendant) && Fits(Ext(k, n), other)
    requires MatchLen(key, k) == |k| && !(descendant && |k| == |key|)
    requires k <= key && Deletable(n, key[|k|..], descendant)
    requires k <= other ==> Drops(n, Delete(n, key[|k|..], descendant).1, key[|k|..], descendant, other[|k|..])
    ensures Drops(Ext(k, n), Delete(Ext(k, n), key, descendant).1, key, descendant, other)
  {
    DeleteMiss(n, key[|k|..], descendant);
    if k <= other {
      PrefixCancels(k, key, other);
    }
  }

  lemma BranchDropLookup(c: seq<Tree>, key: Key, other: Key)
    requires Deletable(Branch(c), key, true) && Fits(Branch(c), other) && |key| == 1
    ensures Drops(Branch(c), Delete(Branch(c), key, true).1, key, true, other)
  {
    CollapseLookup(c[key[0] := Nil], other);
    assert key <= other <==> other[0] == key[0];
  }

  lemma BranchDeleteLookup(c: seq<Tree>, key: Key, descendant: bool, other: Key)
    requires Deletable(Branch(c), key, descendant) && Fits(Branch(c), other) && !(descendant && |key| == 1)
    requires key[0] == other[0] ==>
      Drops(c[key[0]], Delete(c[key[0]], key[1..], descendant).1, key[1..], descendant, other[1..])
    ensures Drops(Branch(c), Delete(Branch(c), key, descendant).1, key, descendant, other)
  {
    HitStep(key, descendant, other);
    DeleteMiss(c[key[0]], key[1..], descendant);
    CollapseLookup(c[key[0] := Delete(c[key[0]], key[1..], descendant).1], other);
  }

  lemma HitStep(key: Key, descendant: bool, other: Key)
    requires key != [] && other != []
    ensures Hit(key, descendant, other) <==> key[0] == other[0] && Hit(key[1..], descendant, other[1..])
  {
    assert other == [other[0]] + other[1..] && key == [key[0]] + key[1..];
  }

  /** Deleting a full key reports a match exactly when the key was present. */
  lemma {:induction false} DeleteReports(t: Tree, key: Key)
    requires Fits(t, key)
    ensures Delete(t, key, false).0 <==> Lookup(t, key).Some?
    decreases t
  {
    match t
    case Nil =>
    case Leaf(k, v) =>
      RestsDiverge(k, key);
      RestsDiverge(key, k);
    case Ext(k, n) =>
      NibblesDiverge(k, key);
      MatchLenSymmetric(k, key);
      if k <= key {
        DeleteReports(n, key[|k|..]);
      }
    case Branch(c) =>
      DeleteReports(c[key[0]], key[1..]);
  }

  lemma MatchLenSymmetric(a: Key, b: Key)
    ensures MatchLen(a, b) == MatchLen(b, a)
  {
    MatchLenUnique(a, b, MatchLen(b, a));
  }
}
