/** A run with DeletePrefix after which the only stored key has no proof. */
module TrieHidden {
  import opened Common
  import opened TrieKeys
  import opened TrieTree
  import opened TrieCanonical
  import opened TrieProof
  import opened TrieRuns

  /** A branch with `t` beside the leaf of a key that ends here. */
  function Beside(v: Bytes, t: Tree): (b: Tree)
    ensures b.Branch? && |b.children| == BRANCH_WIDTH
  {
    SetChild(Fork(TERMINATOR, Leaf([], v)), 1, t)
  }

  /** The trie of AA, with `t` standing for the keys that continue it with a nibble 1. */
  function Above(v: Bytes, t: Tree): Tree {
    Ext([10, 10], Beside(v, t))
  }

  lemma BesideWellFormed(v: Bytes, t: Tree)
    requires WellFormed(t, false)
    ensures WellFormed(Beside(v, t), false) && WellFormed(Above(v, t), false)
  {
  }

  lemma InsertAbove(v: Bytes, t: Tree, rest: Key, value: Bytes)
    requires WellFormed(t, false) && Terminated(rest)
    ensures Fits(Above(v, t), [10, 10, 1] + rest)
    ensures Insert(Above(v, t), [10, 10, 1] + rest, value) == Above(v, Insert(t, rest, value))
  {
    var key := [10, 10, 1] + rest;
    BesideWellFormed(v, t);
    MatchLenUnique([10, 10], key, 2);
    assert key[2..] == [1] + rest && ([1] + rest)[1..] == rest;
    assert Insert(Beside(v, t), [1] + rest, value) == Beside(v, Insert(t, rest, value));
  }

  lemma BesideCount(v: Bytes, t: Tree)
    requires !t.Nil?
    ensures Count(Beside(v, t).children) == 2
  {
    var none := seq(BRANCH_WIDTH, j => Nil);
    CountSet(none, TERMINATOR, Leaf([], v));
    CountSet(none[TERMINATOR := Leaf([], v)], 1, t);
  }

  lemma DeleteBeside(v: Bytes, t: Tree, rest: Key, descendant: bool)
    requires Deletable(t, rest, descendant) && rest != [] && Delete(t, rest, descendant).0
    requires !Delete(t, rest, descendant).1.Nil?
    ensures Deletable(Beside(v, t), [1] + rest, descendant)
    ensures Delete(Beside(v, t), [1] + rest, descendant) == (true, Beside(v, Delete(t, rest, descendant).1))
  {
    var n := Delete(t, rest, descendant).1;
    BesideWellFormed(v, t);
    assert ([1] + rest)[1..] == rest;
    assert Beside(v, t).children[1] == t && Beside(v, t).children[1 := n] == Beside(v, n).children;
    BesideCount(v, n);
  }

  lemma DeleteAbove(v: Bytes, t: Tree, rest: Key, descendant: bool)
    requires Deletable(t, rest, descendant) && rest != [] && Delete(t, rest, descendant).0
    requires !Delete(t, rest, descendant).1.Nil?
    ensures Deletable(Above(v, t), [10, 10, 1] + rest, descendant)
    ensures Delete(Above(v, t), [10, 10, 1] + rest, descendant).1 == Above(v, Delete(t, rest, descendant).1)
  {
    var key := [10, 10, 1] + rest;
    DeleteBeside(v, t, rest, descendant);
    DeleteBelow([10, 10], Beside(v, t), [1] + rest, descendant);
    assert key == [10, 10] + ([1] + rest);
  }

  lemma DeletableBelow(k: Key, n: Tree, rest: Key, descendant: bool)
    requires k != [] && (forall i :: 0 <= i < |k| ==> k[i] < 16) && Deletable(n, rest, descendant) && rest != []
    requires WellFormed(n, false) && !n.Nil?
    ensures Deletable(Ext(k, n), k + rest, descendant)
  {
    var key := k + rest;
    assert forall i :: 0 <= i < |key| ==> key[i] == if i < |k| then k[i] else rest[i - |k|];
    if !descendant {
      assert key[|key| - 1] == rest[|rest| - 1];
    }
  }

  /** Deletion below an extension. */
  lemma DeleteBelow(k: Key, n: Tree, rest: Key, descendant: bool)
    requires k != [] && (forall i :: 0 <= i < |k| ==> k[i] < 16) && Deletable(n, rest, descendant) && rest != []
    requires Delete(n, rest, descendant).0 && !Delete(n, rest, descendant).1.Nil? && WellFormed(n, false) && !n.Nil?
    ensures Deletable(Ext(k, n), k + rest, descendant)
    ensures Delete(Ext(k, n), k + rest, descendant) == (true, Ext(k, Delete(n, rest, descendant).1))
  {
    var key := k + rest;
    DeletableBelow(k, n, rest, descendant);
    assert key[..|k|] == k[..|k|] && key[|k|..] == rest;
    MatchLenUnique(key, k, |k|);
  }

  /** The trie of the keys 2 and 210 below AA1. */
  function Two(v: Bytes, w: Bytes): Tree {
    Beside(v, Leaf([0, 16], w))
  }

  lemma PutFirst(v: Bytes, w: Bytes)
    ensures Insert(Leaf([10, 10, 16], v), [10, 10, 1, 2, 16], w) == Above(v, Leaf([2, 16], w))
  {
    var k, key := [10, 10, 16], [10, 10, 1, 2, 16];
    MatchLenUnique(k, key, 2);
    assert key[..2] == [10, 10] && key[3..] == [2, 16] && k[3..] == [];
  }

  lemma PutSecond(v: Bytes, w: Bytes)
    ensures Insert(Leaf([2, 16], v), [2, 1, 0, 16], w) == Ext([2], Two(v, w))
  {
    var k, key := [2, 16], [2, 1, 0, 16];
    MatchLenUnique(k, key, 1);
    assert key[..1] == [2] && key[2..] == [0, 16] && k[2..] == [];
  }

  lemma PutThird(t: Tree, v: Bytes)
    requires t.Branch? && WellFormed(t, false)
    ensures Insert(Ext([2], t), [3, 16], v) == SetChild(Fork(2, t), 3, Leaf([16], v))
  {
    MatchLenUnique([2], [3, 16], 0);
    assert [3, 16][1..] == [16];
  }

  /** The branch above a branch stays when its other child goes. */
  lemma DeleteThird(t: Tree, v: Bytes)
    requires t.Branch? && WellFormed(t, false)
    ensures WellFormed(SetChild(Fork(2, t), 3, Leaf([16], v)), false)
    ensures Delete(SetChild(Fork(2, t), 3, Leaf([16], v)), [3, 16], false) == (true, Fork(2, t))
  {
    var c := SetChild(Fork(2, t), 3, Leaf([16], v)).children;
    assert [3, 16][1..] == [16];
    MatchLenUnique([16], [16], 1);
    assert c[3 := Nil] == Fork(2, t).children;
    CountSet(seq(BRANCH_WIDTH, j => Nil), 2, t);
    CountOne(Fork(2, t).children);
  }

  /** Deleting by prefix empties that branch and leaves it in place. */
  lemma DeleteTwo(t: Tree)
    requires t.Branch? && WellFormed(t, false)
    ensures WellFormed(Fork(2, t), false)
    ensures Delete(Fork(2, t), [2], true) == (true, Branch(seq(BRANCH_WIDTH, j => Nil)))
  {
    assert Fork(2, t).children[2 := Nil] == seq(BRANCH_WIDTH, j => Nil);
  }

  /** Put AA, AA12, AA1210 and AA13, Delete AA13, DeletePrefix AA12. */
  function Calls(v: Bytes): seq<Call> {
    [Use(PutOp([0xAA], v)), Use(PutOp([0xAA, 0x12], v)), Use(PutOp([0xAA, 0x12, 0x10], v)), Use(PutOp([0xAA, 0x13], v)),
     Use(DeleteOp([0xAA, 0x13])), Use(DeletePrefixOp([0xAA, 0x12]))]
  }

  lemma OneByte(b: Byte)
    ensures Nibbles([b]) == [b / 16, b % 16]
  {
    assert [b][1..] == [];
  }

  lemma TwoBytes(a: Byte, b: Byte)
    ensures Nibbles([a, b]) == [a / 16, a % 16, b / 16, b % 16]
  {
    assert [a, b][1..] == [b];
    OneByte(b);
  }

  lemma ThreeBytes(a: Byte, b: Byte, c: Byte)
    ensures Nibbles([a, b, c]) == [a / 16, a % 16, b / 16, b % 16, c / 16, c % 16]
  {
    assert [a, b, c][1..] == [b, c];
    TwoBytes(b, c);
  }

  lemma KeyAA()
    ensures Hex([0xAA]) == [10, 10, 16]
  {
    OneByte(0xAA);
  }

  lemma Key12()
    ensures Hex([0xAA, 0x12]) == [10, 10, 1] + [2, 16] && Nibbles([0xAA, 0x12]) == [10, 10, 1] + [2]
  {
    TwoBytes(0xAA, 0x12);
  }

  lemma Key1210()
    ensures Hex([0xAA, 0x12, 0x10]) == [10, 10, 1] + [2, 1, 0, 16]
  {
    ThreeBytes(0xAA, 0x12, 0x10);
  }

  lemma Key13()
    ensures Hex([0xAA, 0x13]) == [10, 10, 1] + [3, 16]
  {
    TwoBytes(0xAA, 0x13);
  }

  lemma AfterStep(t: Tree, m: map<Bytes, Bytes>, calls: seq<Call>, i: nat)
    requires WellFormed(t, false) && i < |calls|
    ensures TreeAfter(t, calls[i..]) == TreeAfter(TreeCall(t, calls[i]), calls[i + 1..])
    ensures MapAfter(m, calls[i..]) == MapAfter(MapCall(m, calls[i]), calls[i + 1..])
  {
    assert calls[i..][1..] == calls[i + 1..];
  }

  /** The trie below AA1 with all keys put. */
  function Full(v: Bytes): Tree {
    SetChild(Fork(2, Two(v, v)), 3, Leaf([16], v))
  }

  /** The trie before each call and after the last. */
  function Stage(v: Bytes, i: nat): (t: Tree) {
    if i == 0 then Nil
    else if i == 1 then Leaf([10, 10, 16], v)
    else if i == 2 then Above(v, Leaf([2, 16], v))
    else if i == 3 then Above(v, Ext([2], Two(v, v)))
    else if i == 4 then Above(v, Full(v))
    else if i == 5 then Above(v, Fork(2, Two(v, v)))
    else Above(v, Branch(seq(BRANCH_WIDTH, j => Nil)))
  }

  lemma FirstStage(v: Bytes)
    ensures TreeCall(Nil, Calls(v)[0]) == Stage(v, 1)
  {
    KeyAA();
  }

  lemma SecondStage(v: Bytes)
    ensures WellFormed(Stage(v, 1), false) && TreeCall(Stage(v, 1), Calls(v)[1]) == Stage(v, 2)
  {
    Key12();
    PutFirst(v, v);
  }

  lemma ThirdInsert(v: Bytes)
    ensures Fits(Above(v, Leaf([2, 16], v)), Hex([0xAA, 0x12, 0x10]))
    ensures Insert(Above(v, Leaf([2, 16], v)), Hex([0xAA, 0x12, 0x10]), v) == Above(v, Ext([2], Two(v, v)))
  {
    Key1210();
    InsertAbove(v, Leaf([2, 16], v), [2, 1, 0, 16], v);
    PutSecond(v, v);
  }

  lemma ThirdStage(v: Bytes)
    ensures WellFormed(Stage(v, 2), false) && TreeCall(Stage(v, 2), Calls(v)[2]) == Stage(v, 3)
  {
    BesideWellFormed(v, Leaf([2, 16], v));
    ThirdInsert(v);
  }

  lemma FourthStage(v: Bytes)
    ensures WellFormed(Two(v, v), false)
    ensures WellFormed(Stage(v, 3), false) && TreeCall(Stage(v, 3), Calls(v)[3]) == Stage(v, 4)
  {
    Key13();
    BesideWellFormed(v, Leaf([0, 16], v));
    BesideWellFormed(v, Ext([2], Two(v, v)));
    InsertAbove(v, Ext([2], Two(v, v)), [3, 16], v);
    PutThird(Two(v, v), v);
  }

  lemma FifthStage(v: Bytes)
    ensures WellFormed(Stage(v, 4), false) && TreeCall(Stage(v, 4), Calls(v)[4]) == Stage(v, 5)
  {
    Key13();
    FourthStage(v);
    DeleteThird(Two(v, v), v);
    BesideWellFormed(v, Full(v));
    DeleteAbove(v, Full(v), [3, 16], false);
  }

  lemma LastStage(v: Bytes)
    ensures WellFormed(Stage(v, 5), false) && TreeCall(Stage(v, 5), Calls(v)[5]) == Stage(v, 6)
  {
    Key12();
    FourthStage(v);
    DeleteTwo(Two(v, v));
    BesideWellFormed(v, Fork(2, Two(v, v)));
    DeleteAbove(v, Fork(2, Two(v, v)), [2], true);
  }

  lemma {:induction false} Stages(v: Bytes, i: nat)
    requires i < 6
    ensures WellFormed(Stage(v, i), false) && TreeCall(Stage(v, i), Calls(v)[i]) == Stage(v, i + 1)
  {
    if i == 0 {
      FirstStage(v);
    } else if i == 1 {
      SecondStage(v);
    } else if i == 2 {
      ThirdStage(v);
    } else if i == 3 {
      FourthStage(v);
    } else if i == 4 {
      FifthStage(v);
    } else {
      LastStage(v);
    }
  }

  /** The deletions leave an empty branch beside the leaf of AA. */
  lemma {:induction false} AfterCalls(v: Bytes, i: nat)
    requires i <= 6
    ensures i < 6 ==> WellFormed(Stage(v, i), false)
    ensures TreeAfter(Nil, Calls(v)) == if i < 6 then TreeAfter(Stage(v, i), Calls(v)[i..]) else Stage(v, 6)
  {
    var calls := Calls(v);
    if i == 0 {
      assert calls[0..] == calls;
    } else {
      AfterCalls(v, i - 1);
      Stages(v, i - 1);
      AfterStep(Stage(v, i - 1), map[], calls, i - 1);
      if i < 6 {
        Stages(v, i);
      }
    }
  }

  /** The map before each call and after the last. */
  function MapStage(v: Bytes, i: nat): map<Bytes, Bytes> {
    if i == 0 then map[]
    else if i == 1 || i > 5 then map[[0xAA] := v]
    else if i == 2 then map[[0xAA] := v, [0xAA, 0x12] := v]
    else if i == 4 then map[[0xAA] := v, [0xAA, 0x12] := v, [0xAA, 0x12, 0x10] := v, [0xAA, 0x13] := v]
    else map[[0xAA] := v, [0xAA, 0x12] := v, [0xAA, 0x12, 0x10] := v]
  }

  lemma MapStages(v: Bytes, i: nat)
    requires i < 6
    ensures MapCall(MapStage(v, i), Calls(v)[i]) == MapStage(v, i + 1)
  {
    assert [0xAA] != [0xAA, 0x12] && [0xAA, 0x12] <= [0xAA, 0x12, 0x10];
  }

  lemma {:induction false} MapAfterCalls(v: Bytes, i: nat)
    requires i <= 6
    ensures MapAfter(map[], Calls(v)) == MapAfter(MapStage(v, i), Calls(v)[i..])
  {
    var calls := Calls(v);
    if i == 0 {
      assert calls[0..] == calls;
    } else {
      MapAfterCalls(v, i - 1);
      MapStages(v, i - 1);
      AfterStep(Nil, MapStage(v, i - 1), calls, i - 1);
    }
  }

  /** A trie in which an empty branch stands beside the leaf of AA. */
  lemma BesideEmpty(v: Bytes)
    ensures !Stocked(Stage(v, 6)) && Visible(Stage(v, 6), [10, 10, 16]).None?
  {
    var key, b := [10, 10, 16], Beside(v, Branch(seq(BRANCH_WIDTH, j => Nil)));
    assert key[2..] == [16] && [16][1..] == [];
    assert Visible(b, [16]) == Visible(b.children[16], []);
    assert Visible(Ext([10, 10], b), key) == Visible(b, key[2..]);
    assert !Stocked(b.children[1]);
  }

  lemma OnlyKeyHeld(v: Bytes)
    ensures MapAfter(map[], Calls(v)) == map[[0xAA] := v] && Holds(TreeAfter(Nil, Calls(v)), map[[0xAA] := v])
  {
    MapAfterCalls(v, 6);
    RunHolds(Nil, map[], Calls(v));
  }

  /** After that run the only stored key is AA, no other key continues it, and yet no proof can show it. */
  lemma OnlyKeyIsHidden(v: Bytes)
    ensures MapAfter(map[], Calls(v)) == map[[0xAA] := v] && Holds(TreeAfter(Nil, Calls(v)), map[[0xAA] := v])
    ensures EndsInBranch(TreeAfter(Nil, Calls(v)), Hex([0xAA])) && !Stocked(TreeAfter(Nil, Calls(v)))
  {
    OnlyKeyHeld(v);
    AfterCalls(v, 6);
    var t, key := TreeAfter(Nil, Calls(v)), Hex([0xAA]);
    assert Visible(t, key).None? && !Stocked(t) by {
      KeyAA();
      BesideEmpty(v);
    }
    assert Lookup(t, key).Some? by {
      HeldIffPresent(t, map[[0xAA] := v], [0xAA]);
    }
    HiddenIffEndsInBranch(t, key);
  }
}
