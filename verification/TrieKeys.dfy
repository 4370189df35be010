/** Nibble keys of the trie (trie/trie.go: keybytesToHex, matchkeyLen). */
module TrieKeys {
  import opened Common

  /** numBranchChildren: sixteen nibbles and one slot for the terminator. */
  const BRANCH_WIDTH: nat := 17

  /** The value that ends every full key. */
  const TERMINATOR: Byte := 16

  type Key = seq<Byte>

  /** The nibbles of a byte string, without a terminator. */
  function Nibbles(str: Bytes): (key: Key)
    ensures |key| == 2 * |str|
    ensures forall i :: 0 <= i < |key| ==> key[i] < 16
  {
    if str == [] then [] else [str[0] / 16, str[0] % 16] + Nibbles(str[1..])
  }

  /** The full key of a byte string. */
  function Hex(str: Bytes): (key: Key)
    ensures Terminated(key)
  {
    Nibbles(str) + [TERMINATOR]
  }

  /** A non-empty run of nibbles closed by the only terminator. */
  predicate Terminated(key: Key) {
    && |key| > 0
    && key[|key| - 1] == TERMINATOR
    && forall i :: 0 <= i < |key| - 1 ==> key[i] < 16
  }

  /** What is left of a full key somewhere on its way down: terminated, or used up. */
  predicate KeyRest(key: Key) {
    key == [] || Terminated(key)
  }

  lemma {:induction false} NibblesAt(str: Bytes, i: nat)
    requires i < |str|
    ensures Nibbles(str)[2 * i] == str[i] / 16
    ensures Nibbles(str)[2 * i + 1] == str[i] % 16
  {
    if i > 0 {
      NibblesAt(str[1..], i - 1);
    }
  }

  lemma {:induction false} NibblesConcat(a: Bytes, b: Bytes)
    ensures Nibbles(a + b) == Nibbles(a) + Nibbles(b)
  {
    if a == [] {
      assert a + b == b;
    } else {
      assert (a + b)[1..] == a[1..] + b;
      NibblesConcat(a[1..], b);
    }
  }

  /** Nibble prefixes of full keys are exactly the byte prefixes. */
  lemma {:induction false} PrefixIffBytePrefix(p: Bytes, str: Bytes)
    ensures Nibbles(p) <= Hex(str) <==> p <= str
  {
    if p <= str {
      assert str == p + str[|p|..];
      NibblesConcat(p, str[|p|..]);
    }
    if Nibbles(p) <= Hex(str) {
      assert forall i :: 0 <= i < |Nibbles(p)| ==> Nibbles(p)[i] == Hex(str)[i];
      assert |p| <= |str|;
      forall i | 0 <= i < |p| ensures p[i] == str[i] {
        NibblesAt(p, i);
        NibblesAt(str, i);
        assert Nibbles(p)[2 * i] == Hex(str)[2 * i];
        assert Nibbles(p)[2 * i + 1] == Hex(str)[2 * i + 1];
      }
    }
  }

  lemma {:induction false} HexInjective(a: Bytes, b: Bytes)
    requires Hex(a) == Hex(b)
    ensures a == b
  {
    assert Nibbles(a) == Hex(a)[..|Hex(a)| - 1];
    assert Nibbles(b) == Hex(b)[..|Hex(b)| - 1];
    PrefixIffBytePrefix(a, b);
    PrefixIffBytePrefix(b, a);
  }

  /** keybytesToHex fills its buffer two nibbles at a time. */
  method KeyBytesToHex(str: Bytes) returns (key: Key)
    ensures key == Hex(str)
    ensures |key| == 2 * |str| + 1 && key[2 * |str|] == 16
    ensures forall i :: 0 <= i < |str| ==> key[2 * i] == str[i] / 16 && key[2 * i + 1] == str[i] % 16
  {
    key := [];
    for i := 0 to |str|
      invariant key == Nibbles(str[..i])
    {
      assert str[..i + 1] == str[..i] + [str[i]];
      NibblesConcat(str[..i], [str[i]]);
      key := key + [str[i] / 16, str[i] % 16];
    }
    assert str[..|str|] == str;
    forall i | 0 <= i < |str| ensures key[2 * i] == str[i] / 16 && key[2 * i + 1] == str[i] % 16 {
      NibblesAt(str, i);
    }
    key := key + [TERMINATOR];
  }

  /** Length of the longest common prefix. */
  function MatchLen(a: Key, b: Key): (n: nat)
    ensures n <= |a| && n <= |b|
    ensures a[..n] == b[..n]
    ensures n < |a| && n < |b| ==> a[n] != b[n]
  {
    if a == [] || b == [] || a[0] != b[0] then 0
    else
      var n := MatchLen(a[1..], b[1..]);
      assert a[..n + 1] == [a[0]] + a[1..][..n];
      assert b[..n + 1] == [b[0]] + b[1..][..n];
      n + 1
  }

  lemma MatchLenUnique(a: Key, b: Key, n: nat)
    requires n <= |a| && n <= |b|
    requires a[..n] == b[..n]
    requires n < |a| && n < |b| ==> a[n] != b[n]
    ensures n == MatchLen(a, b)
  {
    var m := MatchLen(a, b);
    assert forall i :: 0 <= i < m ==> a[i] == a[..m][i] == b[i];
    assert forall i :: 0 <= i < n ==> a[i] == a[..n][i] == b[i];
  }

  /** matchkeyLen stops at the first difference or at the end of the shorter key. */
  method MatchKeyLen(a: Key, b: Key) returns (n: nat)
    ensures n == MatchLen(a, b)
  {
    var length := |a|;
    if |b| < length {
      length := |b|;
    }
    n := 0;
    while n < length
      invariant n <= length
      invariant a[..n] == b[..n]
    {
      if a[n] != b[n] {
        break;
      }
      n := n + 1;
    }
    MatchLenUnique(a, b, n);
  }
}
