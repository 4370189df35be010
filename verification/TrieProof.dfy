/** Merkle proofs (trie/proof.go): soundness for every proof map, completeness and its exact limit. */
module TrieProof {
  import opened Common
  import opened TrieKeys
  import opened TrieTree
  import opened TrieCodec
  import opened TrieCanonical

  type Proof = map<Bytes, Item>

  /** Outcome of VerifyProof: an error, "the trie does not contain the key", or a value. */
  datatype Verdict = Error | Absent | Value(value: Bytes)

  /** Where one node sends a key. */
  datatype Step = Nowhere | Found(value: Bytes) | Below(rest: Key, hash: Bytes)

  /** A node during the walk of `get`: decoded, only known by its hash, or missing. */
  datatype Place = Here(node: Shallow) | ByHash(hash: Bytes) | Missing

  /** The answer of `get` for one decoded node; a used-up key leads nowhere. */
  function StepFrom(n: Shallow, key: Key): Step {
    if key == [] then Nowhere
    else match n
      case SLeaf(k, v) => if k <= key then Found(v) else Nowhere
      case SExt(k, h) => if !(k <= key) || |k| == |key| then Nowhere else Below(key[|k|..], h)
      case SBranch(c) =>
        if key[0] >= |c| || c[key[0]] == [] || |key| == 1 then Nowhere else Below(key[1..], c[key[0]])
  }

  method Get(n: Shallow, key: Key) returns (s: Step)
    requires n.SBranch? ==> |n.children| == BRANCH_WIDTH
    requires forall i :: 0 <= i < |key| ==> key[i] < BRANCH_WIDTH
    ensures s == StepFrom(n, key)
  {
    var tn, rest := Here(n), key;
    while true
      invariant tn.Here? ==> tn.node == n && rest == key
      invariant !tn.Here? ==> StepFrom(n, key) == if rest == [] || tn.Missing? then Nowhere else Below(rest, tn.hash)
      decreases tn.Here?
    {
      if rest == [] {
        return Nowhere;
      }
      match tn
      case ByHash(h) => return Below(rest, h);
      case Missing => return Nowhere;
      case Here(SLeaf(k, v)) =>
        if k <= rest {
          return Found(v);
        }
        return Nowhere;
      case Here(SExt(k, h)) =>
        if !(k <= rest) {
          return Nowhere;
        }
        tn, rest := ByHash(h), rest[|k|..];
      case Here(SBranch(c)) =>
        tn, rest := if c[rest[0]] == [] then Missing else ByHash(c[rest[0]]), rest[1..];
    }
  }

  /**
    The value a proof can show. It differs from Lookup only at a leaf reached through the terminator slot
    of a branch: there the key is used up before the leaf's hash is followed.
   */
  function Visible(t: Tree, key: Key): Option<Bytes> {
    if key == [] then None
    else match t
      case Nil => None
      case Leaf(k, v) => if k <= key then Some(v) else None
      case Ext(k, n) => if k <= key then Visible(n, key[|k|..]) else None
      case Branch(c) => if key[0] >= |c| then None else Visible(c[key[0]], key[1..])
  }

  /** The nodes GetProof collects. */
  function Path(t: Tree, key: Key): (nodes: seq<Tree>)
    ensures forall n :: n in nodes ==> !n.Nil?
  {
    if key == [] then []
    else match t
      case Nil => []
      case Leaf(k, _) => if k <= key then [t] else []
      case Ext(k, n) => [t] + if k <= key then Path(n, key[|k|..]) else []
      case Branch(c) => [t] + if key[0] >= |c| then [] else Path(c[key[0]], key[1..])
  }

  /** The node that the nibbles `p` lead to, when one stands exactly there. */
  function NodeAt(t: Tree, p: Key): Tree
    decreases t
  {
    if p == [] then t
    else match t
      case Nil => Nil
      case Leaf(_, _) => Nil
      case Ext(k, n) => if k <= p then NodeAt(n, p[|k|..]) else Nil
      case Branch(c) => if p[0] >= |c| then Nil else NodeAt(c[p[0]], p[1..])
  }

  /** `n` stands on the way of the key, before its end; a leaf is there only when it ends the key. */
  ghost predicate OnTheWay(t: Tree, key: Key, n: Tree, i: nat) {
    i < |key| && n == NodeAt(t, key[..i]) && !n.Nil? && (n.Leaf? ==> n.key <= key[i..])
  }

  /** Below the first `m` nibbles of the key stands `child`, and no other node on the way to it but the root. */
  ghost predicate StepsTo(t: Tree, key: Key, m: nat, child: Tree) {
    && 0 < m <= |key|
    && (forall i :: 0 < i < m ==> NodeAt(t, key[..i]).Nil?)
    && (forall i :: m <= i < |key| ==> NodeAt(t, key[..i]) == NodeAt(child, key[m..][..i - m]))
  }

  lemma WayBelow(t: Tree, key: Key, m: nat, child: Tree, n: Tree)
    requires StepsTo(t, key, m, child)
    ensures (exists i :: OnTheWay(t, key, n, i)) <==>
      OnTheWay(t, key, n, 0) || exists j :: OnTheWay(child, key[m..], n, j)
  {
    if i: nat :| OnTheWay(t, key, n, i) && i > 0 {
      assert m <= i;
      assert key[i..] == key[m..][i - m..];
      assert OnTheWay(child, key[m..], n, i - m);
    }
    if j: nat :| OnTheWay(child, key[m..], n, j) {
      assert key[m + j..] == key[m..][j..] && m + j - m == j;
      assert OnTheWay(t, key, n, m + j);
    }
  }

  lemma ExtSteps(t: Tree, key: Key)
    requires t.Ext? && t.key != [] && t.key <= key
    ensures StepsTo(t, key, |t.key|, t.next)
  {
    var m := |t.key|;
    forall i | m <= i < |key| ensures NodeAt(t, key[..i]) == NodeAt(t.next, key[m..][..i - m]) {
      assert t.key <= key[..i] && key[..i][m..] == key[m..][..i - m];
    }
  }

  lemma BranchSteps(t: Tree, key: Key)
    requires t.Branch? && key != [] && key[0] < |t.children|
    ensures StepsTo(t, key, 1, t.children[key[0]])
  {
    forall i | 1 <= i < |key| ensures NodeAt(t, key[..i]) == NodeAt(t.children[key[0]], key[1..][..i - 1]) {
      assert key[..i][1..] == key[1..][..i - 1];
    }
  }

  /** A key that leaves the tree at its root passes no other node. */
  lemma EndsAtRoot(t: Tree, key: Key, n: Tree)
    requires t.Nil? || t.Leaf? || (t.Ext? && !(t.key <= key)) || (t.Branch? && key != [] && key[0] >= |t.children|)
    ensures (exists i :: OnTheWay(t, key, n, i)) <==> OnTheWay(t, key, n, 0)
  {
    forall i | 0 < i < |key| ensures NodeAt(t, key[..i]).Nil? {
      assert key == key[..i] + key[i..];
    }
  }

  /** The nodes that GetProof collects are exactly those on the way of the key. */
  lemma {:induction false} PathIsWay(t: Tree, key: Key, n: Tree, done: bool)
    requires WellFormed(t, done)
    ensures n in Path(t, key) <==> exists i :: OnTheWay(t, key, n, i)
    decreases t
  {
    assert key != [] ==> key[..0] == [] && key[0..] == key;
    if key != [] && t.Ext? && t.key <= key {
      ExtSteps(t, key);
      WayBelow(t, key, |t.key|, t.next, n);
      PathIsWay(t.next, key[|t.key|..], n, false);
    } else if key != [] && t.Branch? && key[0] < |t.children| {
      BranchSteps(t, key);
      WayBelow(t, key, 1, t.children[key[0]], n);
      PathIsWay(t.children[key[0]], key[1..], n, key[0] == TERMINATOR);
    } else if key != [] {
      EndsAtRoot(t, key, n);
    }
  }

  /** The proof map made from a list of nodes. */
  function ProofOf(cc: Codec, nodes: seq<Tree>): Proof
    requires forall n :: n in nodes ==> !n.Nil?
  {
    if nodes == [] then map[]
    else
      var n := nodes[|nodes| - 1];
      ProofOf(cc, nodes[..|nodes| - 1])[HashOf(cc, n) := Encode(cc, n)]
  }

  /** The walk of GetProof so far: the listed nodes, their proof, and what is still to come of the path. */
  ghost predicate Collected(cc: Codec, path: seq<Tree>, nodes: seq<Tree>, proof: Proof, rest: seq<Tree>) {
    path == nodes + rest && (forall n :: n in nodes ==> !n.Nil?) && proof == ProofOf(cc, nodes)
  }

  /** Listing one more node. */
  lemma CollectNode(cc: Codec, path: seq<Tree>, nodes: seq<Tree>, proof: Proof, n: Tree, rest: seq<Tree>)
    requires !n.Nil? && Collected(cc, path, nodes, proof, [n] + rest)
    ensures Collected(cc, path, nodes + [n], proof[HashOf(cc, n) := Encode(cc, n)], rest)
  {
    assert (nodes + [n])[..|nodes|] == nodes;
    assert nodes + ([n] + rest) == nodes + [n] + rest;
  }

  /** The proof map has the true encoding of every node on the way to the key. */
  predicate Covers(cc: Codec, t: Tree, key: Key, proof: Proof) {
    forall n :: n in Path(t, key) ==> HashOf(cc, n) in proof && proof[HashOf(cc, n)] == Encode(cc, n)
  }

  /** No entry of the proof decodes to a node that collides with a node of the trie. */
  ghost predicate CollisionFree(cc: Codec, t: Tree, proof: Proof) {
    forall k, x :: k in proof && x in Nodes(cc, t) ==> NoCollision(cc, proof[k], x)
  }

  predicate NoCollision(cc: Codec, e: Item, x: Item) {
    match DecodeNode(cc.parse, e)
    case None => true
    case Some(s) => cc.hash(EncodeShallow(s)) == cc.hash(x) ==> EncodeShallow(s) == x
  }

  /** Go's copy into a fixed-size hash. */
  function CopyInto(dst: Hash, src: Bytes): Hash {
    if |src| >= HASH_LENGTH then src[..HASH_LENGTH] else src + dst[|src|..]
  }

  /** The subtree a step leads to. */
  function Descend(t: Tree, key: Key): Tree
    requires key != [] && (t.Ext? || (t.Branch? && key[0] < |t.children|))
  {
    if t.Ext? then t.next else t.children[key[0]]
  }

  /** One step of the verifier on a genuine node follows the trie. */
  lemma StepFollows(cc: Codec, t: Tree, key: Key)
    requires WellFormed(t, false) && !t.Nil? && Terminated(key)
    ensures match StepFrom(ShallowOf(cc, t), key)
            case Nowhere => Visible(t, key) == None
            case Found(v) => Visible(t, key) == Some(v)
            case Below(rest, h) =>
              && (t.Ext? || t.Branch?)
              && var t' := Descend(t, key);
                 && !t'.Nil? && h == HashOf(cc, t') && WellFormed(t', false) && Terminated(rest)
                 && Visible(t, key) == Visible(t', rest) && Path(t, key) == [t] + Path(t', rest)
                 && Lookup(t, key) == Lookup(t', rest)
  {
    if t.Ext? {
      NibblesDiverge(t.key, key);
    } else if t.Branch? && |key| > 1 {
      assert key[0] < 16;
      assert WellFormed(t.children[key[0]], false);
      assert Terminated(key[1..]);
    }
  }

  lemma DescendNodes(cc: Codec, t: Tree, key: Key)
    requires key != [] && (t.Ext? || (t.Branch? && key[0] < |t.children|))
    ensures Nodes(cc, Descend(t, key)) <= Nodes(cc, t)
  {
  }

  /** A proof entry that passes the hash check of VerifyProof is the genuine node. */
  lemma CheckedIsGenuine(cc: Codec, t: Tree, proof: Proof, k: Bytes, s: Shallow)
    requires !t.Nil? && k in proof && CollisionFree(cc, t, proof)
    requires DecodeNode(cc.parse, proof[k]) == Some(s)
    requires cc.hash(EncodeShallow(s)) == HashOf(cc, t)
    ensures s == ShallowOf(cc, t)
  {
    assert Encode(cc, t) in Nodes(cc, t);
    assert NoCollision(cc, proof[k], Encode(cc, t));
    EncodeInjective(s, ShallowOf(cc, t));
  }

  /** A covered genuine node is found and decodes to itself. */
  lemma CoveredDecodes(cc: Codec, t: Tree, key: Key, proof: Proof)
    requires WellFormed(t, false) && Covers(cc, t, key, proof) && key != [] && Lookup(t, key).Some?
    ensures HashOf(cc, t) in proof && DecodeNode(cc.parse, proof[HashOf(cc, t)]) == Some(ShallowOf(cc, t))
  {
    assert t == Path(t, key)[0];
    DecodeEncode(cc.parse, ShallowOf(cc, t));
  }

  /** The verifier stands at `cur` with `key` left, on its way to `full` in `t`. */
  ghost predicate Tracks(cc: Codec, t: Tree, full: Key, cur: Tree, key: Key, proof: Proof) {
    && WellFormed(cur, false) && !cur.Nil? && Terminated(key)
    && CollisionFree(cc, cur, proof)
    && Visible(cur, key) == Visible(t, full) && Lookup(cur, key) == Lookup(t, full)
    && (Covers(cc, t, full, proof) ==> Covers(cc, cur, key, proof))
  }

  lemma TracksBelow(cc: Codec, t: Tree, full: Key, cur: Tree, key: Key, proof: Proof)
    requires Tracks(cc, t, full, cur, key, proof)
    requires StepFrom(ShallowOf(cc, cur), key).Below?
    ensures cur.Ext? || cur.Branch?
    ensures Descend(cur, key) < cur
    ensures var s := StepFrom(ShallowOf(cc, cur), key);
            Tracks(cc, t, full, Descend(cur, key), s.rest, proof) && s.hash == HashOf(cc, Descend(cur, key))
  {
    StepFollows(cc, cur, key);
    DescendNodes(cc, cur, key);
    var rest := StepFrom(ShallowOf(cc, cur), key).rest;
    assert forall n :: n in Path(Descend(cur, key), rest) ==> n in Path(cur, key);
  }

  /** The checks VerifyProof makes on one entry: present, decodable, and hashing to the wanted hash. */
  method CheckedNode(cc: Codec, wantHash: Hash, proof: Proof) returns (n: Option<Shallow>)
    ensures n.Some? <==>
            && wantHash in proof && DecodeNode(cc.parse, proof[wantHash]).Some?
            && cc.hash(EncodeShallow(DecodeNode(cc.parse, proof[wantHash]).value)) == wantHash
    ensures n.Some? ==> n == DecodeNode(cc.parse, proof[wantHash])
  {
    if wantHash !in proof {
      return None;
    }
    n := DecodeNode(cc.parse, proof[wantHash]);
    if n.Some? && cc.hash(EncodeShallow(n.value)) != wantHash {
      n := None;
    }
  }

  /** What a checked node tells the verifier. */
  lemma CheckedTells(cc: Codec, t: Tree, full: Key, cur: Tree, key: Key, proof: Proof, n: Shallow)
    requires Tracks(cc, t, full, cur, key, proof) && HashOf(cc, cur) in proof
    requires DecodeNode(cc.parse, proof[HashOf(cc, cur)]) == Some(n)
    requires cc.hash(EncodeShallow(n)) == HashOf(cc, cur)
    ensures n == ShallowOf(cc, cur)
    ensures StepFrom(n, key).Nowhere? ==> Visible(t, full) == None
    ensures StepFrom(n, key).Found? ==> Visible(t, full) == Some(StepFrom(n, key).value)
  {
    CheckedIsGenuine(cc, cur, proof, HashOf(cc, cur), n);
    StepFollows(cc, cur, key);
  }

  /** What VerifyProof may answer about `full` in `t`. */
  ghost predicate Honest(cc: Codec, t: Tree, full: Key, proof: Proof, r: Verdict) {
    match r
    case Value(v) => Visible(t, full) == Some(v)
    case Absent => Visible(t, full) == None
    case Error => !Covers(cc, t, full, proof) || Lookup(t, full).None?
  }

  /** One round of the loop: a verdict, or the hash and key to go on with. */
  method VerifyNode(cc: Codec, wantHash: Hash, key: Key, proof: Proof, ghost t: Tree, ghost full: Key, ghost cur: Tree)
    returns (r: Option<Verdict>, rest: Key, next: Hash)
    requires Tracks(cc, t, full, cur, key, proof) && wantHash == HashOf(cc, cur)
    ensures r.Some? ==> Honest(cc, t, full, proof, r.value)
    ensures r.None? ==> cur.Ext? || cur.Branch?
    ensures r.None? ==> Tracks(cc, t, full, Descend(cur, key), rest, proof) && next == HashOf(cc, Descend(cur, key))
    ensures r.None? ==> Descend(cur, key) < cur
  {
    rest, next := key, wantHash;
    if Covers(cc, t, full, proof) && Lookup(t, full).Some? {
      CoveredDecodes(cc, cur, key, proof);
    }
    var n := CheckedNode(cc, wantHash, proof);
    if n.None? {
      return Some(Error), rest, next;
    }
    DecodeProper(cc.parse, proof[wantHash]);
    CheckedTells(cc, t, full, cur, key, proof, n.value);
    var step := Get(n.value, key);
    match step
    case Nowhere => r := Some(Absent);
    case Found(v) => r := Some(Value(v));
    case Below(below, h) =>
      TracksBelow(cc, t, full, cur, key, proof);
      r, rest, next := None, below, CopyInto(wantHash, h);
  }

  /**
    VerifyProof for the root hash of a non-empty trie `t` and any proof map: a value is the value `t`
    holds, absence means the trie shows none, and a proof that covers a stored key never fails.
   */
  method VerifyProof(cc: Codec, rootHash: Hash, keyBytes: Bytes, proof: Proof, ghost t: Tree) returns (r: Verdict)
    requires WellFormed(t, false) && !t.Nil? && rootHash == HashOf(cc, t) && CollisionFree(cc, t, proof)
    ensures r.Value? ==> Lookup(t, Hex(keyBytes)) == Some(r.value)
    ensures Honest(cc, t, Hex(keyBytes), proof, r)
  {
    var key := KeyBytesToHex(keyBytes);
    var wantHash := rootHash;
    ghost var cur := t;
    ghost var full := key;
    VisibleIsLookup(t, full);
    while true
      invariant Tracks(cc, t, full, cur, key, proof) && wantHash == HashOf(cc, cur)
      decreases cur
    {
      var verdict, rest, next := VerifyNode(cc, wantHash, key, proof, t, full, cur);
      if verdict.Some? {
        return verdict.value;
      }
      cur := Descend(cur, key);
      key, wantHash := rest, next;
    }
  }

  /** What a proof shows is in the trie. */
  lemma {:induction false} VisibleIsLookup(t: Tree, key: Key)
    ensures Visible(t, key).Some? ==> Lookup(t, key) == Visible(t, key)
    decreases t
  {
    if key != [] {
      match t
      case Nil =>
      case Leaf(k, v) =>
      case Ext(k, n) =>
        if k <= key {
          VisibleIsLookup(n, key[|k|..]);
        }
      case Branch(c) =>
        if key[0] < |c| {
          VisibleIsLookup(c[key[0]], key[1..]);
        }
    }
  }

  /** Another stored key continues `key` after dropping its terminator. */
  ghost predicate Continues(t: Tree, key: Key, other: Key)
    requires key != []
  {
    Terminated(other) && other != key && key[..|key| - 1] <= other && Lookup(t, other).Some?
  }

  /** A stored key that some other stored key continues cannot be shown. */
  lemma {:induction false} ContinuedIsHidden(t: Tree, key: Key, other: Key)
    requires WellFormed(t, false) && Terminated(key) && Lookup(t, key).Some? && Continues(t, key, other)
    ensures Visible(t, key).None?
    decreases t
  {
    match t
    case Leaf(k, v) =>
      RestsDiverge(k, key);
      RestsDiverge(k, other);
    case Ext(k, n) =>
      NibblesDiverge(k, key);
      NibblesDiverge(k, other);
      PrefixCancels(k, key, other);
      ContinuesBelow(k, key, other);
      ContinuedIsHidden(n, key[|k|..], other[|k|..]);
    case Branch(c) =>
      if |key| > 1 {
        ContinuesBelow([key[0]], key, other);
        ContinuedIsHidden(c[key[0]], key[1..], other[1..]);
      }
  }

  lemma ContinuesBelow(k: Key, key: Key, other: Key)
    requires Terminated(key) && Terminated(other) && k <= key && |k| < |key|
    requires key[..|key| - 1] <= other && other != key
    ensures k <= other && |k| < |other|
    ensures key[|k|..][..|key| - |k| - 1] <= other[|k|..]
    ensures other[|k|..] != key[|k|..]
    ensures Terminated(key[|k|..]) && Terminated(other[|k|..])
  {
    assert k == key[..|k|] == key[..|key| - 1][..|k|];
    assert key[|k|..][..|key| - |k| - 1] == key[..|key| - 1][|k|..];
    assert forall i :: 0 <= i < |key| - 1 ==> other[i] == key[..|key| - 1][i] < 16;
    PrefixCancels(k, key, other);
  }

  /** The path of the key ends in a branch, whose terminator slot has the leaf. */
  predicate EndsInBranch(t: Tree, key: Key) {
    var path := Path(t, key);
    path != [] && path[|path| - 1].Branch?
  }

  /** In every trie, a stored key cannot be shown exactly when its path ends in a branch. */
  lemma {:induction false} HiddenIffEndsInBranch(t: Tree, key: Key)
    requires WellFormed(t, false) && Terminated(key) && Lookup(t, key).Some?
    ensures Path(t, key) != []
    ensures Visible(t, key).None? <==> EndsInBranch(t, key)
    decreases t
  {
    match t
    case Leaf(k, v) =>
    case Ext(k, n) =>
      NibblesDiverge(k, key);
      HiddenIffEndsInBranch(n, key[|k|..]);
    case Branch(c) =>
      RestOfKey(key);
      if |key| > 1 {
        assert WellFormed(c[key[0]], false);
        HiddenIffEndsInBranch(c[key[0]], key[1..]);
      }
  }

  /** In a stocked trie a stored key that cannot be shown is continued by another stored key. */
  lemma {:induction false} HiddenIsContinued(t: Tree, key: Key) returns (other: Key)
    requires WellFormed(t, false) && Stocked(t) && Terminated(key)
    requires Lookup(t, key).Some? && Visible(t, key).None?
    ensures Continues(t, key, other)
    decreases t
  {
    match t
    case Ext(k, n) =>
      NibblesDiverge(k, key);
      var rest := HiddenIsContinued(n, key[|k|..]);
      ContinuesAbove(k, key, rest);
      other := k + rest;
    case Branch(c) =>
      if |key| == 1 {
        other := BesideTerminator(c);
      } else {
        var rest := HiddenIsContinued(c[key[0]], key[1..]);
        ContinuesAbove([key[0]], key, rest);
        other := [key[0]] + rest;
      }
  }

  /** A stocked branch with a leaf in its terminator slot has another child. */
  lemma BesideTerminator(c: seq<Tree>) returns (other: Key)
    requires WellFormed(Branch(c), false) && Stocked(Branch(c)) && !c[TERMINATOR].Nil?
    ensures Terminated(other) && other[0] != TERMINATOR && Lookup(Branch(c), other).Some?
  {
    if Count(c) == 1 {
      CountOne(c);
      assert WellFormed(c[TERMINATOR], true);
    }
    var i, _ := TwoSlots(c);
    other := SlotKey(c, i);
  }

  lemma ContinuesAbove(k: Key, key: Key, rest: Key)
    requires Terminated(key) && k <= key && |k| < |key| && Terminated(rest)
    requires rest != key[|k|..] && key[|k|..][..|key| - |k| - 1] <= rest
    ensures Terminated(k + rest) && k + rest != key && key[..|key| - 1] <= k + rest
    ensures (k + rest)[|k|..] == rest
  {
    assert key == k + key[|k|..];
    assert (k + rest)[|k|..] == rest;
    assert key[..|key| - 1] == k + key[|k|..][..|key| - |k| - 1];
  }

  /** In a stocked trie the hidden stored keys are exactly the strict prefixes of other stored keys. */
  lemma HiddenIffStrictPrefix(t: Tree, m: map<Bytes, Bytes>, k: Bytes)
    requires WellFormed(t, false) && Stocked(t) && Holds(t, m) && k in m
    ensures Visible(t, Hex(k)).None? <==> exists s :: s in m && s != k && k <= s
  {
    assert Hex(k)[..|Hex(k)| - 1] == Nibbles(k);
    if Visible(t, Hex(k)).None? {
      var other := HiddenIsContinued(t, Hex(k));
      var s :| s in m && Hex(s) == other;
      PrefixIffBytePrefix(k, s);
    }
    if s :| s in m && s != k && k <= s {
      PrefixIffBytePrefix(k, s);
      if Hex(s) == Hex(k) {
        HexInjective(s, k);
      }
      ContinuedIsHidden(t, Hex(k), Hex(s));
    }
  }

  /** Different encodings in the set hash differently. */
  ghost predicate InjectiveOn(cc: Codec, items: set<Item>) {
    forall x, y :: x in items && y in items && cc.hash(x) == cc.hash(y) ==> x == y
  }

  lemma {:induction false} PathInNodes(cc: Codec, t: Tree, key: Key)
    ensures forall n :: n in Path(t, key) ==> Encode(cc, n) in Nodes(cc, t)
    decreases t
  {
    if key != [] {
      match t
      case Nil =>
      case Leaf(k, v) =>
      case Ext(k, n) =>
        if k <= key {
          PathInNodes(cc, n, key[|k|..]);
        }
      case Branch(c) =>
        if key[0] < |c| {
          PathInNodes(cc, c[key[0]], key[1..]);
        }
    }
  }

  lemma {:induction false} ProofOfHas(cc: Codec, nodes: seq<Tree>, items: set<Item>)
    requires forall n :: n in nodes ==> !n.Nil? && Encode(cc, n) in items
    requires InjectiveOn(cc, items)
    ensures forall n :: n in nodes ==>
      HashOf(cc, n) in ProofOf(cc, nodes) && ProofOf(cc, nodes)[HashOf(cc, n)] == Encode(cc, n)
    ensures forall k :: k in ProofOf(cc, nodes) ==> ProofOf(cc, nodes)[k] in items
  {
    if nodes != [] {
      var front, last := nodes[..|nodes| - 1], nodes[|nodes| - 1];
      assert nodes == front + [last];
      ProofOfHas(cc, front, items);
    }
  }

  /** The proof GetProof builds covers its key. */
  lemma GetProofCovers(cc: Codec, t: Tree, key: Key)
    requires InjectiveOn(cc, Nodes(cc, t))
    ensures Covers(cc, t, key, ProofOf(cc, Path(t, key)))
  {
    PathInNodes(cc, t, key);
    ProofOfHas(cc, Path(t, key), Nodes(cc, t));
  }

  lemma OwnProofCollisionFree(cc: Codec, t: Tree, key: Key)
    requires WellFormed(t, false) && InjectiveOn(cc, Nodes(cc, t))
    ensures CollisionFree(cc, t, ProofOf(cc, Path(t, key)))
  {
    PathInNodes(cc, t, key);
    ProofOfHas(cc, Path(t, key), Nodes(cc, t));
    var proof := ProofOf(cc, Path(t, key));
    forall k, x | k in proof && x in Nodes(cc, t) ensures NoCollision(cc, proof[k], x) {
      NodesDecode(cc, t, false, proof[k]);
    }
  }

  /** Every node encoding of a trie decodes to a node with the same encoding. */
  lemma {:induction false} NodesDecode(cc: Codec, t: Tree, done: bool, e: Item)
    requires WellFormed(t, done) && e in Nodes(cc, t)
    ensures DecodeNode(cc.parse, e).Some? && EncodeShallow(DecodeNode(cc.parse, e).value) == e
    decreases t
  {
    if e == Encode(cc, t) {
      DecodeEncode(cc.parse, ShallowOf(cc, t));
    } else if t.Ext? {
      NodesDecode(cc, t.next, false, e);
    } else if t.Branch? {
      var i :| 0 <= i < |t.children| && e in Nodes(cc, t.children[i]);
      NodesDecode(cc, t.children[i], i == TERMINATOR, e);
    }
  }

  /**
    A stored key verified against the trie's own proof gives its value, unless its path ends in a branch: then,
    and only then, the verifier calls it absent. In a stocked trie those are the strict prefixes of other stored keys.
   */
  method VerifyOwnProof(cc: Codec, t: Tree, m: map<Bytes, Bytes>, k: Bytes) returns (r: Verdict)
    requires WellFormed(t, false) && Holds(t, m) && k in m
    requires InjectiveOn(cc, Nodes(cc, t))
    ensures r == if EndsInBranch(t, Hex(k)) then Absent else Value(m[k])
    ensures Stocked(t) ==> r == if exists s :: s in m && s != k && k <= s then Absent else Value(m[k])
  {
    GetProofCovers(cc, t, Hex(k));
    OwnProofCollisionFree(cc, t, Hex(k));
    HiddenIffEndsInBranch(t, Hex(k));
    if Stocked(t) {
      HiddenIffStrictPrefix(t, m, k);
    }
    r := VerifyProof(cc, HashOf(cc, t), k, ProofOf(cc, Path(t, Hex(k))), t);
  }
}
