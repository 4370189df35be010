/** The trie as it lives in memory: nodes updated in place, lazily loaded, with cached hashes. */
module TrieNodes {
  import opened Common
  import opened TrieKeys
  import T = TrieTree
  import P = TrieProof
  import opened TrieCodec

  type Tree = T.Tree

  /** nodeStatusDirty, nodeStatusUpdated, nodeStatusPersisted. */
  datatype Status = Dirty | Updated | Persisted

  datatype Kind = LeafKind | ExtKind | BranchKind

  /** The `noder` interface: nothing, a hash not loaded yet, or a node in memory. */
  datatype Noder = NoNode | HashNode(hash: Bytes) | At(node: TrieNode)

  /** What a node's cached fields refer to: the database, and the database once staged batches are applied. */
  datatype World = World(cc: Codec, db: Database, store: Database)

  /** A cached hash is right, and a persisted node is stored with everything below it. */
  ghost predicate StatusOk(w: World, status: Status, hash: Bytes, t: Tree) {
    && (status != Dirty ==> hash == HashOf(w.cc, t))
    && (status == Persisted ==> Stored(w.cc, w.store, t))
  }

  class TrieNode {
    var kind: Kind
    var hash: Bytes
    var status: Status
    var key: Key
    var value: Bytes
    var next: Noder
    var children: seq<Noder>

    ghost var tree: Tree
    ghost var repr: set<TrieNode>

    constructor Leaf(key: Key, value: Bytes, ghost w: World)
      ensures Valid(w)
      ensures kind == LeafKind && this.key == key && this.value == value && status == Dirty
      ensures tree == T.Leaf(key, value) && repr == {this}
    {
      this.kind, this.hash, this.status, this.key, this.value, this.next, this.children :=
        LeafKind, [], Dirty, key, value, NoNode, [];
      this.tree, this.repr := T.Leaf(key, value), {this};
    }

    constructor Ext(key: Key, next: Noder, ghost t: Tree, ghost w: World)
      requires Sound(w, next, t)
      ensures Valid(w)
      ensures kind == ExtKind && this.key == key && this.next == next && status == Dirty
      ensures tree == T.Ext(key, t) && repr == {this} + ReprOf(next)
    {
      this.kind, this.hash, this.status, this.key, this.value, this.next, this.children :=
        ExtKind, [], Dirty, key, [], next, [];
      this.tree, this.repr := T.Ext(key, t), {this} + ReprOf(next);
    }

    /** A new branch with two occupied slots. */
    constructor Branch(i: Byte, a: Noder, j: Byte, b: Noder, ghost s: Tree, ghost t: Tree, ghost w: World)
      requires i < BRANCH_WIDTH && j < BRANCH_WIDTH && i != j
      requires Sound(w, a, s) && Sound(w, b, t) && ReprOf(a) !! ReprOf(b)
      ensures Valid(w) && kind == BranchKind && status == Dirty
      ensures tree == T.SetChild(T.Fork(i, s), j, t) && repr == {this} + ReprOf(a) + ReprOf(b)
    {
      this.kind, this.hash, this.status, this.key, this.value, this.next :=
        BranchKind, [], Dirty, [], [], NoNode;
      this.children := seq(BRANCH_WIDTH, k => NoNode)[i := a][j := b];
      this.tree, this.repr := T.SetChild(T.Fork(i, s), j, t), {this} + ReprOf(a) + ReprOf(b);
    }

    /** decodeLeafNode, decodeExtensionNode and decodeBranchNode: a persisted node over hashes. */
    constructor Decoded(hash: Bytes, s: Shallow, ghost t: Tree)
      ensures this.hash == hash && status == Persisted && tree == t && repr == {this}
      ensures s.SLeaf? ==> kind == LeafKind && key == s.key && value == s.value
      ensures s.SExt? ==> kind == ExtKind && key == s.key && next == HashNode(s.next)
      ensures s.SBranch? ==> kind == BranchKind && |children| == |s.children|
      ensures s.SBranch? ==> forall i :: 0 <= i < |children| ==>
                children[i] == if s.children[i] == [] then NoNode else HashNode(s.children[i])
    {
      this.hash, this.status, this.tree, this.repr := hash, Persisted, t, {this};
      match s
      case SLeaf(k, v) =>
        kind, key, value, next, children := LeafKind, k, v, NoNode, [];
      case SExt(k, h) =>
        kind, key, value, next, children := ExtKind, k, [], HashNode(h), [];
      case SBranch(c) =>
        kind, key, value, next := BranchKind, [], [], NoNode;
        children := seq(|c|, i requires 0 <= i < |c| => if c[i] == [] then NoNode else HashNode(c[i]));
    }

    ghost predicate Valid(w: World)
      reads this, repr
      decreases repr, 1
    {
      && this in repr
      && !tree.Nil?
      && StatusOk(w, status, hash, tree)
      && (status != Dirty ==> ChildrenClean())
      && match kind
         case LeafKind => tree == T.Leaf(key, value)
         case ExtKind => tree.Ext? && tree.key == key && Child(w, next, tree.next)
         case BranchKind =>
           && tree.Branch? && |children| == |tree.children| == BRANCH_WIDTH
           && (forall i :: 0 <= i < BRANCH_WIDTH ==> Child(w, children[i], tree.children[i]))
           && (forall i, j ::
                 0 <= i < BRANCH_WIDTH && 0 <= j < BRANCH_WIDTH && i != j && children[i].At? && children[j].At? ==>
                 children[i].node.repr !! children[j].node.repr)
    }

    /** No child in memory is dirty. */
    ghost predicate ChildrenClean()
      reads this, repr
    {
      && (kind == ExtKind && next.At? ==> next.node in repr && next.node.status != Dirty)
      && (kind == BranchKind ==>
            forall i :: 0 <= i < |children| && children[i].At? ==>
              children[i].node in repr && children[i].node.status != Dirty)
    }

    /** `r` stands for the subtree `t` below this node. */
    ghost predicate Child(w: World, r: Noder, t: Tree)
      reads this, repr
      decreases repr, 0
    {
      match r
      case NoNode => t.Nil?
      case HashNode(h) => Lazy(w, h, t)
      case At(n) =>
        && this in repr && n in repr && n in n.repr && n.repr <= repr && this !in n.repr
        && n.tree == t && !t.Nil? && n.Valid(w)
    }

    /** Assignment to the next node of an extension, together with the node's status. */
    method SetNext(next: Noder, status: Status, ghost t: Tree, ghost w: World)
      requires kind == ExtKind && tree.Ext? && tree.key == key && this in repr
      requires Sound(w, next, t) && this !in ReprOf(next)
      requires StatusOk(w, status, hash, T.Ext(key, t)) && (status != Dirty ==> Clean(next))
      modifies this
      ensures Valid(w) && kind == ExtKind && this.status == status && hash == old(hash)
      ensures tree == T.Ext(key, t) && key == old(key) && this.next == next
      ensures repr == old(repr) + ReprOf(next)
    {
      this.next, this.status := next, status;
      this.tree, this.repr := T.Ext(key, t), repr + ReprOf(next);
    }

    /** What an extension leaves behind when the first `m + 1` nibbles of its key are taken off. */
    method Shorten(m: nat, ghost w: World) returns (moved: Noder)
      requires Valid(w) && kind == ExtKind && m < |key|
      modifies this
      ensures Sound(w, moved, T.Shorten(old(key), old(tree.next), m + 1))
      ensures ReprOf(moved) <= old(repr)
    {
      if m == |key| - 1 {
        return next;
      }
      ghost var below := tree.next;
      key, status := key[m + 1..], Dirty;
      tree := T.Ext(key, below);
      moved := At(this);
    }

    /** A branch that is in order except perhaps at slot `k`. */
    ghost predicate AllBut(w: World, k: nat)
      reads this, repr
    {
      && this in repr && kind == BranchKind
      && tree.Branch? && |children| == |tree.children| == BRANCH_WIDTH
      && (forall i :: 0 <= i < BRANCH_WIDTH && i != k ==> Child(w, children[i], tree.children[i]))
      && (forall i, j :: 0 <= i < BRANCH_WIDTH && 0 <= j < BRANCH_WIDTH && i != j && i != k && j != k &&
                         children[i].At? && children[j].At? ==>
                 children[i].node.repr !! children[j].node.repr)
    }

    /** Assignment to a slot of a branch, together with the node's status. */
    method SetChild(k: nat, child: Noder, status: Status, ghost t: Tree, ghost w: World)
      requires k < BRANCH_WIDTH && AllBut(w, k) && Sound(w, child, t) && this !in ReprOf(child)
      requires forall i :: 0 <= i < BRANCH_WIDTH && i != k && children[i].At? ==> children[i].node.repr !! ReprOf(child)
      requires StatusOk(w, status, hash, T.Branch(tree.children[k := t]))
      requires status != Dirty ==> Clean(child) && forall i :: 0 <= i < BRANCH_WIDTH && i != k ==> Clean(children[i])
      modifies this
      ensures Valid(w) && kind == BranchKind && this.status == status && hash == old(hash)
      ensures tree == T.Branch(old(tree.children)[k := t]) && children == old(children)[k := child]
      ensures repr == old(repr) + ReprOf(child)
    {
      this.children := children[k := child];
      this.status := status;
      this.tree := T.Branch(tree.children[k := t]);
      this.repr := repr + ReprOf(child);
      forall i | 0 <= i < BRANCH_WIDTH && i != k ensures Child(w, children[i], tree.children[i]) {
        assert old(Child(w, children[i], tree.children[i]));
      }
    }
  }

  /** A hash stands for a stored subtree. */
  ghost predicate Lazy(w: World, h: Bytes, t: Tree) {
    !t.Nil? && h == HashOf(w.cc, t) && Stored(w.cc, w.db, t)
  }

  ghost function ReprOf(r: Noder): set<TrieNode>
    reads if r.At? then {r.node} else {}
  {
    if r.At? then r.node.repr else {}
  }

  /** A node in memory is not dirty. */
  ghost predicate Clean(r: Noder)
    reads if r.At? then {r.node} else {}
  {
    r.At? ==> r.node.status != Dirty
  }

  /** `r` stands for the tree `t`. */
  ghost predicate Sound(w: World, r: Noder, t: Tree)
    reads if r.At? then {r.node} + r.node.repr else {}
  {
    match r
    case NoNode => t.Nil?
    case HashNode(h) => Lazy(w, h, t)
    case At(n) => n.tree == t && n.Valid(w)
  }

  /** A node in order stays in order when more becomes stored. */
  lemma {:induction false} ValidMonotone(n: TrieNode, w: World, w': World)
    requires n.Valid(w) && w'.cc == w.cc && Extends(w.db, w'.db) && Extends(w.store, w'.store)
    ensures n.Valid(w')
    decreases n.repr, 1
  {
    if n.status == Persisted {
      StoredMonotone(w.cc, w.store, w'.store, n.tree);
    }
    if n.kind == ExtKind {
      ChildMonotone(n, n.next, n.tree.next, w, w');
    } else if n.kind == BranchKind {
      forall i | 0 <= i < BRANCH_WIDTH ensures n.Child(w', n.children[i], n.tree.children[i]) {
        ChildMonotone(n, n.children[i], n.tree.children[i], w, w');
      }
    }
  }

  lemma {:induction false} ChildMonotone(n: TrieNode, r: Noder, t: Tree, w: World, w': World)
    requires n.Child(w, r, t) && w'.cc == w.cc && Extends(w.db, w'.db) && Extends(w.store, w'.store)
    ensures n.Child(w', r, t)
    decreases n.repr, 0
  {
    if r.At? {
      ValidMonotone(r.node, w, w');
    } else if r.HashNode? {
      StoredMonotone(w.cc, w.db, w'.db, t);
    }
  }

  lemma AllButMonotone(n: TrieNode, k: nat, w: World, w': World)
    requires n.AllBut(w, k) && w'.cc == w.cc && w'.db == w.db && Extends(w.store, w'.store)
    ensures n.AllBut(w', k)
  {
    forall i | 0 <= i < BRANCH_WIDTH && i != k ensures n.Child(w', n.children[i], n.tree.children[i]) {
      ChildMonotone(n, n.children[i], n.tree.children[i], w, w');
    }
  }

  lemma StoredFirst(cc: Codec, small: Database, big: Database, c: seq<Tree>, k: nat)
    requires k <= |c| && Extends(small, big) && forall i :: 0 <= i < k ==> Stored(cc, small, c[i])
    ensures forall i :: 0 <= i < k ==> Stored(cc, big, c[i])
  {
    forall i | 0 <= i < k ensures Stored(cc, big, c[i]) {
      StoredMonotone(cc, small, big, c[i]);
    }
  }

  /** Putting the root node of a subtree that is stored below stores the subtree, and `room` still has place. */
  lemma PutStores(w: World, t: Tree, base: Database, batch: Database, room: Database)
    requires !t.Nil? && w.store == base + batch && StoredBelow(w.cc, w.store, t)
    requires Extends(w.store, room) && Stored(w.cc, room, t)
    ensures var k, e := w.cc.prefix + HashOf(w.cc, t), Encode(w.cc, t);
            && w.store[k := e] == base + batch[k := e]
            && Extends(w.store, w.store[k := e]) && Extends(w.store[k := e], room)
            && Stored(w.cc, w.store[k := e], t)
  {
    var k, e := w.cc.prefix + HashOf(w.cc, t), Encode(w.cc, t);
    StoredBelowMonotone(w.cc, w.store, w.store[k := e], t);
  }

  const EMPTY_HASH: Hash :=
    [0, 0, 0, 0, 0, 0, 0, 0, 0, 0, 0, 0, 0, 0, 0, 0, 0, 0, 0, 0, 0, 0, 0, 0, 0, 0, 0, 0, 0, 0, 0, 0]

  /** The root hash of a trie, computed from scratch. */
  function RootHash(cc: Codec, t: Tree): Hash {
    if t.Nil? then EMPTY_HASH else HashOf(cc, t)
  }

  /** A slot of a stored branch: a string of hash length is a child not loaded yet, anything else no child. */
  function SlotOf(e: Item): Noder {
    if e.Str? && |e.bytes| == HASH_LENGTH then HashNode(e.bytes) else NoNode
  }

  /** `n` is the node that the item `e` of the database describes. */
  ghost predicate Described(parse: Bytes -> Option<seq<Item>>, e: Item, n: TrieNode)
    reads n
  {
    match n.kind
    case LeafKind => e == List([Str(n.key), Str(n.value)])
    case ExtKind =>
      && e.List? && |e.items| == 3 && e.items[0].Str? && e.items[1] == Str(n.key)
      && n.next.HashNode? && e.items[2] == Str(n.next.hash)
    case BranchKind =>
      && e.List? && |e.items| == 1
      && var slots := if e.items[0].List? then Some(e.items[0].items) else parse(e.items[0].bytes);
      && slots.Some? && |n.children| == BRANCH_WIDTH <= |slots.value|
      && forall i :: 0 <= i < BRANCH_WIDTH ==> n.children[i] == SlotOf(slots.value[i])
  }

  class Trie {
    const cc: Codec
    var db: Database
    var root: Noder
    ghost var store: Database
    ghost var tree: Tree

    ghost function W(): World
      reads this`db, this`store
    {
      World(cc, db, store)
    }

    /** The nodes in memory and in the database stand for `tree`. */
    ghost predicate Rooted()
      reads this`db, this`store, this`root, this`tree, if root.At? then {root.node} + root.node.repr else {}
    {
      Extends(db, store) && !root.HashNode? && Sound(W(), root, tree)
    }

    ghost predicate Valid()
      reads this`db, this`store, this`root, this`tree, if root.At? then {root.node} + root.node.repr else {}
    {
      Rooted() && T.WellFormed(tree, false)
    }

    /** NewEmptyTrie. */
    constructor (cc: Codec, db: Database)
      ensures Valid() && this.cc == cc && this.db == db && store == db && tree == T.Nil
    {
      this.cc, this.db, this.root, this.store, this.tree := cc, db, NoNode, db, T.Nil;
    }

    /** NewTrie: the root hash of a stored trie gives back the trie; the empty hash gives the empty one. */
    constructor Open(cc: Codec, rootHash: Hash, db: Database, ghost t: Tree)
      requires Stored(cc, db, t) && T.WellFormed(t, false)
      requires rootHash == RootHash(cc, t) && (rootHash == EMPTY_HASH ==> t.Nil?)
      ensures Valid() && this.cc == cc && this.db == db && store == db
      ensures tree == t && fresh(ReprOf(root))
    {
      this.cc, this.db, this.root, this.store, this.tree := cc, db, NoNode, db, t;
      new;
      if rootHash != EMPTY_HASH {
        var n := LoadNode(rootHash, t, false);
        root := At(n.value);
      }
    }

    /** decodeNode: a fresh node with what the item says, or nothing when it describes no node. */
    method Decode(hash: Bytes, e: Item, ghost t: Tree) returns (n: Option<TrieNode>)
      ensures n.Some? <==> WellShaped(cc.parse, e)
      ensures n.Some? ==> Described(cc.parse, e, n.value) && fresh(n.value)
      ensures n.Some? ==>
        n.value.repr == {n.value} && n.value.tree == t && n.value.status == Persisted && n.value.hash == hash
    {
      DecodesWellShaped(cc.parse, e);
      var decoded := DecodeNode(cc.parse, e);
      if decoded.None? {
        return None;
      }
      var node := new TrieNode.Decoded(hash, decoded.value, t);
      n := Some(node);
    }

    /** The item of the root of a stored tree describes a node that stands for the tree. */
    lemma DescribedStands(n: TrieNode, t: Tree, done: bool)
      requires !t.Nil? && Described(cc.parse, Layout(cc, t), n) && T.WellFormed(t, done)
      requires n.repr == {n} && n.tree == t && n.status == Persisted && Lazy(W(), n.hash, t) && Extends(db, store)
      ensures n.Valid(W())
    {
      EncodeIsLayout(cc, t);
      assert StoredBelow(cc, db, t);
      StoredMonotone(cc, db, store, t);
      if t.Ext? {
        EncodeIsLayout(cc, t.next);
      } else if t.Branch? {
        forall i | 0 <= i < BRANCH_WIDTH ensures n.Child(W(), n.children[i], t.children[i]) {
          EncodeIsLayout(cc, t.children[i]);
        }
      }
    }

    /** loadNode: a fresh node whose children are hashes. It fails only for nodes that are not stored. */
    method LoadNode(hash: Bytes, ghost t: Tree, ghost done: bool) returns (n: Option<TrieNode>)
      requires Extends(db, store)
      ensures n.Some? <==> cc.prefix + hash in db && WellShaped(cc.parse, db[cc.prefix + hash])
      ensures n.Some? ==> Described(cc.parse, db[cc.prefix + hash], n.value)
      ensures Lazy(W(), hash, t) && T.WellFormed(t, done) ==>
                && n.Some? && fresh(n.value) && n.value.repr == {n.value} && n.value.tree == t && n.value.Valid(W())
                && n.value.status == Persisted
    {
      if cc.prefix + hash !in db {
        return None;
      }
      n := Decode(hash, db[cc.prefix + hash], t);
      if Lazy(W(), hash, t) && T.WellFormed(t, done) {
        DecodeEncode(cc.parse, ShallowOf(cc, t));
        DecodesWellShaped(cc.parse, Encode(cc, t));
        EncodeIsLayout(cc, t);
        DescribedStands(n.value, t, done);
      }
    }

    /** insert: returns the node that now stands for the tree with the key set. */
    method InsertNode(r: Noder, key: Key, value: Bytes, ghost t: Tree) returns (res: Noder)
      requires Extends(db, store) && Sound(W(), r, t) && T.Fits(t, key)
      modifies ReprOf(r)
      ensures res.At? && Sound(W(), res, T.Insert(t, key, value))
      ensures fresh(ReprOf(res) - old(ReprOf(r)))
      decreases t, if r.HashNode? then 2 else 1
    {
      if r.NoNode? {
        var leaf := new TrieNode.Leaf(key, value, W());
        res := At(leaf);
      } else if r.HashNode? {
        var loaded := LoadNode(r.hash, t, key == []);
        res := InsertNode(At(loaded.value), key, value, t);
      } else if r.node.kind == LeafKind {
        res := InsertLeaf(r.node, key, value);
      } else if r.node.kind == ExtKind {
        res := InsertExt(r.node, key, value);
      } else {
        res := InsertBranch(r.node, key, value);
      }
    }

    method InsertBranch(n: TrieNode, key: Key, value: Bytes) returns (res: Noder)
      requires Extends(db, store) && n.Valid(W()) && n.kind == BranchKind && T.Fits(n.tree, key)
      modifies n.repr
      ensures res.At? && Sound(W(), res, T.Insert(old(n.tree), key, value))
      ensures fresh(ReprOf(res) - old(n.repr))
      decreases n.tree, 0
    {
      var k := key[0];
      var child := InsertNode(n.children[k], key[1..], value, n.tree.children[k]);
      forall i | 0 <= i < BRANCH_WIDTH && i != k
        ensures n.Child(W(), n.children[i], n.tree.children[i])
        ensures n.children[i].At? ==> n.children[i].node.repr !! ReprOf(child)
      {
        assert old(n.Child(W(), n.children[i], n.tree.children[i]));
      }
      n.SetChild(k, child, Dirty, child.node.tree, W());
      res := At(n);
    }

    /** The branch, and above it the extension, that part `key` from what was there before. */
    method Fork(i: Byte, moved: Noder, key: Key, m: nat, value: Bytes, ghost t: Tree) returns (res: Noder)
      requires Sound(W(), moved, t)
      requires m < |key| && i < BRANCH_WIDTH && key[m] < BRANCH_WIDTH && i != key[m]
      ensures res.At? && Sound(W(), res, T.Split(i, t, key, m, value))
      ensures fresh(ReprOf(res) - ReprOf(moved))
    {
      var leaf := new TrieNode.Leaf(key[m + 1..], value, W());
      var branch := new TrieNode.Branch(i, moved, key[m], At(leaf), t, leaf.tree, W());
      if m == 0 {
        return At(branch);
      }
      var ext := new TrieNode.Ext(key[..m], At(branch), branch.tree, W());
      res := At(ext);
    }

    method InsertExt(n: TrieNode, key: Key, value: Bytes) returns (res: Noder)
      requires Extends(db, store) && n.Valid(W()) && n.kind == ExtKind && T.Fits(n.tree, key)
      modifies n.repr
      ensures res.At? && Sound(W(), res, T.Insert(old(n.tree), key, value))
      ensures fresh(ReprOf(res) - old(n.repr))
      decreases n.tree, 0
    {
      var m := MatchKeyLen(n.key, key);
      T.NibblesDiverge(n.key, key);
      if m == |n.key| {
        InsertNext(n, key[m..], value);
        return At(n);
      }
      res := SplitExt(n, key, m, value);
    }

    /** Insertion at an extension whose key parts from the inserted one at `m`. */
    method SplitExt(n: TrieNode, key: Key, m: nat, value: Bytes) returns (res: Noder)
      requires n.Valid(W()) && n.kind == ExtKind && m < |n.key| && m < |key|
      requires n.key[m] < BRANCH_WIDTH && key[m] < BRANCH_WIDTH && n.key[m] != key[m]
      modifies n.repr
      ensures res.At?
      ensures Sound(W(), res, T.Split(old(n.key)[m], T.Shorten(old(n.key), old(n.tree).next, m + 1), key, m, value))
      ensures fresh(ReprOf(res) - old(n.repr))
    {
      ghost var k, below := n.key, n.tree.next;
      var i := n.key[m];
      var moved := n.Shorten(m, W());
      res := Fork(i, moved, key, m, value, T.Shorten(k, below, m + 1));
    }

    /** Insertion below an extension whose whole key matches. */
    method InsertNext(n: TrieNode, rest: Key, value: Bytes)
      requires Extends(db, store) && n.Valid(W()) && n.kind == ExtKind && T.Fits(n.tree.next, rest)
      modifies n.repr
      ensures n.Valid(W()) && n.tree == T.Ext(old(n.key), T.Insert(old(n.tree).next, rest, value))
      ensures fresh(n.repr - old(n.repr))
      decreases n.tree, 0, 0
    {
      var next := InsertNode(n.next, rest, value, n.tree.next);
      n.SetNext(next, Dirty, next.node.tree, W());
    }

    method InsertLeaf(n: TrieNode, key: Key, value: Bytes) returns (res: Noder)
      requires n.Valid(W()) && n.kind == LeafKind && T.Fits(n.tree, key)
      modifies n.repr
      ensures res.At? && Sound(W(), res, T.Insert(old(n.tree), key, value))
      ensures fresh(ReprOf(res) - old(n.repr))
      decreases n.tree, 0
    {
      var m := MatchKeyLen(n.key, key);
      T.RestsDiverge(n.key, key);
      if m == |n.key| {
        n.value, n.status := value, Dirty;
        n.tree := T.Leaf(n.key, value);
        return At(n);
      }
      res := SplitLeaf(n, key, m, value);
    }

    /** Insertion at a leaf whose key parts from the inserted one at `m`. */
    method SplitLeaf(n: TrieNode, key: Key, m: nat, value: Bytes) returns (res: Noder)
      requires n.Valid(W()) && n.kind == LeafKind && m < |n.key| && m < |key|
      requires n.key[m] < BRANCH_WIDTH && key[m] < BRANCH_WIDTH && n.key[m] != key[m]
      modifies n.repr
      ensures res.At?
      ensures Sound(W(), res, T.Split(old(n.key)[m], T.Leaf(old(n.key)[m + 1..], old(n.value)), key, m, value))
      ensures fresh(ReprOf(res) - old(n.repr))
    {
      var i := n.key[m];
      n.key, n.status := n.key[m + 1..], Dirty;
      n.tree := T.Leaf(n.key, n.value);
      res := Fork(i, At(n), key, m, value, n.tree);
    }

    /** The loop of delete over the slots of a branch: how many are occupied, and the last one. */
    static method CountChildren(children: seq<Noder>, ghost c: seq<Tree>) returns (pos: int, count: nat)
      requires |children| == |c| && forall i :: 0 <= i < |c| ==> (children[i].NoNode? <==> c[i].Nil?)
      ensures pos == T.Last(c) && count == T.Count(c)
    {
      pos, count := -1, 0;
      for i := 0 to |children|
        invariant pos == T.Last(c[..i]) && count == T.Count(c[..i])
      {
        T.CountStep(c, i);
        if !children[i].NoNode? {
          pos, count := i, count + 1;
        }
      }
      assert c[..|c|] == c;
    }

    /** The only child of a branch, moved up by one nibble; a branch cannot be moved up. */
    method Lift(pos: Byte, child: TrieNode) returns (res: Noder)
      requires child.Valid(W())
      ensures if child.tree.Branch? then res.NoNode? else res.At?
      ensures child.tree.Leaf? ==> Sound(W(), res, T.Leaf([pos] + child.tree.key, child.tree.value))
      ensures child.tree.Ext? ==> Sound(W(), res, T.Ext([pos] + child.tree.key, child.tree.next))
      ensures fresh(ReprOf(res) - child.repr)
    {
      if child.kind == LeafKind {
        var leaf := new TrieNode.Leaf([pos] + child.key, child.value, W());
        res := At(leaf);
      } else if child.kind == ExtKind {
        var ext := new TrieNode.Ext([pos] + child.key, child.next, child.tree.next, W());
        res := At(ext);
      } else {
        res := NoNode;
      }
    }

    /** A branch with one leaf or extension left is replaced by it; the child is loaded to find out. */
    method Compact(n: TrieNode) returns (res: Noder)
      requires Extends(db, store) && n.Valid(W()) && n.kind == BranchKind && T.WellFormed(n.tree, false)
      ensures res.At? && Sound(W(), res, T.Collapse(n.tree.children))
      ensures fresh(ReprOf(res) - n.repr)
    {
      assert forall i :: 0 <= i < BRANCH_WIDTH ==> n.Child(W(), n.children[i], n.tree.children[i]);
      var pos, count := CountChildren(n.children, n.tree.children);
      res := At(n);
      if count == 1 {
        T.CountOne(n.tree.children);
        res := CompactOne(n, pos);
      }
    }

    /** A branch whose only child is at `pos`. */
    method CompactOne(n: TrieNode, pos: nat) returns (res: Noder)
      requires Extends(db, store) && n.Valid(W()) && n.kind == BranchKind && pos < BRANCH_WIDTH
      requires !n.tree.children[pos].Nil? && T.WellFormed(n.tree.children[pos], pos == TERMINATOR)
      ensures res.At? && fresh(ReprOf(res) - n.repr)
      ensures Sound(W(), res, match n.tree.children[pos]
                              case Leaf(k, v) => T.Leaf([pos] + k, v)
                              case Ext(k, t) => T.Ext([pos] + k, t)
                              case _ => n.tree)
    {
      assert n.Child(W(), n.children[pos], n.tree.children[pos]);
      var child := Loaded(n.children[pos], n.tree.children[pos], pos == TERMINATOR);
      res := Lift(pos, child);
      if res.NoNode? {
        res := At(n);
      }
    }

    /** The node that a child stands for, loaded when it is only a hash. */
    method Loaded(child: Noder, ghost t: Tree, ghost done: bool) returns (n: TrieNode)
      requires Extends(db, store) && Sound(W(), child, t) && !t.Nil? && T.WellFormed(t, done)
      ensures n.Valid(W()) && n.tree == t && (n.repr == ReprOf(child) || fresh(n.repr))
    {
      if child.HashNode? {
        var loaded := LoadNode(child.hash, t, done);
        return loaded.value;
      }
      return child.node;
    }

    /** delete: whether something matched, and the node that now stands for what is left. */
    method DeleteNode(r: Noder, key: Key, descendant: bool, ghost t: Tree) returns (found: bool, res: Noder)
      requires Extends(db, store) && Sound(W(), r, t) && T.Deletable(t, key, descendant)
      modifies ReprOf(r)
      ensures found == T.Delete(t, key, descendant).0 && (found ==> !res.HashNode?)
      ensures found ==> Sound(W(), res, T.Delete(t, key, descendant).1) && fresh(ReprOf(res) - old(ReprOf(r)))
      ensures !found ==> forall o :: o in old(ReprOf(r)) ==> unchanged(o)
      decreases t, if r.HashNode? then 2 else 1
    {
      if r.NoNode? {
        found, res := false, NoNode;
      } else if r.HashNode? {
        var loaded := LoadNode(r.hash, t, !descendant && key == []);
        found, res := DeleteNode(At(loaded.value), key, descendant, t);
      } else if r.node.kind == LeafKind {
        var m := MatchKeyLen(key, r.node.key);
        if m == |r.node.key| || m == |key| {
          found, res := true, NoNode;
        } else {
          found, res := false, r;
        }
      } else if r.node.kind == ExtKind {
        found, res := DeleteExt(r.node, key, descendant);
      } else {
        found, res := DeleteBranch(r.node, key, descendant);
      }
    }

    method DeleteExt(n: TrieNode, key: Key, descendant: bool) returns (found: bool, res: Noder)
      requires Extends(db, store) && n.Valid(W()) && n.kind == ExtKind && T.Deletable(n.tree, key, descendant)
      modifies n.repr
      ensures found == T.Delete(old(n.tree), key, descendant).0 && (found ==> !res.HashNode?)
      ensures found ==> Sound(W(), res, T.Delete(old(n.tree), key, descendant).1) && fresh(ReprOf(res) - old(n.repr))
      ensures !found ==> forall o :: o in old(n.repr) ==> unchanged(o)
      decreases n.tree, 0
    {
      var m := MatchKeyLen(key, n.key);
      if descendant && m == |key| {
        return true, NoNode;
      }
      found, res := false, At(n);
      if m == |n.key| {
        T.ExtDeletable(n.key, n.tree.next, key, descendant);
        found, res := DeleteNext(n, key[m..], descendant);
      }
    }

    /** Deletion below an extension whose whole key matches; an extension over nothing disappears. */
    method DeleteNext(n: TrieNode, rest: Key, descendant: bool) returns (found: bool, res: Noder)
      requires Extends(db, store) && n.Valid(W()) && n.kind == ExtKind && T.Deletable(n.tree.next, rest, descendant)
      modifies n.repr
      ensures found == T.Delete(old(n.tree).next, rest, descendant).0 && (found ==> !res.HashNode?)
      ensures found ==>
                var left := T.Delete(old(n.tree).next, rest, descendant).1;
                Sound(W(), res, if left.Nil? then T.Nil else T.Ext(old(n.key), left)) &&
                fresh(ReprOf(res) - old(n.repr))
      ensures !found ==> forall o :: o in old(n.repr) ==> unchanged(o)
      decreases n.tree, 0, 0
    {
      ghost var left := T.Delete(n.tree.next, rest, descendant).1;
      var next;
      found, next := DeleteNode(n.next, rest, descendant, n.tree.next);
      if !found || next.NoNode? {
        return found, NoNode;
      }
      n.SetNext(next, Dirty, left, W());
      res := At(n);
    }

    method DeleteBranch(n: TrieNode, key: Key, descendant: bool) returns (found: bool, res: Noder)
      requires Extends(db, store) && n.Valid(W()) && n.kind == BranchKind && T.Deletable(n.tree, key, descendant)
      modifies n.repr
      ensures found == T.Delete(old(n.tree), key, descendant).0 && (found ==> !res.HashNode?)
      ensures found ==> Sound(W(), res, T.Delete(old(n.tree), key, descendant).1) && fresh(ReprOf(res) - old(n.repr))
      ensures !found ==> forall o :: o in old(n.repr) ==> unchanged(o)
      decreases n.tree, 0
    {
      res := At(n);
      if descendant && |key| == 1 {
        assert n.Child(W(), n.children[key[0]], n.tree.children[key[0]]);
        found := !n.children[key[0]].NoNode?;
        if found {
          n.SetChild(key[0], NoNode, Dirty, T.Nil, W());
        }
      } else {
        T.DeleteWellFormed(n.tree.children[key[0]], key[1..], descendant);
        ghost var left;
        found, left := DeleteBelow(n, key[0], key[1..], descendant);
      }
      if found {
        res := Compact(n);
      }
    }

    /** The recursive call of delete in a branch, and the assignment to the slot after it. */
    method DeleteBelow(n: TrieNode, k: Byte, rest: Key, descendant: bool) returns (found: bool, ghost left: Tree)
      requires Extends(db, store) && n.Valid(W()) && n.kind == BranchKind
      requires k < BRANCH_WIDTH && T.Deletable(n.tree.children[k], rest, descendant)
      modifies n.repr
      ensures (found, left) == T.Delete(old(n.tree).children[k], rest, descendant)
      ensures found ==> n.Valid(W()) && n.kind == BranchKind && fresh(n.repr - old(n.repr))
      ensures found ==> n.tree == T.Branch(old(n.tree).children[k := left])
      ensures !found ==> forall o :: o in old(n.repr) ==> unchanged(o)
      decreases n.tree, 0, 0
    {
      left := T.Delete(n.tree.children[k], rest, descendant).1;
      var child;
      found, child := DeleteNode(n.children[k], rest, descendant, n.tree.children[k]);
      if found {
        forall i | 0 <= i < BRANCH_WIDTH && i != k
          ensures n.Child(W(), n.children[i], n.tree.children[i])
          ensures n.children[i].At? ==> n.children[i].node.repr !! ReprOf(child)
        {
          assert old(n.Child(W(), n.children[i], n.tree.children[i]));
        }
        n.SetChild(k, child, Dirty, left, W());
      }
    }

    /** get: the value, and the node with everything on the way loaded into memory. */
    method GetNode(r: Noder, key: Key, pos: nat, ghost t: Tree) returns (val: Option<Bytes>, res: Noder)
      requires Extends(db, store) && Sound(W(), r, t) && pos <= |key| && T.Fits(t, key[pos..])
      modifies ReprOf(r)
      ensures val == T.Lookup(t, key[pos..])
      ensures Sound(W(), res, t) && fresh(ReprOf(res) - old(ReprOf(r))) && (r.At? ==> res == r)
      ensures old(Clean(r)) ==> Clean(res)
      decreases t, if r.HashNode? then 2 else 1
    {
      if r.NoNode? {
        val, res := None, NoNode;
      } else if r.HashNode? {
        var loaded := LoadNode(r.hash, t, pos == |key|);
        val, res := GetNode(At(loaded.value), key, pos, t);
      } else if r.node.kind == LeafKind {
        val, res := if r.node.key <= key[pos..] then Some(r.node.value) else None, r;
      } else if r.node.kind == ExtKind {
        val := GetExt(r.node, key, pos);
        res := r;
      } else {
        val := GetChild(r.node, key, pos);
        res := r;
      }
    }

    method GetExt(n: TrieNode, key: Key, pos: nat) returns (val: Option<Bytes>)
      requires Extends(db, store) && n.Valid(W()) && n.kind == ExtKind && pos <= |key| && T.Fits(n.tree, key[pos..])
      modifies n.repr
      ensures val == T.Lookup(old(n.tree), key[pos..])
      ensures n.Valid(W()) && n.tree == old(n.tree) && fresh(n.repr - old(n.repr)) && n.status == old(n.status)
      decreases n.tree, 0, 1
    {
      val := None;
      if n.key <= key[pos..] {
        T.NibblesDiverge(n.key, key[pos..]);
        assert key[pos..][|n.key|..] == key[pos + |n.key|..];
        val := GetNext(n, key, pos + |n.key|);
      }
    }

    /** get below an extension whose whole key matches. */
    method GetNext(n: TrieNode, key: Key, pos: nat) returns (val: Option<Bytes>)
      requires Extends(db, store) && n.Valid(W()) && n.kind == ExtKind && pos <= |key|
      requires T.Fits(n.tree.next, key[pos..])
      modifies n.repr
      ensures val == T.Lookup(old(n.tree).next, key[pos..])
      ensures n.Valid(W()) && n.tree == old(n.tree) && fresh(n.repr - old(n.repr)) && n.status == old(n.status)
      decreases n.tree, 0, 0
    {
      var next;
      val, next := GetNode(n.next, key, pos, n.tree.next);
      n.SetNext(next, n.status, n.tree.next, W());
    }

    method GetChild(n: TrieNode, key: Key, pos: nat) returns (val: Option<Bytes>)
      requires Extends(db, store) && n.Valid(W()) && n.kind == BranchKind && pos <= |key| && T.Fits(n.tree, key[pos..])
      modifies n.repr
      ensures val == T.Lookup(old(n.tree), key[pos..])
      ensures n.Valid(W()) && n.tree == old(n.tree) && fresh(n.repr - old(n.repr)) && n.status == old(n.status)
      decreases n.tree, 0
    {
      var k := key[pos];
      assert key[pos..][1..] == key[pos + 1..];
      assert n.tree.children[k := n.tree.children[k]] == n.tree.children;
      var child;
      val, child := GetNode(n.children[k], key, pos + 1, n.tree.children[k]);
      forall i | 0 <= i < BRANCH_WIDTH && i != k
        ensures n.Child(W(), n.children[i], n.tree.children[i])
        ensures n.children[i].At? ==> n.children[i].node.repr !! ReprOf(child)
      {
        assert old(n.Child(W(), n.children[i], n.tree.children[i]));
      }
      n.SetChild(k, child, n.status, n.tree.children[k], W());
    }

    /** What nodeHash may assume and must keep: to commit, `room` has place for the staged nodes and this subtree. */
    ghost predicate Staging(commit: bool, t: Tree, base: Database, batch: Database, room: Database)
      reads this
    {
      store == base + batch && Extends(db, store) && (commit ==> Extends(store, room) && Stored(cc, room, t))
    }

    /**
      nodeHash: the hash of a subtree, recomputed only where it is dirty. With `commit` every node that is
      not persisted yet is put into the batch; without it a clean subtree is left alone.
     */
    method NodeHash(r: Noder, commit: bool, batch: Database, ghost t: Tree, ghost base: Database, ghost room: Database)
      returns (h: Bytes, batch': Database)
      requires Sound(W(), r, t) && Staging(commit, t, base, batch, room)
      modifies this`store, ReprOf(r)
      ensures h == HashOf(cc, t) == Merkle(cc, t)
      ensures Sound(W(), r, t) && Staging(commit, t, base, batch', room) && ReprOf(r) == old(ReprOf(r))
      ensures Extends(old(store), store) && Clean(r)
      ensures commit ==> Stored(cc, store, t) && (r.At? ==> r.node.status == Persisted)
      ensures !commit || old(r.At? && r.node.status == Persisted) ==> batch' == batch
      ensures !commit && old(Clean(r)) ==> forall o :: o in old(ReprOf(r)) ==> unchanged(o)
      decreases t, 2
    {
      EncodeIsLayout(cc, t);
      batch' := batch;
      if r.NoNode? {
        h := [];
      } else if r.HashNode? {
        h := r.hash;
        StoredMonotone(cc, db, store, t);
      } else if r.node.status == Persisted || (r.node.status == Updated && !commit) {
        h := r.node.hash;
      } else {
        var s;
        s, batch' := HashBelow(r.node, commit, batch, base, room);
        h, batch' := FinishHash(r.node, EncodeShallow(s), commit, batch', base, room);
      }
    }

    /** The end of nodeHash: a dirty node gets its hash, and with `commit` the node is staged. */
    method FinishHash(n: TrieNode, encoded: Item, commit: bool, batch: Database, ghost base: Database,
                      ghost room: Database)
      returns (h: Bytes, batch': Database)
      requires n.Valid(W()) && Staging(commit, n.tree, base, batch, room) && encoded == Encode(cc, n.tree)
      requires n.ChildrenClean() && (commit ==> StoredBelow(cc, store, n.tree))
      modifies this`store, n`hash, n`status
      ensures h == HashOf(cc, n.tree)
      ensures n.Valid(W()) && Staging(commit, n.tree, base, batch', room)
      ensures Extends(old(store), store) && n.status != Dirty && (commit ==> n.status == Persisted)
      ensures commit ==> Stored(cc, store, n.tree)
      ensures !commit ==> batch' == batch
    {
      if n.status == Dirty {
        n.hash, n.status := cc.hash(encoded), Updated;
      }
      h, batch' := n.hash, batch;
      if commit {
        batch' := Stage(n, encoded, batch, base, room);
      }
    }

    /** The put of one node into the batch. */
    method Stage(n: TrieNode, encoded: Item, batch: Database, ghost base: Database, ghost room: Database)
      returns (batch': Database)
      requires n.Valid(W()) && n.status != Dirty && Staging(true, n.tree, base, batch, room)
      requires encoded == Encode(cc, n.tree) && StoredBelow(cc, store, n.tree)
      modifies this`store, n`status
      ensures n.Valid(W()) && Staging(true, n.tree, base, batch', room)
      ensures Extends(old(store), store) && Stored(cc, store, n.tree) && n.status == Persisted
    {
      batch' := StagePut(n, encoded, batch, base, room);
      Persist(n);
    }

    /** batch.Put of an encoded node. */
    method StagePut(n: TrieNode, encoded: Item, batch: Database, ghost base: Database, ghost room: Database)
      returns (batch': Database)
      requires n.Valid(W()) && n.status != Dirty && Staging(true, n.tree, base, batch, room)
      requires encoded == Encode(cc, n.tree) && StoredBelow(cc, store, n.tree)
      modifies this`store
      ensures n.Valid(W()) && Staging(true, n.tree, base, batch', room) && Extends(old(store), store)
      ensures Stored(cc, store, n.tree)
    {
      ghost var w := W();
      PutStores(w, n.tree, base, batch, room);
      batch' := batch[cc.prefix + n.hash := encoded];
      store := store[cc.prefix + n.hash := encoded];
      ValidMonotone(n, w, W());
    }

    /** SetStatus(nodeStatusPersisted) on a node that is stored. */
    method Persist(n: TrieNode)
      requires n.Valid(W()) && n.status != Dirty && Stored(cc, store, n.tree)
      modifies n`status
      ensures n.Valid(W()) && n.status == Persisted
    {
      n.status := Persisted;
    }

    /** The encoding of a node from the hashes of its children. */
    method HashBelow(n: TrieNode, commit: bool, batch: Database, ghost base: Database, ghost room: Database)
      returns (s: Shallow, batch': Database)
      requires n.Valid(W()) && Staging(commit, n.tree, base, batch, room)
      modifies this`store, n.repr - {n}
      ensures s == ShallowOf(cc, n.tree)
      ensures n.Valid(W()) && Staging(commit, n.tree, base, batch', room)
      ensures Extends(old(store), store) && n.ChildrenClean()
      ensures commit ==> StoredBelow(cc, store, n.tree)
      ensures !commit ==> batch' == batch
      decreases n.tree, 1
    {
      if n.kind == LeafKind {
        s, batch' := SLeaf(n.key, n.value), batch;
      } else if n.kind == ExtKind {
        ghost var w := W();
        assert commit ==> StoredBelow(cc, room, n.tree);
        var h;
        h, batch' := NodeHash(n.next, commit, batch, n.tree.next, base, room);
        s := SExt(n.key, h);
        if n.status == Persisted {
          StoredMonotone(cc, w.store, store, n.tree);
        }
      } else {
        var hs;
        hs, batch' := HashChildren(n, commit, batch, base, room);
        s := SBranch(hs);
        assert hs == ShallowOf(cc, n.tree).children;
      }
    }

    /** The loop of nodeHash over the children of a branch. */
    method HashChildren(n: TrieNode, commit: bool, batch: Database, ghost base: Database, ghost room: Database)
      returns (hs: seq<Bytes>, batch': Database)
      requires n.Valid(W()) && n.kind == BranchKind && Staging(commit, n.tree, base, batch, room)
      modifies this`store, n.repr - {n}
      ensures |hs| == BRANCH_WIDTH && forall i :: 0 <= i < BRANCH_WIDTH ==> hs[i] == HashOf(cc, n.tree.children[i])
      ensures n.Valid(W()) && Staging(commit, n.tree, base, batch', room)
      ensures Extends(old(store), store) && n.ChildrenClean()
      ensures commit ==> StoredBelow(cc, store, n.tree)
      ensures !commit ==> batch' == batch
      decreases n.tree, 0
    {
      hs, batch' := [], batch;
      for i := 0 to BRANCH_WIDTH
        invariant |hs| == i && forall j :: 0 <= j < i ==> hs[j] == HashOf(cc, n.tree.children[j])
        invariant n.Valid(W()) && Staging(commit, n.tree, base, batch', room)
        invariant Extends(old(store), store) && forall j :: 0 <= j < i ==> Clean(n.children[j])
        invariant commit ==> forall j :: 0 <= j < i ==> Stored(cc, store, n.tree.children[j])
        invariant !commit ==> batch' == batch
      {
        ghost var before := store;
        var h;
        h, batch' := HashSlot(n, i, commit, batch', base, room);
        hs := hs + [h];
        if commit {
          StoredFirst(cc, before, store, n.tree.children, i);
        }
      }
      assert forall j :: 0 <= j < BRANCH_WIDTH ==> n.Child(W(), n.children[j], n.tree.children[j]);
    }

    /** One round of that loop. */
    method HashSlot(n: TrieNode, k: nat, commit: bool, batch: Database, ghost base: Database, ghost room: Database)
      returns (h: Bytes, batch': Database)
      requires k < BRANCH_WIDTH && n.Valid(W()) && n.kind == BranchKind && Staging(commit, n.tree, base, batch, room)
      modifies this`store, n.repr - {n}
      ensures h == HashOf(cc, n.tree.children[k])
      ensures n.Valid(W()) && Staging(commit, n.tree, base, batch', room)
      ensures Extends(old(store), store)
      ensures forall i :: 0 <= i < BRANCH_WIDTH && (i == k || old(Clean(n.children[i]))) ==> Clean(n.children[i])
      ensures commit ==> Stored(cc, store, n.tree.children[k])
      ensures !commit ==> batch' == batch
      decreases n.tree, 0, 1
    {
      ghost var w := W();
      h, batch' := HashChild(n, k, commit, batch, base, room);
      AllButMonotone(n, k, w, W());
      if n.status == Persisted {
        StoredMonotone(cc, w.store, store, n.tree);
      }
    }

    /** The recursive call for one child; the other slots are as they were. */
    method HashChild(n: TrieNode, k: nat, commit: bool, batch: Database, ghost base: Database, ghost room: Database)
      returns (h: Bytes, batch': Database)
      requires k < BRANCH_WIDTH && n.Valid(W()) && n.kind == BranchKind && Staging(commit, n.tree, base, batch, room)
      modifies this`store, n.repr - {n}
      ensures h == HashOf(cc, n.tree.children[k])
      ensures n.AllBut(old(W()), k) && n.Child(W(), n.children[k], n.tree.children[k])
      ensures forall i :: 0 <= i < BRANCH_WIDTH && n.children[i].At? ==>
        n.children[i].node.repr == old(n.children[i].node.repr)
      ensures forall i :: 0 <= i < BRANCH_WIDTH && (i == k || old(Clean(n.children[i]))) ==> Clean(n.children[i])
      ensures Staging(commit, n.tree, base, batch', room) && Extends(old(store), store)
      ensures commit ==> Stored(cc, store, n.tree.children[k])
      ensures !commit ==> batch' == batch
      decreases n.tree, 0, 0
    {
      assert commit ==> StoredBelow(cc, room, n.tree);
      ghost var w := W();
      assert forall i :: 0 <= i < BRANCH_WIDTH ==> n.Child(w, n.children[i], n.tree.children[i]);
      h, batch' := NodeHash(n.children[k], commit, batch, n.tree.children[k], base, room);
      forall i | 0 <= i < BRANCH_WIDTH && i != k
        ensures n.Child(w, n.children[i], n.tree.children[i]) && (old(Clean(n.children[i])) ==> Clean(n.children[i]))
        ensures n.children[i].At? ==> n.children[i].node.repr == old(n.children[i].node.repr)
      {
        assert old(n.Child(w, n.children[i], n.tree.children[i]));
      }
    }

    method Put(key: Bytes, value: Bytes)
      requires Valid()
      modifies this`root, this`tree, ReprOf(root)
      ensures Valid() && tree == T.Insert(old(tree), Hex(key), value)
      ensures fresh(ReprOf(root) - old(ReprOf(root)))
    {
      var k := KeyBytesToHex(key);
      ghost var t := T.Insert(tree, k, value);
      assert T.WellFormed(t, false) by {
        T.InsertWellFormed(tree, k, value);
      }
      var node := InsertNode(root, k, value, tree);
      root, tree := node, t;
    }

    method Get(key: Bytes) returns (value: Option<Bytes>)
      requires Valid()
      modifies ReprOf(root)
      ensures Valid() && value == T.Lookup(tree, Hex(key))
      ensures fresh(ReprOf(root) - old(ReprOf(root)))
    {
      if root.NoNode? {
        return None;
      }
      var k := KeyBytesToHex(key);
      assert k[0..] == k;
      var node;
      value, node := GetNode(root, k, 0, tree);
    }

    /** Delete and DeletePrefix on a nibble key: the root changes only when something matched. */
    method DeleteKey(k: Key, descendant: bool) returns (found: bool)
      requires Valid() && !root.NoNode? && T.Deletable(tree, k, descendant)
      modifies this`root, this`tree, ReprOf(root)
      ensures Valid() && (found, tree) == T.Delete(old(tree), k, descendant)
      ensures fresh(ReprOf(root) - old(ReprOf(root)))
    {
      T.DeleteMiss(tree, k, descendant);
      T.DeleteWellFormed(tree, k, descendant);
      ghost var t := T.Delete(tree, k, descendant).1;
      var node;
      found, node := DeleteNode(root, k, descendant, tree);
      if found {
        root, tree := node, t;
      }
    }

    method Delete(key: Bytes) returns (found: bool)
      requires Valid()
      modifies this`root, this`tree, ReprOf(root)
      ensures Valid() && (found, tree) == T.Delete(old(tree), Hex(key), false)
      ensures fresh(ReprOf(root) - old(ReprOf(root)))
    {
      if root.NoNode? {
        return false;
      }
      var k := KeyBytesToHex(key);
      found := DeleteKey(k, false);
    }

    /** DeletePrefix: an empty prefix deletes nothing. */
    method DeletePrefix(prefix: Bytes) returns (found: bool)
      requires Valid()
      modifies this`root, this`tree, ReprOf(root)
      ensures Valid()
      ensures (found, tree) ==
        if prefix == [] then (false, old(tree)) else T.Delete(old(tree), Nibbles(prefix), true)
      ensures fresh(ReprOf(root) - old(ReprOf(root)))
    {
      if prefix == [] || root.NoNode? {
        return false;
      }
      var key := KeyBytesToHex(prefix);
      key := key[..|key| - 1];
      assert key == Nibbles(prefix);
      found := DeleteKey(key, true);
    }

    /** Hash: the root hash, with nothing staged. */
    method Hash() returns (h: Hash)
      requires Valid()
      modifies this`store, ReprOf(root)
      ensures Valid() && h == RootHash(cc, tree) && store == old(store)
      ensures h == if tree.Nil? then EMPTY_HASH else cc.hash(Layout(cc, tree))
      ensures ReprOf(root) == old(ReprOf(root)) && Clean(root)
    {
      h := EMPTY_HASH;
      if !root.NoNode? {
        assert store + map[] == store;
        var batch;
        h, batch := NodeHash(root, false, map[], tree, store, map[]);
      }
    }

    /**
      Commit: the root hash, and the batch with every node that was not persisted. `room` says that the
      nodes of this trie do not collide with what is stored.
     */
    method Commit(batch: Database, ghost room: Database) returns (h: Hash, batch': Database)
      requires Valid() && store == db + batch
      requires Extends(store, room) && Stored(cc, room, tree)
      modifies this`store, ReprOf(root)
      ensures Valid() && h == RootHash(cc, tree) && store == db + batch'
      ensures h == if tree.Nil? then EMPTY_HASH else cc.hash(Layout(cc, tree))
      ensures Extends(old(store), store) && Extends(store, room)
      ensures Stored(cc, db + batch', tree)
      ensures root.At? ==> root.node.status == Persisted
      ensures old(root.At? && root.node.status == Persisted) ==> batch' == batch
      ensures ReprOf(root) == old(ReprOf(root))
    {
      h, batch' := EMPTY_HASH, batch;
      if !root.NoNode? {
        h, batch' := NodeHash(root, true, batch, tree, db, room);
      }
    }

    /** The batch reaches the database. */
    method Apply(batch: Database)
      requires Valid() && store == db + batch
      modifies this`db
      ensures Valid() && db == old(db) + batch
    {
      ghost var w := W();
      db := db + batch;
      if root.At? {
        ValidMonotone(root.node, w, W());
      }
    }

    /** The hash of a clean child, as nodeHash returns it without further work. */
    method CachedHash(r: Noder, ghost t: Tree) returns (h: Bytes)
      requires Sound(W(), r, t) && Clean(r)
      ensures h == HashOf(cc, t)
    {
      h := if r.NoNode? then [] else if r.HashNode? then r.hash else r.node.hash;
    }

    /** encodeNode on a node whose children are clean. */
    method EncodeNode(n: TrieNode) returns (e: Item)
      requires n.Valid(W()) && n.ChildrenClean()
      ensures e == Encode(cc, n.tree) == Layout(cc, n.tree)
    {
      EncodeIsLayout(cc, n.tree);
      if n.kind == LeafKind {
        e := EncodeShallow(SLeaf(n.key, n.value));
      } else if n.kind == ExtKind {
        var h := CachedHash(n.next, n.tree.next);
        e := EncodeShallow(SExt(n.key, h));
      } else {
        var hs: seq<Bytes> := [];
        for i := 0 to BRANCH_WIDTH
          invariant |hs| == i && forall j :: 0 <= j < i ==> hs[j] == HashOf(cc, n.tree.children[j])
        {
          assert n.Child(W(), n.children[i], n.tree.children[i]);
          var h := CachedHash(n.children[i], n.tree.children[i]);
          hs := hs + [h];
        }
        assert hs == ShallowOf(cc, n.tree).children;
        e := EncodeShallow(SBranch(hs));
      }
    }

    /** Where the walk of GetProof goes from a node in memory: the next node and key, or nothing. */
    method ProofStep(n: TrieNode, key: Key) returns (listed: bool, tn: Noder, rest: Key, ghost t: Tree)
      requires n.Valid(W()) && n.status != Dirty && T.WellFormed(n.tree, false) && Terminated(key)
      ensures P.Path(n.tree, key) == if listed then [n.tree] + P.Path(t, rest) else P.Path(t, rest)
      ensures Sound(W(), tn, t) && Clean(tn) && (t.Nil? || t < n.tree)
      ensures rest == [] || (Terminated(rest) && T.WellFormed(t, false))
    {
      listed, tn, rest, t := true, NoNode, key, T.Nil;
      if n.kind == ExtKind {
        if n.key <= key {
          T.NibblesDiverge(n.key, key);
          tn, rest, t := n.next, key[|n.key|..], n.tree.next;
        }
      } else if n.kind == BranchKind {
        assert n.Child(W(), n.children[key[0]], n.tree.children[key[0]]);
        assert T.WellFormed(n.tree.children[key[0]], key[0] == TERMINATOR);
        T.RestOfKey(key);
        tn, rest, t := n.children[key[0]], key[1..], n.tree.children[key[0]];
      } else {
        listed := n.key <= key;
      }
    }

    /** A listed node is encoded and put into the proof under its hash. */
    method ListNode(n: TrieNode, proof: P.Proof, ghost path: seq<Tree>, ghost nodes: seq<Tree>, ghost rest: seq<Tree>)
      returns (proof': P.Proof)
      requires n.Valid(W()) && n.status != Dirty && P.Collected(cc, path, nodes, proof, [n.tree] + rest)
      ensures P.Collected(cc, path, nodes + [n.tree], proof', rest)
    {
      var e := EncodeNode(n);
      P.CollectNode(cc, path, nodes, proof, n.tree, rest);
      proof' := proof[n.hash := e];
    }

    /** The walk of GetProof over a clean trie. */
    method CollectProof(full: Key) returns (proof: P.Proof)
      requires Valid() && Clean(root) && Terminated(full)
      ensures proof == P.ProofOf(cc, P.Path(tree, full))
    {
      var key, tn := full, root;
      ghost var path, cur, nodes: seq<Tree> := P.Path(tree, full), tree, [];
      proof := map[];
      while |key| > 0 && !tn.NoNode?
        invariant Sound(W(), tn, cur) && Clean(tn)
        invariant key == [] || (Terminated(key) && T.WellFormed(cur, false))
        invariant P.Collected(cc, path, nodes, proof, P.Path(cur, key))
        decreases !tn.NoNode?, cur, tn.HashNode?
      {
        if tn.HashNode? {
          var loaded := LoadNode(tn.hash, cur, false);
          tn := At(loaded.value);
        } else {
          var n := tn.node;
          var listed, rest;
          ghost var t;
          listed, tn, rest, t := ProofStep(n, key);
          if listed {
            proof := ListNode(n, proof, path, nodes, P.Path(t, rest));
            nodes := nodes + [n.tree];
          }
          key, cur := rest, t;
        }
      }
      assert nodes == path;
    }

    /** GetProof. The root heads the list of nodes, so hashing the list makes the whole trie clean. */
    method GetProof(key: Bytes) returns (proof: P.Proof)
      requires Valid()
      modifies this`store, ReprOf(root)
      ensures Valid() && store == old(store) && ReprOf(root) == old(ReprOf(root))
      ensures proof == P.ProofOf(cc, P.Path(tree, Hex(key)))
    {
      var _ := Hash();
      var k := KeyBytesToHex(key);
      proof := CollectProof(k);
    }
  }
}
