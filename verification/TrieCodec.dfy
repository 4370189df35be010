/** Node encodings, Merkle hashes and what it means for a database to hold a trie. */
module TrieCodec {
  import opened Common
  import opened TrieKeys
  import opened TrieTree

  /** RLP data: byte strings and lists. */
  datatype Item = Str(bytes: Bytes) | List(items: seq<Item>)

  /**
    The parts of the trie that come from outside: Keccak-256 on encodings, RLP parsing of the content
    of a byte string, and the key prefix that keeps this trie's nodes apart in a shared database.
   */
  datatype Codec = Codec(hash: Item -> Hash, parse: Bytes -> Option<seq<Item>>, prefix: Bytes)

  type Database = map<Bytes, Item>

  /** One node on its own: children are hashes, and the empty string stands for no child. */
  datatype Shallow =
    | SLeaf(key: Key, value: Bytes)
    | SExt(key: Key, next: Bytes)
    | SBranch(children: seq<Bytes>)

  /** The list that nodeHash encodes; the node kinds have different lengths. */
  function EncodeShallow(s: Shallow): (e: Item)
    ensures e.List? && |e.items| == if s.SBranch? then 1 else if s.SLeaf? then 2 else 3
  {
    match s
    case SLeaf(k, v) => List([Str(k), Str(v)])
    case SExt(k, n) => List([Str([1]), Str(k), Str(n)])
    case SBranch(c) => List([List(Strings(c))])
  }

  function Strings(c: seq<Bytes>): (items: seq<Item>)
    ensures |items| == |c|
    ensures forall i :: 0 <= i < |c| ==> items[i] == Str(c[i])
  {
    if c == [] then [] else [Str(c[0])] + Strings(c[1..])
  }

  /** decodeNode: the length of the list tells the kind. */
  function DecodeNode(parse: Bytes -> Option<seq<Item>>, e: Item): Option<Shallow> {
    if !e.List? then None
    else match |e.items|
      case 1 => DecodeBranch(parse, e.items[0])
      case 2 => if e.items[0].Str? && e.items[1].Str? then Some(SLeaf(e.items[0].bytes, e.items[1].bytes)) else None
      case 3 =>
        if e.items[0].Str? && e.items[1].Str? && e.items[2].Str?
        then Some(SExt(e.items[1].bytes, e.items[2].bytes)) else None
      case _ => None
  }

  /**
    decodeBranchNode: an inner list needs at least 17 elements, an inner string is accepted only when its
    content parses into exactly 17.
   */
  function DecodeBranch(parse: Bytes -> Option<seq<Item>>, inner: Item): Option<Shallow> {
    match inner
    case List(elems) => if |elems| < BRANCH_WIDTH then None else Some(SBranch(DecodeSlots(elems[..BRANCH_WIDTH])))
    case Str(content) =>
      match parse(content)
      case None => None
      case Some(elems) => if |elems| != BRANCH_WIDTH then None else Some(SBranch(DecodeSlots(elems)))
  }

  /** The items that describe a node: two strings, three strings, or 17 slots in a list or in a string that parses. */
  ghost predicate WellShaped(parse: Bytes -> Option<seq<Item>>, e: Item) {
    && e.List?
    && if |e.items| == 1 then
         match e.items[0]
         case List(slots) => |slots| >= BRANCH_WIDTH
         case Str(content) => parse(content).Some? && |parse(content).value| == BRANCH_WIDTH
       else |e.items| in {2, 3} && forall i :: 0 <= i < |e.items| ==> e.items[i].Str?
  }

  lemma DecodesWellShaped(parse: Bytes -> Option<seq<Item>>, e: Item)
    ensures DecodeNode(parse, e).Some? <==> WellShaped(parse, e)
  {
  }

  /** Only a string of hash length is a child. */
  function DecodeSlots(elems: seq<Item>): (c: seq<Bytes>)
    ensures |c| == |elems|
    ensures forall i :: 0 <= i < |c| ==>
      c[i] == if elems[i].Str? && |elems[i].bytes| == HASH_LENGTH then elems[i].bytes else []
  {
    if elems == [] then []
    else [if elems[0].Str? && |elems[0].bytes| == HASH_LENGTH then elems[0].bytes else []] + DecodeSlots(elems[1..])
  }

  /** What the encoder produces from real nodes. */
  predicate Proper(s: Shallow) {
    s.SBranch? ==> |s.children| == BRANCH_WIDTH && forall i :: 0 <= i < |s.children| ==>
      |s.children[i]| in {0, HASH_LENGTH}
  }

  lemma DecodeEncode(parse: Bytes -> Option<seq<Item>>, s: Shallow)
    requires Proper(s)
    ensures DecodeNode(parse, EncodeShallow(s)) == Some(s)
  {
    if s.SBranch? {
      assert Strings(s.children)[..BRANCH_WIDTH] == Strings(s.children);
      assert DecodeSlots(Strings(s.children)) == s.children;
    }
  }

  /** Whatever is decoded, the node that comes out is encoded to something that decodes to it. */
  lemma DecodeProper(parse: Bytes -> Option<seq<Item>>, e: Item)
    requires DecodeNode(parse, e).Some?
    ensures var s := DecodeNode(parse, e).value; Proper(s) && DecodeNode(parse, EncodeShallow(s)) == Some(s)
  {
    DecodeEncode(parse, DecodeNode(parse, e).value);
  }

  lemma EncodeInjective(a: Shallow, b: Shallow)
    requires EncodeShallow(a) == EncodeShallow(b)
    ensures a == b
  {
    if a.SBranch? {
      var x, y := Strings(a.children), Strings(b.children);
      assert EncodeShallow(a).items[0] == List(x) && EncodeShallow(b).items[0] == List(y);
      assert forall i :: 0 <= i < |x| ==> a.children[i] == x[i].bytes && b.children[i] == y[i].bytes;
    }
  }

  /** The node at the root of `t`, with its children replaced by their hashes. */
  function ShallowOf(cc: Codec, t: Tree): (s: Shallow)
    requires !t.Nil?
    ensures t.Branch? && |t.children| == BRANCH_WIDTH ==> Proper(s)
    decreases t, 0
  {
    match t
    case Leaf(k, v) => SLeaf(k, v)
    case Ext(k, n) => SExt(k, HashOf(cc, n))
    case Branch(c) => SBranch(seq(|c|, i requires 0 <= i < |c| => HashOf(cc, c[i])))
  }

  /** The Merkle hash computed from scratch; an empty slot has the empty hash. */
  function HashOf(cc: Codec, t: Tree): (h: Bytes)
    ensures |h| == if t.Nil? then 0 else HASH_LENGTH
    decreases t, 1
  {
    if t.Nil? then [] else cc.hash(EncodeShallow(ShallowOf(cc, t)))
  }

  /** The encoding of the root node of `t`. */
  function Encode(cc: Codec, t: Tree): Item
    requires !t.Nil?
  {
    EncodeShallow(ShallowOf(cc, t))
  }

  /**
    What is hashed and stored for the root node of `t`: a leaf is its key and its value; an extension is a mark,
    its key and the hash below; a branch is one list with the hash of each child in its slot.
   */
  ghost function Layout(cc: Codec, t: Tree): Item
    requires !t.Nil?
    decreases t, 0
  {
    match t
    case Leaf(k, v) => List([Str(k), Str(v)])
    case Ext(k, n) => List([Str([1]), Str(k), Str(Merkle(cc, n))])
    case Branch(c) => List([List(seq(|c|, i requires 0 <= i < |c| => Str(Merkle(cc, c[i]))))])
  }

  ghost function Merkle(cc: Codec, t: Tree): Bytes
    decreases t, 1
  {
    if t.Nil? then [] else cc.hash(Layout(cc, t))
  }

  lemma {:induction false} EncodeIsLayout(cc: Codec, t: Tree)
    ensures HashOf(cc, t) == Merkle(cc, t)
    ensures !t.Nil? ==> Encode(cc, t) == Layout(cc, t)
  {
    match t
    case Nil =>
    case Leaf(_, _) =>
    case Ext(_, n) => EncodeIsLayout(cc, n);
    case Branch(c) =>
      forall i | 0 <= i < |c| ensures HashOf(cc, c[i]) == Merkle(cc, c[i]) {
        EncodeIsLayout(cc, c[i]);
      }
      assert Strings(ShallowOf(cc, t).children) == Layout(cc, t).items[0].items;
  }

  /** The encodings of all nodes of `t`. */
  function Nodes(cc: Codec, t: Tree): set<Item>
    decreases t
  {
    match t
    case Nil => {}
    case Leaf(_, _) => {Encode(cc, t)}
    case Ext(_, n) => {Encode(cc, t)} + Nodes(cc, n)
    case Branch(c) => {Encode(cc, t)} + set i, e | 0 <= i < |c| && e in Nodes(cc, c[i]) :: e
  }

  /** The database holds every node of `t` under its hash. */
  predicate Stored(cc: Codec, db: Database, t: Tree)
    decreases t, 1
  {
    t.Nil? ||
    (&& cc.prefix + HashOf(cc, t) in db
     && db[cc.prefix + HashOf(cc, t)] == Encode(cc, t)
     && StoredBelow(cc, db, t))
  }

  /** The database holds every node below the root of `t`. */
  predicate StoredBelow(cc: Codec, db: Database, t: Tree)
    decreases t, 0
  {
    match t
    case Nil => true
    case Leaf(_, _) => true
    case Ext(_, n) => Stored(cc, db, n)
    case Branch(c) => forall i :: 0 <= i < |c| ==> Stored(cc, db, c[i])
  }

  /** `big` keeps every entry of `small`. */
  predicate Extends(small: Database, big: Database) {
    forall k :: k in small ==> k in big && big[k] == small[k]
  }

  lemma {:induction false} StoredMonotone(cc: Codec, small: Database, big: Database, t: Tree)
    requires Stored(cc, small, t) && Extends(small, big)
    ensures Stored(cc, big, t)
    decreases t, 1
  {
    StoredBelowMonotone(cc, small, big, t);
  }

  lemma {:induction false} StoredBelowMonotone(cc: Codec, small: Database, big: Database, t: Tree)
    requires StoredBelow(cc, small, t) && Extends(small, big)
    ensures StoredBelow(cc, big, t)
    decreases t, 0
  {
    match t
    case Nil =>
    case Leaf(_, _) =>
    case Ext(_, n) => StoredMonotone(cc, small, big, n);
    case Branch(c) =>
      forall i | 0 <= i < |c| ensures Stored(cc, big, c[i]) {
        StoredMonotone(cc, small, big, c[i]);
      }
  }
}
