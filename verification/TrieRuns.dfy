/** Whole runs of the trie: every sequence of operations answers as a finite map, and commits can be reloaded. */
module TrieRuns {
  import opened Common
  import opened TrieKeys
  import opened TrieTree
  import opened TrieCanonical
  import opened TrieCodec
  import opened TrieProof
  import N = TrieNodes

  datatype Op =
    | PutOp(key: Bytes, value: Bytes)
    | GetOp(key: Bytes)
    | DeleteOp(key: Bytes)
    | DeletePrefixOp(prefix: Bytes)

  /** What the caller learns from an operation; the result of DeletePrefix is treated apart. */
  datatype Reply = Done | Got(value: Option<Bytes>) | Deleted(found: bool)

  /** One operation on the trie, as Trie.Put, Get, Delete and DeletePrefix perform it. */
  function TreeStep(t: Tree, op: Op): (Tree, Reply)
    requires WellFormed(t, false)
  {
    match op
    case PutOp(k, v) => (Insert(t, Hex(k), v), Done)
    case GetOp(k) => (t, Got(Lookup(t, Hex(k))))
    case DeleteOp(k) => var (found, t') := Delete(t, Hex(k), false); (t', Deleted(found))
    case DeletePrefixOp(p) => (if p == [] then t else Delete(t, Nibbles(p), true).1, Done)
  }

  /** The same operation on a finite map. */
  function MapStep(m: map<Bytes, Bytes>, op: Op): (map<Bytes, Bytes>, Reply) {
    match op
    case PutOp(k, v) => (m[k := v], Done)
    case GetOp(k) => (m, Got(if k in m then Some(m[k]) else None))
    case DeleteOp(k) => (m - {k}, Deleted(k in m))
    case DeletePrefixOp(p) => (if p == [] then m else Without(m, p), Done)
  }

  lemma StepWellFormed(t: Tree, op: Op)
    requires WellFormed(t, false)
    ensures WellFormed(TreeStep(t, op).0, false)
  {
    match op
    case PutOp(k, v) => InsertWellFormed(t, Hex(k), v);
    case GetOp(k) =>
    case DeleteOp(k) => DeleteWellFormed(t, Hex(k), false);
    case DeletePrefixOp(p) =>
      if p != [] {
        DeleteWellFormed(t, Nibbles(p), true);
      }
  }

  /** One operation agrees with the map. */
  lemma StepRefines(t: Tree, m: map<Bytes, Bytes>, op: Op)
    requires WellFormed(t, false) && Holds(t, m)
    ensures Holds(TreeStep(t, op).0, MapStep(m, op).0)
    ensures TreeStep(t, op).1 == MapStep(m, op).1
  {
    match op
    case PutOp(k, v) => InsertHolds(t, m, k, v);
    case GetOp(k) => HeldIffPresent(t, m, k);
    case DeleteOp(k) => DeleteHolds(t, m, k);
    case DeletePrefixOp(p) =>
      if p != [] {
        DeletePrefixHolds(t, m, p);
      }
  }

  /** Every entry of this trie's part of the database lies under its own hash. */
  ghost predicate ContentAddressed(cc: Codec, db: Database) {
    forall k :: k in db && cc.prefix <= k && |k| == |cc.prefix| + HASH_LENGTH ==> k == cc.prefix + cc.hash(db[k])
  }

  lemma PrefixInjective(p: Bytes, a: Bytes, b: Bytes)
    requires p + a == p + b
    ensures a == b
  {
    assert a == (p + a)[|p|..] && b == (p + b)[|p|..];
  }

  lemma KeysApart(cc: Codec, items: set<Item>)
    requires InjectiveOn(cc, items)
    ensures forall x, y :: x in items && y in items && cc.prefix + cc.hash(x) == cc.prefix + cc.hash(y) ==> x == y
  {
    forall x, y | x in items && y in items && cc.prefix + cc.hash(x) == cc.prefix + cc.hash(y) ensures x == y {
      PrefixInjective(cc.prefix, cc.hash(x), cc.hash(y));
    }
  }

  /** The nodes of a trie, each under its hash. */
  function NodeMap(cc: Codec, t: Tree): Database
    requires InjectiveOn(cc, Nodes(cc, t))
  {
    KeysApart(cc, Nodes(cc, t));
    map e | e in Nodes(cc, t) :: cc.prefix + cc.hash(e) := e
  }

  lemma {:induction false} StoredInMap(cc: Codec, db: Database, t: Tree)
    requires forall e :: e in Nodes(cc, t) ==> cc.prefix + cc.hash(e) in db && db[cc.prefix + cc.hash(e)] == e
    ensures Stored(cc, db, t)
    decreases t
  {
    match t
    case Nil =>
    case Leaf(_, _) => assert Encode(cc, t) in Nodes(cc, t);
    case Ext(_, n) =>
      assert Encode(cc, t) in Nodes(cc, t);
      StoredInMap(cc, db, n);
    case Branch(c) =>
      assert Encode(cc, t) in Nodes(cc, t);
      forall i | 0 <= i < |c| ensures Stored(cc, db, c[i]) {
        StoredInMap(cc, db, c[i]);
      }
  }

  /** A node that shares its key with a stored entry is that entry. */
  lemma NodeMapAgrees(cc: Codec, db: Database, items: set<Item>, e: Item)
    requires ContentAddressed(cc, db) && InjectiveOn(cc, db.Values + items)
    requires e in items && cc.prefix + cc.hash(e) in db
    ensures db[cc.prefix + cc.hash(e)] == e
  {
    var k := cc.prefix + cc.hash(e);
    PrefixInjective(cc.prefix, cc.hash(e), cc.hash(db[k]));
    assert db[k] in db.Values;
  }

  lemma NodeMapAddressed(cc: Codec, t: Tree)
    requires InjectiveOn(cc, Nodes(cc, t))
    ensures ContentAddressed(cc, NodeMap(cc, t))
  {
    var nodes := NodeMap(cc, t);
    forall k | k in nodes ensures k == cc.prefix + cc.hash(nodes[k]) {
      var e :| e in Nodes(cc, t) && cc.prefix + cc.hash(e) == k && nodes[cc.prefix + cc.hash(e)] == e;
    }
  }

  lemma NodeMapExtends(cc: Codec, db: Database, t: Tree)
    requires ContentAddressed(cc, db) && InjectiveOn(cc, Nodes(cc, t)) && InjectiveOn(cc, db.Values + Nodes(cc, t))
    ensures Extends(db, db + NodeMap(cc, t))
  {
    var nodes := NodeMap(cc, t);
    forall k | k in db && k in nodes ensures nodes[k] == db[k] {
      var e :| e in Nodes(cc, t) && cc.prefix + cc.hash(e) == k && nodes[cc.prefix + cc.hash(e)] == e;
      NodeMapAgrees(cc, db, Nodes(cc, t), e);
    }
  }

  /** No two of the encodings have the same hash, and none has the hash that stands for the empty trie. */
  ghost predicate Collisionless(cc: Codec, items: set<Item>) {
    InjectiveOn(cc, items) && forall e :: e in items ==> cc.hash(e) != N.EMPTY_HASH
  }

  /** Without collisions between the database and the trie, one database has room for both. */
  lemma RoomForBoth(cc: Codec, db: Database, t: Tree) returns (room: Database)
    requires ContentAddressed(cc, db) && InjectiveOn(cc, db.Values + Nodes(cc, t))
    ensures Extends(db, room) && Stored(cc, room, t) && ContentAddressed(cc, room)
    ensures room.Values <= db.Values + Nodes(cc, t)
  {
    room := db + NodeMap(cc, t);
    NodeMapExtends(cc, db, t);
    NodeMapAddressed(cc, t);
    NodeMapHas(cc, t);
    StoredInMap(cc, room, t);
    NodeMapValues(cc, db, t);
  }

  lemma NodeMapValues(cc: Codec, db: Database, t: Tree)
    requires InjectiveOn(cc, Nodes(cc, t))
    ensures (db + NodeMap(cc, t)).Values <= db.Values + Nodes(cc, t)
  {
    var room := db + NodeMap(cc, t);
    forall e | e in room.Values ensures e in db.Values + Nodes(cc, t) {
      var k :| k in room && room[k] == e;
    }
  }

  lemma NodeMapHas(cc: Codec, t: Tree)
    requires InjectiveOn(cc, Nodes(cc, t))
    ensures forall e :: e in Nodes(cc, t) ==>
              cc.prefix + cc.hash(e) in NodeMap(cc, t) && NodeMap(cc, t)[cc.prefix + cc.hash(e)] == e
  {
    KeysApart(cc, Nodes(cc, t));
  }

  /** A part of a content-addressed database is content-addressed, so commits can go on. */
  lemma PartContentAddressed(cc: Codec, part: Database, db: Database)
    requires ContentAddressed(cc, db) && Extends(part, db)
    ensures ContentAddressed(cc, part) && part.Values <= db.Values
  {
    forall e | e in part.Values ensures e in db.Values {
      var k :| k in part && part[k] == e;
      assert k in db;
    }
  }

  /**
    What a user of the trie calls: an operation, Hash, Commit into the open batch, writing that batch, or closing and
    NewTrie.
   */
  datatype Call = Use(op: Op) | HashCall | CommitCall | WriteCall | ReopenCall

  datatype Answer = Replied(reply: Reply) | Root(hash: Bytes)

  function TreeCall(t: Tree, call: Call): (t': Tree)
    requires WellFormed(t, false)
    ensures WellFormed(t', false)
  {
    if call.Use? then StepWellFormed(t, call.op); TreeStep(t, call.op).0 else t
  }

  function MapCall(m: map<Bytes, Bytes>, call: Call): map<Bytes, Bytes> {
    if call.Use? then MapStep(m, call.op).0 else m
  }

  /** What the call should answer: as a finite map does, or the root hash computed from scratch. */
  function CallAnswer(cc: Codec, t: Tree, m: map<Bytes, Bytes>, call: Call): Answer {
    match call
    case Use(op) => Replied(MapStep(m, op).1)
    case WriteCall => Replied(Done)
    case _ => Root(N.RootHash(cc, t))
  }

  function Answers(cc: Codec, t: Tree, m: map<Bytes, Bytes>, calls: seq<Call>): seq<Answer>
    requires WellFormed(t, false)
    decreases |calls|
  {
    if calls == [] then []
    else [CallAnswer(cc, t, m, calls[0])] + Answers(cc, TreeCall(t, calls[0]), MapCall(m, calls[0]), calls[1..])
  }

  function TreeAfter(t: Tree, calls: seq<Call>): (t': Tree)
    requires WellFormed(t, false)
    ensures WellFormed(t', false)
    decreases |calls|
  {
    if calls == [] then t else TreeAfter(TreeCall(t, calls[0]), calls[1..])
  }

  function MapAfter(m: map<Bytes, Bytes>, calls: seq<Call>): map<Bytes, Bytes>
    decreases |calls|
  {
    if calls == [] then m else MapAfter(MapCall(m, calls[0]), calls[1..])
  }

  /** The encodings of all nodes of all tries of a run. */
  function RunNodes(cc: Codec, t: Tree, calls: seq<Call>): set<Item>
    requires WellFormed(t, false)
    decreases |calls|
  {
    Nodes(cc, t) + if calls == [] then {} else RunNodes(cc, TreeCall(t, calls[0]), calls[1..])
  }

  /** The trie holds the map, and its database with the open batch has only entries of `items`, each under its hash. */
  ghost predicate Serving(tr: N.Trie, batch: Database, m: map<Bytes, Bytes>, items: set<Item>)
    reads tr, if tr.root.At? then {tr.root.node} + tr.root.node.repr else {}
  {
    && tr.Valid() && Holds(tr.tree, m) && tr.store == tr.db + batch
    && ContentAddressed(tr.cc, tr.store) && tr.store.Values <= items
  }

  ghost function Parts(tr: N.Trie): set<object>
    reads tr, if tr.root.At? then {tr.root.node} else {}
  {
    {tr} + N.ReprOf(tr.root)
  }

  method UseTrie(tr: N.Trie, op: Op, ghost m: map<Bytes, Bytes>) returns (reply: Reply)
    requires tr.Valid() && Holds(tr.tree, m)
    modifies tr`root, tr`tree, N.ReprOf(tr.root)
    ensures tr.Valid() && tr.tree == TreeStep(old(tr.tree), op).0 && Holds(tr.tree, MapStep(m, op).0)
    ensures reply == MapStep(m, op).1 && fresh(N.ReprOf(tr.root) - old(N.ReprOf(tr.root)))
  {
    StepRefines(tr.tree, m, op);
    reply := Done;
    match op {
      case PutOp(k, v) =>
        tr.Put(k, v);
      case GetOp(k) =>
        var value := tr.Get(k);
        reply := Got(value);
      case DeleteOp(k) =>
        var found := tr.Delete(k);
        reply := Deleted(found);
      case DeletePrefixOp(p) =>
        var _ := tr.DeletePrefix(p);
    }
  }

  /** Commit into the open batch: the hypothesis about collisions is enough, and is kept for the next commit. */
  method CommitInto(tr: N.Trie, batch: Database, ghost m: map<Bytes, Bytes>, ghost items: set<Item>)
    returns (h: Hash, batch': Database)
    requires Serving(tr, batch, m, items) && Nodes(tr.cc, tr.tree) <= items && Collisionless(tr.cc, items)
    modifies tr`store, N.ReprOf(tr.root)
    ensures Serving(tr, batch', m, items) && h == N.RootHash(tr.cc, tr.tree)
    ensures Stored(tr.cc, tr.db + batch', tr.tree) && N.ReprOf(tr.root) == old(N.ReprOf(tr.root))
  {
    ghost var room := RoomForBoth(tr.cc, tr.store, tr.tree);
    h, batch' := tr.Commit(batch, room);
    PartContentAddressed(tr.cc, tr.store, room);
  }

  lemma NothingStaged(db: Database)
    ensures db + map[] == db
  {
  }

  /** Commit and write the batch: the database then stores the whole trie. */
  method CommitAndWrite(tr: N.Trie, batch: Database, ghost m: map<Bytes, Bytes>, ghost items: set<Item>)
    returns (h: Hash)
    requires Serving(tr, batch, m, items) && Nodes(tr.cc, tr.tree) <= items && Collisionless(tr.cc, items)
    modifies tr`store, tr`db, N.ReprOf(tr.root)
    ensures Serving(tr, map[], m, items) && h == N.RootHash(tr.cc, tr.tree) && Stored(tr.cc, tr.db, tr.tree)
  {
    var batch';
    h, batch' := CommitInto(tr, batch, m, items);
    tr.Apply(batch');
    NothingStaged(tr.db);
  }

  /** NewTrie on a database that stores the trie `t` of the map `m`. */
  method Reopen(cc: Codec, h: Hash, db: Database, ghost t: Tree, ghost m: map<Bytes, Bytes>, ghost items: set<Item>)
    returns (reopened: N.Trie)
    requires Stored(cc, db, t) && WellFormed(t, false) && Holds(t, m) && h == N.RootHash(cc, t)
    requires Nodes(cc, t) <= items && Collisionless(cc, items) && ContentAddressed(cc, db) && db.Values <= items
    ensures Serving(reopened, map[], m, items) && reopened.tree == t && reopened.cc == cc
    ensures fresh(reopened) && fresh(N.ReprOf(reopened.root))
  {
    assert !t.Nil? ==> Encode(cc, t) in Nodes(cc, t);
    NothingStaged(db);
    reopened := new N.Trie.Open(cc, h, db, t);
  }

  /** Commit, write the batch and open the returned root: the reopened trie is the committed one. */
  method CommitAndReopen(tr: N.Trie, batch: Database, ghost m: map<Bytes, Bytes>, ghost items: set<Item>)
    returns (h: Hash, reopened: N.Trie)
    requires Serving(tr, batch, m, items) && Nodes(tr.cc, tr.tree) <= items && Collisionless(tr.cc, items)
    modifies tr`store, tr`db, N.ReprOf(tr.root)
    ensures h == N.RootHash(tr.cc, tr.tree) && Serving(reopened, map[], m, items)
    ensures reopened.tree == tr.tree && reopened.cc == tr.cc && fresh(reopened) && fresh(N.ReprOf(reopened.root))
  {
    h := CommitAndWrite(tr, batch, m, items);
    NothingStaged(tr.db);
    reopened := Reopen(tr.cc, h, tr.db, tr.tree, m, items);
  }

  /** Hash, Commit into the open batch, and writing the batch leave the trie as it is. */
  method Keep(tr: N.Trie, batch: Database, call: Call, ghost m: map<Bytes, Bytes>, ghost items: set<Item>)
    returns (answer: Answer, batch': Database)
    requires Serving(tr, batch, m, items) && Nodes(tr.cc, tr.tree) <= items && Collisionless(tr.cc, items)
    requires call.HashCall? || call.CommitCall? || call.WriteCall?
    modifies tr`db, tr`store, N.ReprOf(tr.root)
    ensures Serving(tr, batch', m, items) && N.ReprOf(tr.root) == old(N.ReprOf(tr.root))
    ensures answer == CallAnswer(tr.cc, tr.tree, m, call)
  {
    if call.HashCall? {
      var h := tr.Hash();
      answer, batch' := Root(h), batch;
    } else if call.CommitCall? {
      var h;
      h, batch' := CommitInto(tr, batch, m, items);
      answer := Root(h);
    } else {
      tr.Apply(batch);
      NothingStaged(tr.db);
      answer, batch' := Replied(Done), map[];
    }
  }

  /** One call of a run. */
  method Serve(tr: N.Trie, batch: Database, call: Call, ghost m: map<Bytes, Bytes>, ghost items: set<Item>)
    returns (answer: Answer, next: N.Trie, batch': Database)
    requires Serving(tr, batch, m, items) && Nodes(tr.cc, tr.tree) <= items && Collisionless(tr.cc, items)
    modifies tr, N.ReprOf(tr.root)
    ensures Serving(next, batch', MapCall(m, call), items) && next.cc == tr.cc
    ensures next.tree == TreeCall(old(tr.tree), call) && fresh(Parts(next) - old(Parts(tr)))
    ensures answer == CallAnswer(tr.cc, old(tr.tree), m, call)
  {
    next, batch' := tr, batch;
    if call.Use? {
      var reply := UseTrie(tr, call.op, m);
      answer := Replied(reply);
    } else if call.ReopenCall? {
      var h;
      h, next := CommitAndReopen(tr, batch, m, items);
      batch', answer := map[], Root(h);
    } else {
      answer, batch' := Keep(tr, batch, call, m, items);
    }
  }

  /** A run from a trie with an open batch. */
  method ServeAll(tr: N.Trie, batch: Database, calls: seq<Call>, ghost m: map<Bytes, Bytes>, ghost items: set<Item>)
    returns (answers: seq<Answer>, last: N.Trie)
    requires Serving(tr, batch, m, items) && RunNodes(tr.cc, tr.tree, calls) <= items && Collisionless(tr.cc, items)
    modifies tr, N.ReprOf(tr.root)
    ensures answers == Answers(tr.cc, old(tr.tree), m, calls)
    ensures last.Valid() && last.cc == tr.cc && last.tree == TreeAfter(old(tr.tree), calls)
    ensures Holds(last.tree, MapAfter(m, calls))
    decreases |calls|
  {
    if calls == [] {
      return [], tr;
    }
    var answer, next, batch' := Serve(tr, batch, calls[0], m, items);
    answers, last := ServeAll(next, batch', calls[1..], MapCall(m, calls[0]), items);
    answers := [answer] + answers;
  }

  /**
    Every run of calls on a trie, over nodes in memory and nodes not loaded yet: operations are answered as by a finite
    map, and every root hash is the one computed from scratch.
   */
  method RunTrie(tr: N.Trie, calls: seq<Call>, ghost m: map<Bytes, Bytes>) returns (answers: seq<Answer>, last: N.Trie)
    requires tr.Valid() && Holds(tr.tree, m) && tr.store == tr.db && ContentAddressed(tr.cc, tr.db)
    requires Collisionless(tr.cc, tr.db.Values + RunNodes(tr.cc, tr.tree, calls))
    modifies tr, N.ReprOf(tr.root)
    ensures answers == Answers(tr.cc, old(tr.tree), m, calls)
    ensures last.Valid() && last.cc == tr.cc && last.tree == TreeAfter(old(tr.tree), calls)
    ensures Holds(last.tree, MapAfter(m, calls))
  {
    NothingStaged(tr.db);
    answers, last := ServeAll(tr, map[], calls, m, tr.db.Values + RunNodes(tr.cc, tr.tree, calls));
  }

  /** The trie after a run holds the map after the run. */
  lemma {:induction false} RunHolds(t: Tree, m: map<Bytes, Bytes>, calls: seq<Call>)
    requires WellFormed(t, false) && Holds(t, m)
    ensures Holds(TreeAfter(t, calls), MapAfter(m, calls))
    decreases |calls|
  {
    if calls != [] {
      if calls[0].Use? {
        StepRefines(t, m, calls[0].op);
      }
      RunHolds(TreeCall(t, calls[0]), MapCall(m, calls[0]), calls[1..]);
    }
  }

  predicate NoDeletePrefix(calls: seq<Call>) {
    forall i :: 0 <= i < |calls| ==> !(calls[i].Use? && calls[i].op.DeletePrefixOp?)
  }

  /** Without DeletePrefix a trie stays stocked. */
  lemma {:induction false} RunStocked(t: Tree, calls: seq<Call>)
    requires WellFormed(t, false) && Stocked(t) && NoDeletePrefix(calls)
    ensures Stocked(TreeAfter(t, calls))
    decreases |calls|
  {
    if calls != [] {
      if calls[0].Use? {
        match calls[0].op
        case PutOp(k, v) => InsertStocked(t, Hex(k), v);
        case GetOp(k) =>
        case DeleteOp(k) => DeleteStocked(t, Hex(k));
      }
      RunStocked(TreeCall(t, calls[0]), calls[1..]);
    }
  }

  /**
    After every run without DeletePrefix, a proof misses a stored key exactly when it is a strict prefix of another
    one.
   */
  lemma ProvableAfterRun(calls: seq<Call>, k: Bytes)
    requires NoDeletePrefix(calls) && k in MapAfter(map[], calls)
    ensures Visible(TreeAfter(Nil, calls), Hex(k)).None? <==>
      exists s :: s in MapAfter(map[], calls) && s != k && k <= s
  {
    RunHolds(Nil, map[], calls);
    RunStocked(Nil, calls);
    HiddenIffStrictPrefix(TreeAfter(Nil, calls), MapAfter(map[], calls), k);
  }
}
