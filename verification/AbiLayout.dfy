/** The layout of packed arguments: what the bytes that Pack returns hold, and that nothing else is laid out so. */
module AbiLayout {
  import opened Common
  import opened AbiWords
  import opened Abi

  /** A word holds a number, a truth value as 1 or 0 and an address as its number; other bytes stand in front. */
  ghost predicate Holds(e: Elem, v: Value, w: Bytes)
    requires KindOk(e, v)
  {
    && |w| == 32
    && match e
       case UintT(_) => FromBytes(w) == v.n % TWO_256
       case IntT(_) => FromBytes(w) == v.n % TWO_256
       case BoolT => FromBytes(w) == if v.b then 1 else 0
       case AddressT => FromBytes(w) == FromBytes(v.bytes)
       case FixedBytesT(_) => InFront(v.bytes, w)
       case FunctionT => InFront(v.bytes, w)
  }

  /** The bytes, then zeros. */
  ghost predicate InFront(bytes: Bytes, w: Bytes) {
    bytes <= w && forall i :: |bytes| <= i < |w| ==> w[i] == 0
  }

  ghost predicate HoldsAt(e: Elem, v: Value, data: Bytes, pos: nat)
    requires KindOk(e, v)
  {
    pos + 32 <= |data| && Holds(e, v, data[pos..pos + 32])
  }

  /** One value after the other. */
  ghost predicate HoldsAll(e: Elem, vs: seq<Value>, data: Bytes, pos: nat)
    requires AllKindOk(e, vs)
  {
    forall i {:trigger vs[i]} :: 0 <= i < |vs| ==> HoldsAt(e, vs[i], data, pos + 32 * i)
  }

  ghost predicate NumberAt(data: Bytes, pos: nat, n: nat) {
    pos + 32 <= |data| && FromBytes(data[pos..pos + 32]) == n
  }

  /** The length, rounded up to whole words. */
  function Rounded(n: nat): nat {
    (n + 31) / 32 * 32
  }

  ghost predicate PaddedAt(data: Bytes, pos: nat, bytes: Bytes) {
    pos + Rounded(|bytes|) <= |data| && InFront(bytes, data[pos..pos + Rounded(|bytes|)])
  }

  function TailSize(t: Type, v: Value): nat
    requires Typed(t, v)
  {
    match t
    case StringT => 32 + Rounded(|v.bytes|)
    case BytesT => 32 + Rounded(|v.bytes|)
    case SliceT(_) => 32 + 32 * |v.items|
    case _ => 0
  }

  /** The tail of argument `i` comes after all heads and the tails before it. */
  function TailPos(ts: seq<Type>, vs: seq<Value>, i: nat): nat
    requires AllTyped(ts, vs) && i <= |ts|
  {
    if i == 0 then HeadPos(ts, |ts|) else TailPos(ts, vs, i - 1) + TailSize(ts[i - 1], vs[i - 1])
  }

  /**
    The head at `pos` is the value; for strings, bytes and slices it is the position `off` of the length, which the
    contents follow.
   */
  ghost predicate ArgumentLaid(data: Bytes, pos: nat, off: nat, t: Type, v: Value)
    requires Typed(t, v)
  {
    match t
    case Elementary(e) => HoldsAt(e, v, data, pos)
    case ArrayT(e, _) => HoldsAll(e, v.items, data, pos)
    case SliceT(e) => NumberAt(data, pos, off) && NumberAt(data, off, |v.items|) && HoldsAll(e, v.items, data, off + 32)
    case _ => NumberAt(data, pos, off) && NumberAt(data, off, |v.bytes|) && PaddedAt(data, off + 32, v.bytes)
  }

  ghost predicate LaidOut(ts: seq<Type>, vs: seq<Value>, data: Bytes)
    requires AllTyped(ts, vs)
  {
    && |data| == TailPos(ts, vs, |ts|)
    && forall i {:trigger vs[i]} :: 0 <= i < |ts| ==>
      ArgumentLaid(data, HeadPos(ts, i), TailPos(ts, vs, i), ts[i], vs[i])
  }

  /** The first byte of a number counts most. */
  lemma {:induction false} LeadingByte(x: Byte, rest: Bytes)
    ensures FromBytes([x] + rest) == x * Pow256(|rest|) + FromBytes(rest)
  {
    var b := [x] + rest;
    if rest == [] {
      assert b == [x] && b[..0] == [];
    } else {
      var front := rest[..|rest| - 1];
      assert b[..|b| - 1] == [x] + front;
      LeadingByte(x, front);
      assert 256 * (x * Pow256(|front|)) == x * Pow256(|rest|);
    }
  }

  lemma {:induction false} LeadingZeros(n: nat, b: Bytes)
    ensures FromBytes(Zeros(n) + b) == FromBytes(b)
  {
    var all := Zeros(n) + b;
    if b != [] {
      assert all[..|all| - 1] == Zeros(n) + b[..|b| - 1];
      LeadingZeros(n, b[..|b| - 1]);
    } else if n > 0 {
      assert all == Zeros(n) && all[..n - 1] == Zeros(n - 1) + [];
      LeadingZeros(n - 1, []);
    }
  }

  /** Byte strings of the same length that hold the same number are the same. */
  lemma {:induction false} SameNumber(a: Bytes, b: Bytes)
    requires |a| == |b| && FromBytes(a) == FromBytes(b)
    ensures a == b
  {
    if a != [] {
      var n := |a| - 1;
      SameNumber(a[..n], b[..n]);
      assert a == a[..n] + [a[n]] && b == b[..n] + [b[n]];
    }
  }

  lemma PackHolds(e: Elem, v: Value)
    requires KindOk(e, v)
    ensures Holds(e, v, PackWord(e, v))
  {
    match e
    case UintT(_) => WordIs(v.n);
    case IntT(_) => WordIs(v.n);
    case BoolT => WordIs(if v.b then 1 else 0);
    case AddressT => LeadingZeros(12, v.bytes);
    case FixedBytesT(_) =>
    case FunctionT =>
  }

  lemma FrontIs(bytes: Bytes, w: Bytes, v: Bytes)
    requires InFront(bytes, w) && InFront(bytes, v) && |w| == |v|
    ensures w == v
  {
    forall i | 0 <= i < |w| ensures w[i] == v[i] {
      assert i < |bytes| ==> w[i] == bytes[i] && v[i] == bytes[i];
    }
  }

  /** Only one word holds a value. */
  lemma HeldIsPacked(e: Elem, v: Value, w: Bytes)
    requires KindOk(e, v) && Holds(e, v, w)
    ensures w == PackWord(e, v)
  {
    PackHolds(e, v);
    if e.FixedBytesT? || e.FunctionT? {
      FrontIs(v.bytes, w, PackWord(e, v));
    } else {
      SameNumber(w, PackWord(e, v));
    }
  }

  lemma WordAt(data: Bytes, pos: nat, n: nat)
    requires n < TWO_256
    ensures At(data, pos, Word(n)) <==> NumberAt(data, pos, n)
  {
    WordIs(n);
    SmallMod(n, TWO_256);
    if NumberAt(data, pos, n) {
      SameNumber(data[pos..pos + 32], Word(n));
    }
  }

  lemma PaddedInFront(bytes: Bytes)
    ensures |Padded(bytes)| == Rounded(|bytes|) && InFront(bytes, Padded(bytes))
  {
  }

  lemma PaddingAt(data: Bytes, pos: nat, bytes: Bytes)
    ensures At(data, pos, Padded(bytes)) <==> PaddedAt(data, pos, bytes)
  {
    PaddedInFront(bytes);
    if PaddedAt(data, pos, bytes) {
      FrontIs(bytes, data[pos..pos + Rounded(|bytes|)], Padded(bytes));
    }
  }

  lemma ElementAt(e: Elem, v: Value, data: Bytes, pos: nat)
    requires KindOk(e, v)
    ensures At(data, pos, PackWord(e, v)) <==> HoldsAt(e, v, data, pos)
  {
    PackHolds(e, v);
    if HoldsAt(e, v, data, pos) {
      HeldIsPacked(e, v, data[pos..pos + 32]);
    }
  }

  lemma AtJoin(data: Bytes, pos: nat, a: Bytes, b: Bytes)
    requires At(data, pos, a) && At(data, pos + |a|, b)
    ensures At(data, pos, a + b)
  {
    assert data[pos..pos + |a + b|] == data[pos..pos + |a|] + data[pos + |a|..pos + |a| + |b|];
  }

  /** Part `i` stands behind the parts before it. */
  ghost predicate PartStands(parts: seq<Bytes>, data: Bytes, pos: nat, i: nat) {
    i < |parts| && At(data, pos + |Flatten(parts[..i])|, parts[i])
  }

  /** Parts that stand one after the other. */
  lemma {:induction false} PartsJoin(parts: seq<Bytes>, data: Bytes, pos: nat, n: nat)
    requires n <= |parts| && pos <= |data|
    requires forall i :: 0 <= i < |parts| ==> PartStands(parts, data, pos, i)
    ensures At(data, pos, Flatten(parts[..n]))
    decreases n
  {
    if n > 0 {
      PartsJoin(parts, data, pos, n - 1);
      FlattenSnoc(parts, n - 1);
      assert PartStands(parts, data, pos, n - 1);
      AtJoin(data, pos, Flatten(parts[..n - 1]), parts[n - 1]);
    }
  }

  lemma PartsFill(parts: seq<Bytes>, data: Bytes, pos: nat)
    requires pos <= |data|
    requires forall i :: 0 <= i < |parts| ==> PartStands(parts, data, pos, i)
    ensures At(data, pos, Flatten(parts))
  {
    PartsJoin(parts, data, pos, |parts|);
    assert parts[..|parts|] == parts;
  }

  lemma HeldParts(e: Elem, vs: seq<Value>, data: Bytes, pos: nat, i: nat)
    requires AllKindOk(e, vs) && HoldsAll(e, vs, data, pos) && i < |vs|
    ensures PartStands(WordParts(e, vs), data, pos, i)
  {
    EqualParts(WordParts(e, vs), i);
    WordPartIs(e, vs, i);
    ElementAt(e, vs[i], data, pos + 32 * i);
  }

  lemma HeldWords(e: Elem, vs: seq<Value>, data: Bytes, pos: nat)
    requires AllKindOk(e, vs) && pos <= |data| && HoldsAll(e, vs, data, pos)
    ensures At(data, pos, PackWords(e, vs))
  {
    var parts := WordParts(e, vs);
    forall i | 0 <= i < |parts| ensures PartStands(parts, data, pos, i) {
      HeldParts(e, vs, data, pos, i);
    }
    PartsFill(parts, data, pos);
  }

  lemma ListAt(e: Elem, vs: seq<Value>, data: Bytes, pos: nat)
    requires AllKindOk(e, vs) && pos <= |data|
    ensures At(data, pos, PackWords(e, vs)) <==> HoldsAll(e, vs, data, pos)
  {
    if At(data, pos, PackWords(e, vs)) {
      forall i | 0 <= i < |vs| ensures HoldsAt(e, vs[i], data, pos + 32 * i) {
        WordsAt(e, vs, data, pos, i);
        ElementAt(e, vs[i], data, pos + 32 * i);
      }
    } else if HoldsAll(e, vs, data, pos) {
      HeldWords(e, vs, data, pos);
    }
  }

  lemma AtBoth(data: Bytes, pos: nat, a: Bytes, b: Bytes)
    ensures At(data, pos, a + b) <==> At(data, pos, a) && At(data, pos + |a|, b)
  {
    if At(data, pos, a + b) {
      AtSplit(data, pos, a, b);
    } else if At(data, pos, a) && At(data, pos + |a|, b) {
      AtJoin(data, pos, a, b);
    }
  }

  lemma BytesLaid(data: Bytes, pos: nat, off: nat, bytes: Bytes)
    requires off < TWO_256 && |bytes| < TWO_256
    ensures At(data, pos, Word(off)) && At(data, off, Word(|bytes|) + Padded(bytes)) <==>
      NumberAt(data, pos, off) && NumberAt(data, off, |bytes|) && PaddedAt(data, off + 32, bytes)
  {
    WordAt(data, pos, off);
    AtBoth(data, off, Word(|bytes|), Padded(bytes));
    WordAt(data, off, |bytes|);
    PaddingAt(data, off + 32, bytes);
  }

  lemma SliceLaid(data: Bytes, pos: nat, off: nat, e: Elem, vs: seq<Value>)
    requires AllKindOk(e, vs) && off < TWO_256 && |vs| < TWO_256
    ensures At(data, pos, Word(off)) && At(data, off, Word(|vs|) + PackWords(e, vs)) <==>
      NumberAt(data, pos, off) && NumberAt(data, off, |vs|) && HoldsAll(e, vs, data, off + 32)
  {
    WordAt(data, pos, off);
    AtBoth(data, off, Word(|vs|), PackWords(e, vs));
    WordAt(data, off, |vs|);
    if off + 32 <= |data| {
      ListAt(e, vs, data, off + 32);
    }
  }

  lemma StaticLaid(data: Bytes, pos: nat, off: nat, t: Type, v: Value)
    requires !Dynamic(t) && Typed(t, v) && pos <= |data|
    ensures At(data, pos, HeadOf(t, v, off)) <==> ArgumentLaid(data, pos, off, t, v)
  {
    if t.ArrayT? {
      ListAt(t.elem, v.items, data, pos);
    } else {
      ElementAt(t.e, v, data, pos);
    }
  }

  /** An argument's head and tail stand where they should exactly when they are laid out so. */
  lemma StandsLaid(data: Bytes, pos: nat, off: nat, t: Type, v: Value)
    requires Typed(t, v) && pos <= |data| && off <= |data| < TWO_256 && TailSize(t, v) < TWO_256
    ensures At(data, pos, HeadOf(t, v, off)) && At(data, off, TailOf(t, v)) <==> ArgumentLaid(data, pos, off, t, v)
  {
    if !Dynamic(t) {
      StaticLaid(data, pos, off, t, v);
    } else if t.SliceT? {
      SliceLaid(data, pos, off, t.elem, v.items);
    } else {
      BytesLaid(data, pos, off, v.bytes);
    }
  }

  lemma TailIs(t: Type, v: Value)
    requires Typed(t, v)
    ensures |TailOf(t, v)| == TailSize(t, v)
  {
    if t.StringT? || t.BytesT? {
      PaddedInFront(v.bytes);
    }
  }

  lemma {:induction false} TailsSum(ts: seq<Type>, vs: seq<Value>, tails: seq<Bytes>, i: nat)
    requires AllTyped(ts, vs) && i <= |ts| == |tails|
    requires forall k {:trigger tails[k]} :: 0 <= k < |ts| ==> |tails[k]| == TailSize(ts[k], vs[k])
    ensures TailPos(ts, vs, i) == HeadPos(ts, |ts|) + |Flatten(tails[..i])|
    decreases i
  {
    if i > 0 {
      TailsSum(ts, vs, tails, i - 1);
      assert tails[..i][..i - 1] == tails[..i - 1];
    }
  }

  lemma TailPosIs(ts: seq<Type>, vs: seq<Value>, i: nat)
    requires AllTyped(ts, vs) && i <= |ts|
    ensures TailPos(ts, vs, i) == Offset(ts, vs, i)
  {
    var tails := TailParts(ts, vs);
    forall k | 0 <= k < |ts| ensures |tails[k]| == TailSize(ts[k], vs[k]) {
      TailIs(ts[k], vs[k]);
    }
    TailsSum(ts, vs, tails, i);
  }

  lemma {:induction false} TailPosGrows(ts: seq<Type>, vs: seq<Value>, i: nat, n: nat)
    requires AllTyped(ts, vs) && i <= n <= |ts|
    ensures TailPos(ts, vs, i) <= TailPos(ts, vs, n)
    ensures i < n ==> TailPos(ts, vs, i) + TailSize(ts[i], vs[i]) <= TailPos(ts, vs, n)
    decreases n
  {
    if i < n {
      TailPosGrows(ts, vs, i, n - 1);
    }
  }

  lemma {:induction false} HeadPosGrows(ts: seq<Type>, i: nat, n: nat)
    requires i <= n <= |ts|
    ensures HeadPos(ts, i) <= HeadPos(ts, n)
    decreases n
  {
    if i < n {
      HeadPosGrows(ts, i, n - 1);
    }
  }

  /** All positions of argument `i` are within `data`. */
  lemma Within(ts: seq<Type>, vs: seq<Value>, data: Bytes, i: nat)
    requires AllTyped(ts, vs) && i < |ts| && |data| == TailPos(ts, vs, |ts|)
    ensures HeadPos(ts, i) <= HeadPos(ts, |ts|) <= TailPos(ts, vs, i) <= |data| && TailSize(ts[i], vs[i]) <= |data|
  {
    HeadPosGrows(ts, i, |ts|);
    TailPosGrows(ts, vs, 0, i);
    TailPosGrows(ts, vs, i, |ts|);
  }

  lemma EncodeSize(ts: seq<Type>, vs: seq<Value>)
    requires AllTyped(ts, vs)
    ensures |Encode(ts, vs)| == TailPos(ts, vs, |ts|)
  {
    var heads, tails := HeadParts(ts, vs), TailParts(ts, vs);
    HeadPartSizes(ts, vs, heads);
    HeadsFill(ts, heads, |ts|);
    TailPosIs(ts, vs, |ts|);
    assert heads[..|ts|] == heads && tails[..|ts|] == tails;
  }

  /** What Pack returns is laid out as the contract ABI says. */
  lemma EncodeLaid(ts: seq<Type>, vs: seq<Value>)
    requires AllTyped(ts, vs) && |Encode(ts, vs)| < TWO_256
    ensures LaidOut(ts, vs, Encode(ts, vs))
  {
    var data := Encode(ts, vs);
    EncodeSize(ts, vs);
    forall i | 0 <= i < |ts| ensures ArgumentLaid(data, HeadPos(ts, i), TailPos(ts, vs, i), ts[i], vs[i]) {
      EncodedArgument(ts, vs, data, i);
    }
  }

  lemma EncodedArgument(ts: seq<Type>, vs: seq<Value>, data: Bytes, i: nat)
    requires AllTyped(ts, vs) && data == Encode(ts, vs) && |data| == TailPos(ts, vs, |ts|) < TWO_256 && i < |ts|
    ensures ArgumentLaid(data, HeadPos(ts, i), TailPos(ts, vs, i), ts[i], vs[i])
  {
    Laid(ts, vs, i);
    assert Shown(0);
    TailPosIs(ts, vs, i);
    Within(ts, vs, data, i);
    StandsLaid(data, HeadPos(ts, i), TailPos(ts, vs, i), ts[i], vs[i]);
  }

  /** The head and the tail of a laid out argument. */
  lemma LaidArgument(ts: seq<Type>, vs: seq<Value>, data: Bytes, i: nat)
    requires AllTyped(ts, vs) && LaidOut(ts, vs, data) && |data| < TWO_256 && i < |ts|
    ensures At(data, HeadPos(ts, i), HeadOf(ts[i], vs[i], Offset(ts, vs, i)))
    ensures At(data, Offset(ts, vs, i), TailOf(ts[i], vs[i]))
  {
    assert ArgumentLaid(data, HeadPos(ts, i), TailPos(ts, vs, i), ts[i], vs[i]);
    Within(ts, vs, data, i);
    TailPosIs(ts, vs, i);
    StandsLaid(data, HeadPos(ts, i), TailPos(ts, vs, i), ts[i], vs[i]);
  }

  lemma StandsBehind(parts: seq<Bytes>, data: Bytes, pos: nat, i: nat, at: nat, part: Bytes)
    requires i < |parts| && parts[i] == part && at == pos + |Flatten(parts[..i])| && At(data, at, part)
    ensures PartStands(parts, data, pos, i)
  {
  }

  lemma PartsOf(ts: seq<Type>, vs: seq<Value>, data: Bytes, heads: seq<Bytes>, tails: seq<Bytes>, i: nat)
    requires AllTyped(ts, vs) && LaidOut(ts, vs, data) && |data| < TWO_256 && i < |ts|
    requires heads == HeadParts(ts, vs) && tails == TailParts(ts, vs)
    ensures PartStands(heads, data, 0, i) && PartStands(tails, data, HeadPos(ts, |ts|), i)
  {
    var before, off := HeadPos(ts, i), Offset(ts, vs, i);
    var head, tail := HeadOf(ts[i], vs[i], off), TailOf(ts[i], vs[i]);
    assert |Flatten(heads[..i])| == before by {
      HeadPartSizes(ts, vs, heads);
      HeadsFill(ts, heads, i);
    }
    assert At(data, before, head) && At(data, off, tail) by {
      LaidArgument(ts, vs, data, i);
    }
    assert heads[i] == head && tails[i] == tail by {
      PartsAre(ts, vs, i);
    }
    StandsBehind(heads, data, 0, i, before, head);
    StandsBehind(tails, data, HeadPos(ts, |ts|), i, off, tail);
  }

  lemma Joined(data: Bytes, heads: Bytes, tails: Bytes)
    requires At(data, 0, heads) && At(data, |heads|, tails) && |data| == |heads| + |tails|
    ensures data == heads + tails
  {
    AtJoin(data, 0, heads, tails);
  }

  lemma LaidParts(ts: seq<Type>, vs: seq<Value>, data: Bytes, heads: seq<Bytes>, tails: seq<Bytes>)
    requires AllTyped(ts, vs) && LaidOut(ts, vs, data) && |data| < TWO_256
    requires heads == HeadParts(ts, vs) && tails == TailParts(ts, vs) && HeadPos(ts, |ts|) <= |data|
    ensures At(data, 0, Flatten(heads)) && At(data, HeadPos(ts, |ts|), Flatten(tails))
  {
    var n := HeadPos(ts, |ts|);
    forall i | 0 <= i < |ts| ensures PartStands(heads, data, 0, i) && PartStands(tails, data, n, i) {
      PartsOf(ts, vs, data, heads, tails, i);
    }
    PartsFill(heads, data, 0);
    PartsFill(tails, data, n);
  }

  /** Nothing else is laid out so. */
  lemma LaidIsEncode(ts: seq<Type>, vs: seq<Value>, data: Bytes)
    requires AllTyped(ts, vs) && LaidOut(ts, vs, data) && |data| < TWO_256
    ensures data == Encode(ts, vs)
  {
    var heads, tails := HeadParts(ts, vs), TailParts(ts, vs);
    TailPosGrows(ts, vs, 0, |ts|);
    LaidParts(ts, vs, data, heads, tails);
    HeadPartSizes(ts, vs, heads);
    HeadsFill(ts, heads, |ts|);
    assert heads[..|ts|] == heads;
    EncodeSize(ts, vs);
    Joined(data, Flatten(heads), Flatten(tails));
  }
}
