/** Packing and unpacking of argument lists (accounts/abi/argument.go, type.go, unpack.go). */
module Abi {
  import opened Common
  import opened AbiWords

  /** Elementary types, strings and bytes, and slices and one-level arrays of elementary types. */
  datatype Type = Elementary(e: Elem) | StringT | BytesT | SliceT(elem: Elem) | ArrayT(elem: Elem, size: nat)

  const TWO_63: nat := 0x8000_0000_0000_0000

  predicate AllKindOk(e: Elem, vs: seq<Value>) {
    forall i :: 0 <= i < |vs| ==> KindOk(e, vs[i])
  }

  /** typeCheck */
  predicate Typed(t: Type, v: Value) {
    match t
    case Elementary(e) => KindOk(e, v)
    case StringT => v.Raw?
    case BytesT => v.Raw?
    case SliceT(e) => v.List? && AllKindOk(e, v.items)
    case ArrayT(e, size) => v.List? && |v.items| == size && AllKindOk(e, v.items)
  }

  function Flatten(parts: seq<Bytes>): Bytes {
    if parts == [] then [] else Flatten(parts[..|parts| - 1]) + parts[|parts| - 1]
  }

  lemma FlattenSnoc(parts: seq<Bytes>, i: nat)
    requires i < |parts|
    ensures Flatten(parts[..i + 1]) == Flatten(parts[..i]) + parts[i]
  {
    assert parts[..i + 1][..i] == parts[..i];
  }

  lemma {:induction false} EqualParts(parts: seq<Bytes>, i: nat)
    requires i <= |parts| && forall k {:trigger parts[k]} :: 0 <= k < |parts| ==> |parts[k]| == 32
    ensures |Flatten(parts[..i])| == 32 * i
    decreases i
  {
    if i > 0 {
      EqualParts(parts, i - 1);
      assert parts[..i][..i - 1] == parts[..i - 1];
    }
  }

  function WordParts(e: Elem, vs: seq<Value>): (parts: seq<Bytes>)
    requires AllKindOk(e, vs)
    ensures |parts| == |vs| && forall k {:trigger parts[k]} :: 0 <= k < |vs| ==> |parts[k]| == 32
  {
    seq(|vs|, i requires 0 <= i < |vs| => PackWord(e, vs[i]))
  }

  function PackWords(e: Elem, vs: seq<Value>): (b: Bytes)
    requires AllKindOk(e, vs)
    ensures |b| == 32 * |vs|
  {
    var parts := WordParts(e, vs);
    EqualParts(parts, |vs|);
    assert parts[..|vs|] == parts;
    Flatten(parts)
  }

  /** RightPadBytes to a multiple of 32. */
  function Padded(b: Bytes): (p: Bytes)
    ensures |b| <= |p| && p[..|b|] == b && |p| % 32 == 0
  {
    b + Zeros((|b| + 31) / 32 * 32 - |b|)
  }

  /** requiresLengthPrefix */
  predicate Dynamic(t: Type) {
    t.StringT? || t.BytesT? || t.SliceT?
  }

  /** Type.pack */
  function PackType(t: Type, v: Value): (b: Bytes)
    requires Typed(t, v)
    ensures !Dynamic(t) ==> |b| == HeadSize(t)
  {
    match t
    case Elementary(e) => PackWord(e, v)
    case StringT => Word(|v.bytes|) + Padded(v.bytes)
    case BytesT => Word(|v.bytes|) + Padded(v.bytes)
    case SliceT(e) => Word(|v.items|) + PackWords(e, v.items)
    case ArrayT(e, _) => PackWords(e, v.items)
  }

  function HeadSize(t: Type): nat {
    if t.ArrayT? then 32 * t.size else 32
  }

  /** The heads of the first `i` arguments. */
  function HeadPos(ts: seq<Type>, i: nat): nat
    requires i <= |ts|
  {
    if i == 0 then 0 else HeadPos(ts, i - 1) + HeadSize(ts[i - 1])
  }

  predicate AllTyped(ts: seq<Type>, vs: seq<Value>) {
    |ts| == |vs| && forall i :: 0 <= i < |ts| ==> Typed(ts[i], vs[i])
  }

  /** What an argument puts into the head: its value, or the offset of its tail. */
  function HeadOf(t: Type, v: Value, off: nat): (b: Bytes)
    requires Typed(t, v)
    ensures |b| == HeadSize(t)
  {
    if Dynamic(t) then Word(off) else PackType(t, v)
  }

  function TailOf(t: Type, v: Value): Bytes
    requires Typed(t, v)
  {
    if Dynamic(t) then PackType(t, v) else []
  }

  function TailParts(ts: seq<Type>, vs: seq<Value>): seq<Bytes>
    requires AllTyped(ts, vs)
  {
    seq(|ts|, i requires 0 <= i < |ts| => TailOf(ts[i], vs[i]))
  }

  /** Where the tail of argument `i` is: after the heads and the tails before it. */
  function Offset(ts: seq<Type>, vs: seq<Value>, i: nat): nat
    requires AllTyped(ts, vs) && i <= |ts|
  {
    HeadPos(ts, |ts|) + |Flatten(TailParts(ts, vs)[..i])|
  }

  function HeadParts(ts: seq<Type>, vs: seq<Value>): seq<Bytes>
    requires AllTyped(ts, vs)
  {
    seq(|ts|, i requires 0 <= i < |ts| => HeadOf(ts[i], vs[i], Offset(ts, vs, i)))
  }

  /** The encoding of an argument list: the heads, then the tails. */
  function Encode(ts: seq<Type>, vs: seq<Value>): Bytes
    requires AllTyped(ts, vs)
  {
    Flatten(HeadParts(ts, vs)) + Flatten(TailParts(ts, vs))
  }

  /** lengthPrefixPointsTo: where the contents start, and their length. */
  function LengthPrefix(data: Bytes, index: nat): Option<(nat, nat)>
    requires index + 32 <= |data|
  {
    var offsetEnd := FromBytes(data[index..index + 32]) + 32;
    if offsetEnd > |data| || offsetEnd >= TWO_63 then None
    else
      var length := FromBytes(data[offsetEnd - 32..offsetEnd]);
      if offsetEnd + length >= TWO_63 || offsetEnd + length > |data| then None else Some((offsetEnd, length))
  }

  function ReadAt(e: Elem, data: Bytes, index: nat): Option<Value> {
    if index + 32 > |data| then None else ReadWord(e, data[index..index + 32])
  }

  /** `n` elements, one word each. */
  function ReadAll(e: Elem, data: Bytes, start: nat, n: nat): Option<seq<Value>>
    decreases n
  {
    if n == 0 then Some([])
    else
      var front := ReadAll(e, data, start, n - 1);
      var v := ReadAt(e, data, start + 32 * (n - 1));
      if front.None? || v.None? then None else Some(front.value + [v.value])
  }

  /** forEachUnpack */
  function ReadList(e: Elem, data: Bytes, start: nat, n: nat): Option<Value> {
    if start + 32 * n > |data| then None
    else
      var items := ReadAll(e, data, start, n);
      if items.None? then None else Some(List(items.value))
  }

  /** toGoType */
  function ToValue(data: Bytes, index: nat, t: Type): Option<Value> {
    if index + 32 > |data| then None
    else if Dynamic(t) then
      var p := LengthPrefix(data, index);
      if p.None? then None
      else if t.SliceT? then ReadList(t.elem, data, p.value.0, p.value.1)
      else if p.value.0 + p.value.1 <= |data| then Some(Raw(data[p.value.0..p.value.0 + p.value.1]))
      else None
    else if t.ArrayT? then ReadList(t.elem, data, index, t.size)
    else ReadAt(t.e, data, index)
  }

  /** UnpackValues, for the first `n` arguments: each is read at its head. */
  function Decode(ts: seq<Type>, data: Bytes, n: nat): Option<seq<Value>>
    requires n <= |ts|
  {
    if n == 0 then Some([])
    else
      var front := Decode(ts, data, n - 1);
      var v := ToValue(data, HeadPos(ts, n - 1), ts[n - 1]);
      if front.None? || v.None? then None else Some(front.value + [v.value])
  }

  function NormAll(e: Elem, vs: seq<Value>): seq<Value> {
    seq(|vs|, i requires 0 <= i < |vs| => Norm(e, vs[i]))
  }

  /** What comes back: big integers are cut to 256 bits. */
  function NormValue(t: Type, v: Value): Value
    requires Typed(t, v)
  {
    match t
    case Elementary(e) => Norm(e, v)
    case StringT => v
    case BytesT => v
    case SliceT(e) => List(NormAll(e, v.items))
    case ArrayT(e, _) => List(NormAll(e, v.items))
  }

  /** `b` stands in `data` at `pos`. */
  ghost predicate At(data: Bytes, pos: nat, b: Bytes) {
    pos + |b| <= |data| && data[pos..pos + |b|] == b
  }

  lemma AtSplit(data: Bytes, pos: nat, a: Bytes, b: Bytes)
    requires At(data, pos, a + b)
    ensures At(data, pos, a) && At(data, pos + |a|, b)
  {
    var both := data[pos..pos + |a + b|];
    assert both[..|a|] == a && both[|a|..] == b;
    assert data[pos..pos + |a|] == both[..|a|];
    assert data[pos + |a|..pos + |a| + |b|] == both[|a|..];
  }

  lemma ElementBack(e: Elem, v: Value, data: Bytes, pos: nat)
    requires KindOk(e, v) && At(data, pos, PackWord(e, v))
    ensures ReadAt(e, data, pos) == Some(Norm(e, v))
  {
    WordBack(e, v);
  }

  lemma {:induction false} PartAt(parts: seq<Bytes>, data: Bytes, pos: nat, i: nat)
    requires i < |parts| && At(data, pos, Flatten(parts))
    ensures At(data, pos + |Flatten(parts[..i])|, parts[i])
    decreases |parts|
  {
    var front := parts[..|parts| - 1];
    AtSplit(data, pos, Flatten(front), parts[|parts| - 1]);
    if i < |parts| - 1 {
      assert front[..i] == parts[..i];
      PartAt(front, data, pos, i);
    }
  }

  lemma WordPartIs(e: Elem, vs: seq<Value>, i: nat)
    requires AllKindOk(e, vs) && i < |vs|
    ensures WordParts(e, vs)[i] == PackWord(e, vs[i])
  {
  }

  lemma WordsAt(e: Elem, vs: seq<Value>, data: Bytes, start: nat, i: nat)
    requires AllKindOk(e, vs) && At(data, start, PackWords(e, vs)) && i < |vs|
    ensures At(data, start + 32 * i, PackWord(e, vs[i]))
  {
    var parts := WordParts(e, vs);
    PartAt(parts, data, start, i);
    EqualParts(parts, i);
    WordPartIs(e, vs, i);
  }

  lemma NormAt(e: Elem, vs: seq<Value>, i: nat)
    requires i < |vs|
    ensures NormAll(e, vs)[i] == Norm(e, vs[i])
  {
  }

  lemma ItemReads(e: Elem, vs: seq<Value>, data: Bytes, start: nat, i: nat)
    requires AllKindOk(e, vs) && At(data, start, PackWords(e, vs)) && i < |vs|
    ensures ReadAt(e, data, start + 32 * i) == Some(NormAll(e, vs)[i])
  {
    WordsAt(e, vs, data, start, i);
    ElementBack(e, vs[i], data, start + 32 * i);
    NormAt(e, vs, i);
  }

  lemma {:induction false} ListRead(e: Elem, data: Bytes, start: nat, ws: seq<Value>, n: nat)
    requires n <= |ws| && forall i {:trigger ws[i]} :: 0 <= i < |ws| ==> ReadAt(e, data, start + 32 * i) == Some(ws[i])
    ensures ReadAll(e, data, start, n) == Some(ws[..n])
  {
    if n > 0 {
      ListRead(e, data, start, ws, n - 1);
      assert ws[..n] == ws[..n - 1] + [ws[n - 1]];
    }
  }

  lemma ListBack(e: Elem, vs: seq<Value>, data: Bytes, start: nat)
    requires AllKindOk(e, vs) && At(data, start, PackWords(e, vs))
    ensures ReadAll(e, data, start, |vs|) == Some(NormAll(e, vs))
  {
    var ws := NormAll(e, vs);
    forall i | 0 <= i < |ws| ensures ReadAt(e, data, start + 32 * i) == Some(ws[i]) {
      ItemReads(e, vs, data, start, i);
    }
    ListRead(e, data, start, ws, |vs|);
    assert ws[..|vs|] == ws;
  }

  lemma SmallMod(n: nat, m: nat)
    requires n < m
    ensures n % m == n
  {
  }

  lemma SmallWordIs(n: nat)
    requires n < TWO_63
    ensures FromBytes(Word(n)) == n
  {
    WordIs(n);
    SmallMod(n, TWO_256);
  }

  lemma PrefixIs(data: Bytes, index: nat, off: nat, length: nat)
    requires index + 32 <= |data| < TWO_63 && off + 32 + length <= |data|
    requires FromBytes(data[index..index + 32]) == off && FromBytes(data[off..off + 32]) == length
    ensures LengthPrefix(data, index) == Some((off + 32, length))
  {
  }

  /** An offset word that points to a length word with enough bytes behind it. */
  lemma PrefixBack(data: Bytes, index: nat, off: nat, length: nat)
    requires |data| < TWO_63 && At(data, index, Word(off)) && At(data, off, Word(length)) && off + 32 + length <= |data|
    ensures LengthPrefix(data, index) == Some((off + 32, length))
  {
    SmallWordIs(off);
    SmallWordIs(length);
    PrefixIs(data, index, off, length);
  }

  lemma StaticBack(t: Type, v: Value, data: Bytes, pos: nat)
    requires !Dynamic(t) && Typed(t, v) && pos + 32 <= |data| && At(data, pos, PackType(t, v))
    ensures ToValue(data, pos, t) == Some(NormValue(t, v))
  {
    if t.ArrayT? {
      ListBack(t.elem, v.items, data, pos);
    } else {
      ElementBack(t.e, v, data, pos);
    }
  }

  lemma BytesBack(bytes: Bytes, data: Bytes, pos: nat, off: nat)
    requires |data| < TWO_63 && At(data, pos, Word(off)) && At(data, off, Word(|bytes|) + Padded(bytes))
    ensures LengthPrefix(data, pos) == Some((off + 32, |bytes|)) && data[off + 32..off + 32 + |bytes|] == bytes
  {
    AtSplit(data, off, Word(|bytes|), Padded(bytes));
    PrefixBack(data, pos, off, |bytes|);
    PaddedBack(bytes, data, off + 32);
  }

  lemma PaddedBack(bytes: Bytes, data: Bytes, start: nat)
    requires At(data, start, Padded(bytes))
    ensures start + |bytes| <= |data| && data[start..start + |bytes|] == bytes
  {
    var p := data[start..start + |Padded(bytes)|];
    assert p[..|bytes|] == bytes;
    assert data[start..start + |bytes|] == p[..|bytes|];
  }

  lemma SliceBack(e: Elem, vs: seq<Value>, data: Bytes, pos: nat, off: nat)
    requires |data| < TWO_63 && AllKindOk(e, vs) && At(data, pos, Word(off))
    requires At(data, off, Word(|vs|) + PackWords(e, vs))
    ensures ToValue(data, pos, SliceT(e)) == Some(List(NormAll(e, vs)))
  {
    AtSplit(data, off, Word(|vs|), PackWords(e, vs));
    PrefixBack(data, pos, off, |vs|);
    ListBack(e, vs, data, off + 32);
  }

  lemma RawAt(t: Type, bytes: Bytes, data: Bytes, pos: nat, start: nat)
    requires (t.StringT? || t.BytesT?) && pos + 32 <= |data| && LengthPrefix(data, pos) == Some((start, |bytes|))
    requires start + |bytes| <= |data| && data[start..start + |bytes|] == bytes
    ensures ToValue(data, pos, t) == Some(Raw(bytes))
  {
  }

  lemma BytesValueBack(t: Type, bytes: Bytes, data: Bytes, pos: nat, off: nat)
    requires |data| < TWO_63 && (t.StringT? || t.BytesT?) && At(data, pos, Word(off))
    requires At(data, off, Word(|bytes|) + Padded(bytes))
    ensures ToValue(data, pos, t) == Some(Raw(bytes))
  {
    BytesBack(bytes, data, pos, off);
    RawAt(t, bytes, data, pos, off + 32);
  }

  /** A value whose head stands at `pos` and whose tail stands at `off`. */
  lemma ValueBack(t: Type, v: Value, data: Bytes, pos: nat, off: nat)
    requires pos + 32 <= |data| < TWO_63 && Typed(t, v)
    requires At(data, pos, HeadOf(t, v, off)) && At(data, off, TailOf(t, v))
    ensures ToValue(data, pos, t) == Some(NormValue(t, v))
  {
    match t
    case Elementary(_) => StaticBack(t, v, data, pos);
    case ArrayT(_, _) => StaticBack(t, v, data, pos);
    case StringT => BytesValueBack(t, v.bytes, data, pos, off);
    case BytesT => BytesValueBack(t, v.bytes, data, pos, off);
    case SliceT(e) => SliceBack(e, v.items, data, pos, off);
  }

  /** Something is packed at or after the head of argument `i`: that head, a later one or any tail. */
  predicate Followed(ts: seq<Type>, i: nat) {
    exists k :: 0 <= k < |ts| && ((i <= k && HeadSize(ts[k]) > 0) || Dynamic(ts[k]))
  }

  /** No empty fixed array stands at the very end of the encoding. */
  predicate Supported(ts: seq<Type>) {
    forall i :: 0 <= i < |ts| ==> Followed(ts, i)
  }

  /** The heads from `i` to `n` take no room exactly when they are all of empty arrays; otherwise a word at least. */
  lemma {:induction false} HeadsBetween(ts: seq<Type>, i: nat, n: nat)
    requires i <= n <= |ts|
    ensures if exists k :: i <= k < n && HeadSize(ts[k]) > 0 then HeadPos(ts, n) >= HeadPos(ts, i) + 32
            else HeadPos(ts, n) == HeadPos(ts, i)
    decreases n
  {
    if i < n {
      HeadsBetween(ts, i, n - 1);
      if k :| i <= k < n && HeadSize(ts[k]) > 0 {
        assert k < n - 1 || k == n - 1;
      }
    }
  }

  lemma {:induction false} TailsFill(ts: seq<Type>, parts: seq<Bytes>, n: nat)
    requires n <= |ts| == |parts|
    requires forall k {:trigger parts[k]} :: 0 <= k < |ts| ==>
      if Dynamic(ts[k]) then |parts[k]| >= 32 else parts[k] == []
    ensures if exists k :: 0 <= k < n && Dynamic(ts[k]) then |Flatten(parts[..n])| >= 32 else Flatten(parts[..n]) == []
    decreases n
  {
    if n > 0 {
      TailsFill(ts, parts, n - 1);
      assert parts[..n][..n - 1] == parts[..n - 1] && parts[..n][n - 1] == parts[n - 1];
      if k :| 0 <= k < n && Dynamic(ts[k]) {
        assert k < n - 1 || k == n - 1;
      }
    }
  }

  lemma TailPartSizes(ts: seq<Type>, vs: seq<Value>, tails: seq<Bytes>)
    requires AllTyped(ts, vs) && tails == TailParts(ts, vs)
    ensures |tails| == |ts| && forall k {:trigger tails[k]} :: 0 <= k < |ts| ==>
      if Dynamic(ts[k]) then |tails[k]| >= 32 else tails[k] == []
  {
  }

  function NormValues(ts: seq<Type>, vs: seq<Value>): seq<Value>
    requires AllTyped(ts, vs)
  {
    seq(|ts|, i requires 0 <= i < |ts| => NormValue(ts[i], vs[i]))
  }

  /** The heads of the first `i` arguments fill HeadPos bytes. */
  lemma {:induction false} HeadsFill(ts: seq<Type>, parts: seq<Bytes>, i: nat)
    requires i <= |ts| == |parts| && forall k {:trigger parts[k]} :: 0 <= k < |ts| ==> |parts[k]| == HeadSize(ts[k])
    ensures |Flatten(parts[..i])| == HeadPos(ts, i)
    decreases i
  {
    if i > 0 {
      HeadsFill(ts, parts, i - 1);
      assert parts[..i][..i - 1] == parts[..i - 1];
    }
  }

  /** Always true: opens the predicate below. */
  ghost predicate Shown(k: nat) {
    true
  }

  /** The head and the tail of an argument stand at `pos` and `off`. */
  ghost predicate Stands(data: Bytes, pos: nat, off: nat, t: Type, v: Value) {
    Typed(t, v) && forall k: nat {:trigger Shown(k)} :: Shown(k) ==>
      At(data, pos, HeadOf(t, v, off)) && At(data, off, TailOf(t, v))
  }

  lemma PartsLaid(heads: seq<Bytes>, tails: seq<Bytes>, i: nat)
    requires i < |heads| == |tails|
    ensures At(Flatten(heads) + Flatten(tails), |Flatten(heads[..i])|, heads[i])
    ensures At(Flatten(heads) + Flatten(tails), |Flatten(heads)| + |Flatten(tails[..i])|, tails[i])
  {
    var data := Flatten(heads) + Flatten(tails);
    assert data[..|Flatten(heads)|] == Flatten(heads) && data[|Flatten(heads)|..] == Flatten(tails);
    PartAt(heads, data, 0, i);
    PartAt(tails, data, |Flatten(heads)|, i);
  }

  lemma PartsAre(ts: seq<Type>, vs: seq<Value>, i: nat)
    requires AllTyped(ts, vs) && i < |ts|
    ensures HeadParts(ts, vs)[i] == HeadOf(ts[i], vs[i], Offset(ts, vs, i))
    ensures TailParts(ts, vs)[i] == TailOf(ts[i], vs[i])
  {
  }

  lemma StandsFrom(data: Bytes, pos: nat, off: nat, t: Type, v: Value, head: Bytes, tail: Bytes)
    requires Typed(t, v) && head == HeadOf(t, v, off) && tail == TailOf(t, v) && At(data, pos, head)
    requires At(data, off, tail)
    ensures Stands(data, pos, off, t, v)
  {
  }

  lemma ItemLaid(ts: seq<Type>, heads: seq<Bytes>, tails: seq<Bytes>, data: Bytes, i: nat, off: nat)
    requires i < |ts| == |heads| == |tails| && data == Flatten(heads) + Flatten(tails)
    requires forall k {:trigger heads[k]} :: 0 <= k < |ts| ==> |heads[k]| == HeadSize(ts[k])
    requires off == HeadPos(ts, |ts|) + |Flatten(tails[..i])|
    ensures At(data, HeadPos(ts, i), heads[i]) && At(data, off, tails[i])
  {
    PartsLaid(heads, tails, i);
    HeadsFill(ts, heads, i);
    HeadsFill(ts, heads, |ts|);
    assert heads[..|ts|] == heads;
  }

  lemma HeadPartSizes(ts: seq<Type>, vs: seq<Value>, heads: seq<Bytes>)
    requires AllTyped(ts, vs) && heads == HeadParts(ts, vs)
    ensures |heads| == |ts| && forall k {:trigger heads[k]} :: 0 <= k < |ts| ==> |heads[k]| == HeadSize(ts[k])
  {
  }

  lemma PartsStand(ts: seq<Type>, heads: seq<Bytes>, tails: seq<Bytes>, data: Bytes, i: nat, off: nat, v: Value)
    requires i < |ts| == |heads| == |tails| && data == Flatten(heads) + Flatten(tails)
    requires forall k {:trigger heads[k]} :: 0 <= k < |ts| ==> |heads[k]| == HeadSize(ts[k])
    requires off == HeadPos(ts, |ts|) + |Flatten(tails[..i])|
    requires Typed(ts[i], v) && heads[i] == HeadOf(ts[i], v, off) && tails[i] == TailOf(ts[i], v)
    ensures Stands(data, HeadPos(ts, i), off, ts[i], v)
  {
    ItemLaid(ts, heads, tails, data, i, off);
    StandsFrom(data, HeadPos(ts, i), off, ts[i], v, heads[i], tails[i]);
  }

  lemma Laid(ts: seq<Type>, vs: seq<Value>, i: nat)
    requires AllTyped(ts, vs) && i < |ts|
    ensures Stands(Encode(ts, vs), HeadPos(ts, i), Offset(ts, vs, i), ts[i], vs[i])
  {
    HeadPartSizes(ts, vs, HeadParts(ts, vs));
    PartsAre(ts, vs, i);
    PartsStand(ts, HeadParts(ts, vs), TailParts(ts, vs), Encode(ts, vs), i, Offset(ts, vs, i), vs[i]);
  }

  lemma {:induction false} DecodeFrom(ts: seq<Type>, data: Bytes, ws: seq<Value>, n: nat)
    requires n <= |ws| == |ts| && forall i {:trigger ws[i]} :: 0 <= i < |ts| ==>
      ToValue(data, HeadPos(ts, i), ts[i]) == Some(ws[i])
    ensures Decode(ts, data, n) == Some(ws[..n])
  {
    if n > 0 {
      DecodeFrom(ts, data, ws, n - 1);
      assert ws[..n] == ws[..n - 1] + [ws[n - 1]];
    }
  }

  lemma StandingReads(data: Bytes, pos: nat, off: nat, t: Type, v: Value)
    requires pos + 32 <= |data| < TWO_63 && Stands(data, pos, off, t, v)
    ensures ToValue(data, pos, t) == Some(NormValue(t, v))
  {
    assert Shown(0);
    ValueBack(t, v, data, pos, off);
  }

  /** There is a word to read at the head of argument `i` exactly when something is packed there or behind it. */
  lemma RoomAt(ts: seq<Type>, vs: seq<Value>, i: nat)
    requires AllTyped(ts, vs) && i < |ts|
    ensures HeadPos(ts, i) + 32 <= |Encode(ts, vs)| <==> Followed(ts, i)
  {
    var heads, tails := HeadParts(ts, vs), TailParts(ts, vs);
    HeadPartSizes(ts, vs, heads);
    TailPartSizes(ts, vs, tails);
    HeadsFill(ts, heads, |ts|);
    assert heads[..|ts|] == heads && tails[..|ts|] == tails;
    HeadsBetween(ts, i, |ts|);
    TailsFill(ts, tails, |ts|);
  }

  lemma ItemBack(ts: seq<Type>, vs: seq<Value>, i: nat)
    requires AllTyped(ts, vs) && |Encode(ts, vs)| < TWO_63 && i < |ts| && Followed(ts, i)
    ensures ToValue(Encode(ts, vs), HeadPos(ts, i), ts[i]) == Some(NormValues(ts, vs)[i])
  {
    Laid(ts, vs, i);
    RoomAt(ts, vs, i);
    StandingReads(Encode(ts, vs), HeadPos(ts, i), Offset(ts, vs, i), ts[i], vs[i]);
  }

  lemma {:induction false} DecodeFails(ts: seq<Type>, data: Bytes, k: nat, n: nat)
    requires k < n <= |ts| && ToValue(data, HeadPos(ts, k), ts[k]) == None
    ensures Decode(ts, data, n) == None
    decreases n
  {
    if k < n - 1 {
      DecodeFails(ts, data, k, n - 1);
    }
  }

  /**
    UnpackValues after Pack gives back the arguments, big integers modulo 2^256, if and only if no empty fixed array
    stands at the very end of the encoding; otherwise it fails.
   */
  lemma RoundTrip(ts: seq<Type>, vs: seq<Value>)
    requires AllTyped(ts, vs) && |Encode(ts, vs)| < TWO_63
    ensures Decode(ts, Encode(ts, vs), |ts|) == if Supported(ts) then Some(NormValues(ts, vs)) else None
  {
    var data, ws := Encode(ts, vs), NormValues(ts, vs);
    if i :| 0 <= i < |ts| && !Followed(ts, i) {
      RoomAt(ts, vs, i);
      DecodeFails(ts, data, i, |ts|);
    } else {
      forall i | 0 <= i < |ts| ensures ToValue(data, HeadPos(ts, i), ts[i]) == Some(ws[i]) {
        ItemBack(ts, vs, i);
      }
      DecodeFrom(ts, data, ws, |ts|);
      assert ws[..|ts|] == ws;
    }
  }

  /** The value comes back as it was. */
  predicate ValueInRange(t: Type, v: Value) {
    match t
    case Elementary(e) => InRange(e, v)
    case StringT => true
    case BytesT => true
    case SliceT(e) => v.List? ==> forall i :: 0 <= i < |v.items| ==> InRange(e, v.items[i])
    case ArrayT(e, _) => v.List? ==> forall i :: 0 <= i < |v.items| ==> InRange(e, v.items[i])
  }

  lemma NormAllIsSame(e: Elem, vs: seq<Value>)
    ensures NormAll(e, vs) == vs <==> forall i :: 0 <= i < |vs| ==> InRange(e, vs[i])
  {
    forall i | 0 <= i < |vs| ensures NormAll(e, vs)[i] == vs[i] <==> InRange(e, vs[i]) {
      NormIsSame(e, vs[i]);
    }
    if NormAll(e, vs) == vs {
      assert forall i :: 0 <= i < |vs| ==> NormAll(e, vs)[i] == vs[i];
    }
  }

  lemma NormValueIsSame(t: Type, v: Value)
    requires Typed(t, v)
    ensures NormValue(t, v) == v <==> ValueInRange(t, v)
  {
    match t
    case Elementary(e) => NormIsSame(e, v);
    case SliceT(e) => NormAllIsSame(e, v.items);
    case ArrayT(e, _) => NormAllIsSame(e, v.items);
    case StringT =>
    case BytesT =>
  }

  /** Every argument comes back as it was. */
  predicate AllInRange(ts: seq<Type>, vs: seq<Value>)
    requires |ts| == |vs|
  {
    forall i :: 0 <= i < |ts| ==> ValueInRange(ts[i], vs[i])
  }

  /**
    The round trip is exact if and only if every big integer fits into 256 bits, signed ones with their sign, and no
    empty fixed array stands at the very end.
   */
  lemma RoundTripExact(ts: seq<Type>, vs: seq<Value>)
    requires AllTyped(ts, vs) && |Encode(ts, vs)| < TWO_63
    ensures Decode(ts, Encode(ts, vs), |ts|) == Some(vs) <==> Supported(ts) && AllInRange(ts, vs)
  {
    RoundTrip(ts, vs);
    var ws := NormValues(ts, vs);
    forall i | 0 <= i < |ts| ensures ws[i] == vs[i] <==> ValueInRange(ts[i], vs[i]) {
      NormValueIsSame(ts[i], vs[i]);
    }
    if ws == vs {
      assert forall i :: 0 <= i < |ts| ==> ws[i] == vs[i];
    }
  }

  /** An empty fixed array on its own packs to nothing and is not unpacked; before another argument it comes back. */
  lemma EmptyArrayFails()
    ensures Encode([ArrayT(UintT(256), 0)], [List([])]) == []
    ensures Decode([ArrayT(UintT(256), 0)], [], 1) == None
    ensures Supported([ArrayT(UintT(256), 0), Elementary(UintT(256))])
  {
    var ts, vs := [ArrayT(UintT(256), 0)], [List([])];
    assert HeadParts(ts, vs) == [[]] && TailParts(ts, vs) == [[]];
    assert !Followed(ts, 0);
    RoundTrip(ts, vs);
    var more := [ArrayT(UintT(256), 0), Elementary(UintT(256))];
    assert HeadSize(more[1]) > 0;
  }

  /** A number of 2^256 does not come back. */
  lemma TooLargeChanges()
    ensures AllTyped([Elementary(UintT(256))], [Num(TWO_256)])
    ensures Decode([Elementary(UintT(256))], Encode([Elementary(UintT(256))], [Num(TWO_256)]), 1) == Some([Num(0)])
  {
    var ts, vs := [Elementary(UintT(256))], [Num(TWO_256)];
    HeadPartSizes(ts, vs, HeadParts(ts, vs));
    HeadsFill(ts, HeadParts(ts, vs), 1);
    assert HeadParts(ts, vs)[..1] == HeadParts(ts, vs) && TailParts(ts, vs) == [[]];
    RoundTrip(ts, vs);
    assert HeadSize(ts[0]) > 0 && Followed(ts, 0);
    assert TWO_256 % TWO_256 == 0;
    assert NormValues(ts, vs)[0] == Num(0);
    assert NormValues(ts, vs) == [Num(0)];
  }
}
