/** The loops of Pack and UnpackValues (accounts/abi/argument.go, type.go, unpack.go). */
module AbiCalls {
  import opened Common
  import opened AbiWords
  import opened Abi
  import opened AbiLayout
  import opened AbiReads

  /** The element loop of Type.pack. */
  method PackList(e: Elem, vs: seq<Value>) returns (packed: Bytes)
    requires AllKindOk(e, vs)
    ensures packed == PackWords(e, vs)
  {
    packed := [];
    ghost var parts := WordParts(e, vs);
    for i := 0 to |vs|
      invariant packed == Flatten(parts[..i])
    {
      FlattenSnoc(parts, i);
      WordPartIs(e, vs, i);
      packed := packed + PackWord(e, vs[i]);
    }
    assert parts[..|vs|] == parts;
  }

  /** Type.pack, after the type check. */
  method PackOne(t: Type, v: Value) returns (packed: Bytes)
    requires Typed(t, v)
    ensures packed == PackType(t, v)
  {
    if t.SliceT? || t.ArrayT? {
      packed := PackList(t.elem, v.items);
      if t.SliceT? {
        packed := Word(|v.items|) + packed;
      }
    } else {
      packed := PackType(t, v);
    }
  }

  /** One round of the loop of Pack. */
  lemma PackStep(ts: seq<Type>, vs: seq<Value>, i: nat)
    requires AllTyped(ts, vs) && i < |ts|
    ensures Flatten(HeadParts(ts, vs)[..i + 1]) ==
      Flatten(HeadParts(ts, vs)[..i]) + HeadOf(ts[i], vs[i], Offset(ts, vs, i))
    ensures Flatten(TailParts(ts, vs)[..i + 1]) == Flatten(TailParts(ts, vs)[..i]) + TailOf(ts[i], vs[i])
  {
    FlattenSnoc(HeadParts(ts, vs), i);
    FlattenSnoc(TailParts(ts, vs), i);
  }

  /** Pack: None for an argument count or a type that does not match. */
  method Pack(ts: seq<Type>, vs: seq<Value>) returns (r: Option<Bytes>)
    ensures r == if AllTyped(ts, vs) then Some(Encode(ts, vs)) else None
    ensures r.Some? && |r.value| < TWO_256 ==> LaidOut(ts, vs, r.value)
  {
    if |vs| != |ts| {
      return None;
    }
    for i := 0 to |ts|
      invariant forall k :: 0 <= k < i ==> Typed(ts[k], vs[k])
    {
      if !Typed(ts[i], vs[i]) {
        return None;
      }
    }
    var data := PackAll(ts, vs);
    if |data| < TWO_256 {
      EncodeLaid(ts, vs);
    }
    return Some(data);
  }

  /** inputOffset in Pack: the size of all heads. */
  method InputOffset(ts: seq<Type>) returns (offset: nat)
    ensures offset == HeadPos(ts, |ts|)
  {
    offset := 0;
    for i := 0 to |ts|
      invariant offset == HeadPos(ts, i)
    {
      offset := offset + if ts[i].ArrayT? then 32 * ts[i].size else 32;
    }
  }

  /** One round of the loop of Pack. */
  method PackNext(t: Type, v: Value, offset: nat, ret: Bytes, variableInput: Bytes)
    returns (ret': Bytes, variableInput': Bytes)
    requires Typed(t, v)
    ensures ret' == ret + HeadOf(t, v, offset) && variableInput' == variableInput + TailOf(t, v)
  {
    var packed := PackOne(t, v);
    if Dynamic(t) {
      ret' := ret + Word(offset);
      variableInput' := variableInput + packed;
    } else {
      ret' := ret + packed;
      variableInput' := variableInput;
    }
  }

  method PackAll(ts: seq<Type>, vs: seq<Value>) returns (data: Bytes)
    requires AllTyped(ts, vs)
    ensures data == Encode(ts, vs)
  {
    var inputOffset := InputOffset(ts);
    var ret: Bytes, variableInput: Bytes := [], [];
    ghost var heads, tails := HeadParts(ts, vs), TailParts(ts, vs);
    for i := 0 to |ts|
      invariant ret == Flatten(heads[..i]) && variableInput == Flatten(tails[..i])
    {
      PackStep(ts, vs, i);
      var offset := inputOffset + |variableInput|;
      assert offset == Offset(ts, vs, i);
      ret, variableInput := PackNext(ts[i], vs[i], offset, ret, variableInput);
    }
    assert heads[..|ts|] == heads && tails[..|ts|] == tails;
    return ret + variableInput;
  }

  lemma {:induction false} ReadAllNone(e: Elem, data: Bytes, start: nat, k: nat, n: nat)
    requires k <= n && ReadAll(e, data, start, k) == None
    ensures ReadAll(e, data, start, n) == None
    decreases n
  {
    if k < n {
      ReadAllNone(e, data, start, k, n - 1);
    }
  }

  /** forEachUnpack */
  method ForEachUnpack(e: Elem, data: Bytes, start: nat, size: nat) returns (r: Option<Value>)
    ensures r == ReadList(e, data, start, size)
  {
    if start + 32 * size > |data| {
      return None;
    }
    var items := [];
    for j := 0 to size
      invariant ReadAll(e, data, start, j) == Some(items)
    {
      var v := ReadAt(e, data, start + 32 * j);
      if v.None? {
        ReadAllNone(e, data, start, j + 1, size);
        return None;
      }
      items := items + [v.value];
    }
    return Some(List(items));
  }

  /** toGoType */
  method ToGoType(data: Bytes, index: nat, t: Type) returns (r: Option<Value>)
    ensures r == ToValue(data, index, t)
  {
    if index + 32 > |data| {
      return None;
    }
    if Dynamic(t) {
      var p := LengthPrefix(data, index);
      if p.None? {
        return None;
      }
      var (begin, length) := p.value;
      if t.SliceT? {
        r := ForEachUnpack(t.elem, data, begin, length);
      } else {
        r := Some(Raw(data[begin..begin + length]));
      }
    } else if t.ArrayT? {
      r := ForEachUnpack(t.elem, data, index, t.size);
    } else {
      r := ReadWord(t.e, data[index..index + 32]);
    }
  }

  lemma {:induction false} DecodeNone(ts: seq<Type>, data: Bytes, k: nat, n: nat)
    requires k <= n <= |ts| && Decode(ts, data, k) == None
    ensures Decode(ts, data, n) == None
    decreases n
  {
    if k < n {
      DecodeNone(ts, data, k, n - 1);
    }
  }

  /** UnpackValues */
  method UnpackValues(ts: seq<Type>, data: Bytes) returns (r: Option<seq<Value>>)
    ensures r == Decode(ts, data, |ts|)
    ensures |data| < TWO_63 ==> forall vs :: r == Some(vs) <==> ArgumentsMean(ts, data, |ts|, vs)
  {
    r := UnpackAll(ts, data);
    if |data| < TWO_63 {
      DecodeExactly(ts, data, r);
    }
  }

  /** The loop of UnpackValues; an array counts as further, virtual arguments. */
  method UnpackAll(ts: seq<Type>, data: Bytes) returns (r: Option<seq<Value>>)
    ensures r == Decode(ts, data, |ts|)
  {
    var retval: seq<Value>, virtualArgs: int := [], 0;
    for index := 0 to |ts|
      invariant 32 * (index + virtualArgs) == HeadPos(ts, index)
      invariant Decode(ts, data, index) == Some(retval)
    {
      var v := ToGoType(data, (index + virtualArgs) * 32, ts[index]);
      if ts[index].ArrayT? {
        virtualArgs := virtualArgs + ts[index].size - 1;
      }
      if v.None? {
        DecodeNone(ts, data, index + 1, |ts|);
        return None;
      }
      retval := retval + [v.value];
    }
    return Some(retval);
  }
}
