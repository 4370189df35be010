/** What unpacking finds in any bytes at all, whether they were packed or not (accounts/abi/unpack.go). */
module AbiReads {
  import opened Common
  import opened AbiWords
  import opened Abi
  import opened AbiLayout

  /** How many integers of a width there are: those of 8, 16, 32 and 64 bits are machine integers. */
  function Range(bits: nat): nat {
    match bits
    case 8 => 0x100
    case 16 => 0x1_0000
    case 32 => 0x1_0000_0000
    case 64 => 0x1_0000_0000_0000_0000
    case _ => TWO_256
  }

  /** A word means a value: integers by their low bits, the other values by all or by their own bytes. */
  ghost predicate Means(e: Elem, w: Bytes, v: Value) {
    && |w| == 32
    && match e
       case UintT(bits) => v.Num? && 0 <= v.n < Range(bits) && (FromBytes(w) - v.n) % Range(bits) == 0
       case IntT(bits) =>
         v.Num? && -(Range(bits) / 2) <= v.n < Range(bits) / 2 && (FromBytes(w) - v.n) % Range(bits) == 0
       case BoolT => v.Bool? && FromBytes(w) == if v.b then 1 else 0
       case AddressT => v.Raw? && |v.bytes| == 20 && w == w[..12] + v.bytes
       case FixedBytesT(size) => v.Raw? && |v.bytes| == size && v.bytes <= w
       case FunctionT => v.Raw? && |v.bytes| == 24 && InFront(v.bytes, w)
  }

  /** Numbers that differ by a multiple of their range are the same. */
  lemma SameInRange(low: int, m: int, n: int, range: nat)
    requires range > 0 && low <= m < low + range && low <= n < low + range && (m - n) % range == 0
    ensures m == n
  {
    var d := (m - n) / range;
    assert m - n == range * d;
    Multiple(range, d);
  }

  lemma Congruent(u: int, m: int, n: int, range: nat)
    requires range > 0 && (u - m) % range == 0 && (u - n) % range == 0
    ensures (m - n) % range == 0
  {
    var a, b := (u - m) / range, (u - n) / range;
    assert m - n == range * (b - a) + 0;
    ModUnique(m - n, range, b - a, 0);
  }

  lemma Scaled(high: nat, p: nat, low: nat, x: nat)
    ensures (high * p + low) * 256 + x == high * (256 * p) + (low * 256 + x)
  {
    assert high * p * 256 == high * (256 * p);
  }

  /** The high bytes of a number count in multiples of what the low bytes can hold. */
  lemma {:induction false} HighBytes(b: Bytes, k: nat, high: Bytes, low: Bytes)
    requires b == high + low && |low| == k
    ensures FromBytes(b) == FromBytes(high) * Pow256(k) + FromBytes(low) && FromBytes(low) < Pow256(k)
    decreases k
  {
    if k == 0 {
      assert b == high;
    } else {
      var front, rest, x := b[..|b| - 1], low[..k - 1], low[k - 1];
      assert front == high + rest && b[|b| - 1] == x;
      HighBytes(front, k - 1, high, rest);
      Scaled(FromBytes(high), Pow256(k - 1), FromBytes(rest), x);
    }
  }

  lemma DividesOut(x: int, high: int, p: nat, u: int)
    requires p > 0 && x == high * p + u
    ensures (x - u) % p == 0
  {
    ModUnique(x - u, p, high, 0);
  }

  lemma WidthIs(bits: nat, p: nat)
    requires Native(bits) && p == Pow256(bits / 8)
    ensures p == Pow2(bits)
  {
    Pow256Values();
  }

  lemma LowBits(w: Bytes, bits: nat, u: nat)
    requires |w| == 32 && Native(bits) && u == FromBytes(w[32 - bits / 8..])
    ensures 0 <= u < Pow2(bits) && (FromBytes(w) - u) % Pow2(bits) == 0
  {
    var k := bits / 8;
    var x, p, high := FromBytes(w), Pow256(k), FromBytes(w[..32 - k]);
    assert x == high * p + u && u < p by {
      HighBytes(w, k, w[..32 - k], w[32 - k..]);
    }
    WidthIs(bits, p);
    DividesOut(x, high, p, u);
  }

  lemma AllBits(w: Bytes)
    requires |w| == 32
    ensures 0 <= FromBytes(w) < TWO_256
  {
    HighBytes(w, 32, [], w);
    Pow256Values();
  }

  /** A number less its range stands for the same bits. */
  lemma Lower(x: int, u: int, range: nat)
    requires range > 0 && (x - u) % range == 0
    ensures (x - (u - range)) % range == 0
  {
    var d := (x - u) / range;
    assert x - (u - range) == range * (d + 1) + 0;
    ModUnique(x - (u - range), range, d + 1, 0);
  }

  /** The bits of a word that an integer is read from. */
  lemma BitsOf(w: Bytes, bits: nat, u: nat)
    requires |w| == 32 && u == if Native(bits) then FromBytes(w[32 - bits / 8..]) else FromBytes(w)
    ensures u < Range(bits) && (FromBytes(w) - u) % Range(bits) == 0
  {
    if Native(bits) {
      LowBits(w, bits, u);
    } else {
      AllBits(w);
    }
  }

  /** How the bits are read as an integer. */
  lemma ReadIs(signed: bool, bits: nat, w: Bytes, u: nat)
    requires |w| == 32 && u == if Native(bits) then FromBytes(w[32 - bits / 8..]) else FromBytes(w)
    ensures var range := Range(bits);
      range % 2 == 0 && ReadInteger(signed, bits, w) == if signed && u >= range / 2 then u - range else u
  {
  }

  lemma ReadInRange(signed: bool, x: int, u: nat, range: nat, n: int)
    requires u < range && range % 2 == 0 && (x - u) % range == 0
    requires n == if signed && u >= range / 2 then u - range else u
    ensures (x - n) % range == 0 && if signed then -(range / 2) <= n < range / 2 else 0 <= n < range
  {
    if n != u {
      Lower(x, u, range);
    }
  }

  lemma IntegerMeans(signed: bool, bits: nat, w: Bytes)
    requires |w| == 32
    ensures Means(if signed then IntT(bits) else UintT(bits), w, Num(ReadInteger(signed, bits, w)))
  {
    var u := if Native(bits) then FromBytes(w[32 - bits / 8..]) else FromBytes(w);
    BitsOf(w, bits, u);
    ReadIs(signed, bits, w, u);
    ReadInRange(signed, FromBytes(w), u, Range(bits), ReadInteger(signed, bits, w));
  }

  lemma IntegerUnique(e: Elem, w: Bytes, m: Value, n: Value)
    requires (e.UintT? || e.IntT?) && Means(e, w, m) && Means(e, w, n)
    ensures m == n
  {
    var range: int := Range(e.bits);
    var low: int := if e.IntT? then 0 - range / 2 else 0;
    Congruent(FromBytes(w), m.n, n.n, range);
    SameInRange(low, m.n, n.n, range);
  }

  lemma SmallNumber(w: Bytes, n: nat)
    requires |w| == 32 && n <= 1
    ensures FromBytes(w) == n <==> w == Zeros(31) + [n]
  {
    SmallWord(n, 32);
    WordIs(n);
    SmallMod(n, TWO_256);
    if FromBytes(w) == n {
      SameNumber(w, Word(n));
    }
  }

  lemma BoolMeans(w: Bytes)
    requires |w| == 32
    ensures ReadWord(BoolT, w) == if FromBytes(w) <= 1 then Some(Bool(FromBytes(w) == 1)) else None
  {
    SmallNumber(w, 0);
    SmallNumber(w, 1);
    if ReadWord(BoolT, w).Some? {
      assert w == Zeros(31) + [w[31]];
    }
  }

  lemma Prefixes(w: Bytes, n: nat)
    ensures forall b: Bytes :: b <= w && |b| == n <==> n <= |w| && b == w[..n]
  {
    forall b: Bytes ensures b <= w && |b| == n <==> n <= |w| && b == w[..n] {
    }
  }

  /** Reading a word is exactly what it means. */
  lemma WordMeans(e: Elem, w: Bytes, v: Value)
    requires |w| == 32
    ensures ReadWord(e, w) == Some(v) <==> Means(e, w, v)
  {
    match e
    case UintT(bits) =>
      IntegerMeans(false, bits, w);
      if Means(e, w, v) {
        IntegerUnique(e, w, v, ReadWord(e, w).value);
      }
    case IntT(bits) =>
      IntegerMeans(true, bits, w);
      if Means(e, w, v) {
        IntegerUnique(e, w, v, ReadWord(e, w).value);
      }
    case BoolT => BoolMeans(w);
    case AddressT => assert w == w[..12] + w[12..];
    case FixedBytesT(size) => Prefixes(w, size);
    case FunctionT => Prefixes(w, 24);
  }

  /** The word at `pos` means the value. */
  ghost predicate MeansAt(e: Elem, data: Bytes, pos: nat, v: Value) {
    pos + 32 <= |data| && Means(e, data[pos..pos + 32], v)
  }

  /** The words from `pos` on mean the values. */
  ghost predicate ListMeans(e: Elem, data: Bytes, pos: nat, vs: seq<Value>) {
    pos + 32 * |vs| <= |data| && forall i {:trigger vs[i]} :: 0 <= i < |vs| ==> MeansAt(e, data, pos + 32 * i, vs[i])
  }

  /** The number at `pos`. */
  ghost function NumberOf(data: Bytes, pos: nat): nat {
    if pos + 32 <= |data| then FromBytes(data[pos..pos + 32]) else 0
  }

  /**
    The argument with its head at `pos`. For strings, bytes and slices the head is the position of the length, and at
    least as many bytes as the length says must follow it.
   */
  ghost predicate ArgumentMeans(data: Bytes, pos: nat, t: Type, v: Value) {
    && pos + 32 <= |data|
    && match t
       case Elementary(e) => MeansAt(e, data, pos, v)
       case ArrayT(e, size) => v.List? && |v.items| == size && ListMeans(e, data, pos, v.items)
       case SliceT(e) =>
         var off := NumberOf(data, pos);
         && off + 32 + NumberOf(data, off) <= |data|
         && v.List? && |v.items| == NumberOf(data, off) && ListMeans(e, data, off + 32, v.items)
       case _ =>
         var off := NumberOf(data, pos);
         && off + 32 + NumberOf(data, off) <= |data|
         && v.Raw? && |v.bytes| == NumberOf(data, off) && At(data, off + 32, v.bytes)
  }

  ghost predicate ArgumentsMean(ts: seq<Type>, data: Bytes, n: nat, vs: seq<Value>)
    requires n <= |ts|
  {
    |vs| == n && forall i {:trigger vs[i]} :: 0 <= i < n ==> ArgumentMeans(data, HeadPos(ts, i), ts[i], vs[i])
  }

  lemma ElementMeans(e: Elem, data: Bytes, pos: nat, v: Value)
    ensures ReadAt(e, data, pos) == Some(v) <==> MeansAt(e, data, pos, v)
  {
    if pos + 32 <= |data| {
      WordMeans(e, data[pos..pos + 32], v);
    }
  }

  lemma {:induction false} ReadAllSize(e: Elem, data: Bytes, pos: nat, n: nat)
    ensures ReadAll(e, data, pos, n).Some? ==> |ReadAll(e, data, pos, n).value| == n
    decreases n
  {
    if n > 0 {
      ReadAllSize(e, data, pos, n - 1);
    }
  }

  lemma {:induction false} ReadAllMeans(e: Elem, data: Bytes, pos: nat, n: nat, vs: seq<Value>)
    ensures ReadAll(e, data, pos, n) == Some(vs) <==>
      |vs| == n && forall i {:trigger vs[i]} :: 0 <= i < n ==> MeansAt(e, data, pos + 32 * i, vs[i])
    decreases n
  {
    ReadAllSize(e, data, pos, n);
    if n > 0 && |vs| == n {
      ReadAllMeans(e, data, pos, n - 1, vs[..n - 1]);
      ElementMeans(e, data, pos + 32 * (n - 1), vs[n - 1]);
      assert vs == vs[..n - 1] + [vs[n - 1]];
    }
  }

  lemma ReadListMeans(e: Elem, data: Bytes, pos: nat, n: nat, v: Value)
    ensures ReadList(e, data, pos, n) == Some(v) <==> v.List? && |v.items| == n && ListMeans(e, data, pos, v.items)
  {
    if v.List? {
      ReadAllMeans(e, data, pos, n, v.items);
    }
  }

  lemma PrefixMeans(data: Bytes, pos: nat)
    requires pos + 32 <= |data| < TWO_63
    ensures var off := NumberOf(data, pos); var length := NumberOf(data, off);
      LengthPrefix(data, pos) == if off + 32 + length <= |data| then Some((off + 32, length)) else None
  {
  }

  /** Reading an argument is exactly what its bytes mean. */
  lemma ValueMeans(data: Bytes, pos: nat, t: Type, v: Value)
    requires |data| < TWO_63
    ensures ToValue(data, pos, t) == Some(v) <==> ArgumentMeans(data, pos, t, v)
  {
    if pos + 32 <= |data| {
      var off := NumberOf(data, pos);
      PrefixMeans(data, pos);
      match t
      case Elementary(e) => ElementMeans(e, data, pos, v);
      case ArrayT(e, size) => ReadListMeans(e, data, pos, size, v);
      case SliceT(e) => ReadListMeans(e, data, off + 32, NumberOf(data, off), v);
      case StringT =>
      case BytesT =>
    }
  }

  lemma {:induction false} DecodeSize(ts: seq<Type>, data: Bytes, n: nat)
    requires n <= |ts|
    ensures Decode(ts, data, n).Some? ==> |Decode(ts, data, n).value| == n
    decreases n
  {
    if n > 0 {
      DecodeSize(ts, data, n - 1);
    }
  }

  /** UnpackValues gives the values that the bytes mean, for any bytes, and fails exactly when they mean none. */
  lemma {:induction false} DecodeMeans(ts: seq<Type>, data: Bytes, n: nat, vs: seq<Value>)
    requires n <= |ts| && |data| < TWO_63
    ensures Decode(ts, data, n) == Some(vs) <==> ArgumentsMean(ts, data, n, vs)
    decreases n
  {
    DecodeSize(ts, data, n);
    if n > 0 && |vs| == n {
      DecodeMeans(ts, data, n - 1, vs[..n - 1]);
      ValueMeans(data, HeadPos(ts, n - 1), ts[n - 1], vs[n - 1]);
      assert vs == vs[..n - 1] + [vs[n - 1]];
    }
  }

  lemma DecodeExactly(ts: seq<Type>, data: Bytes, r: Option<seq<Value>>)
    requires |data| < TWO_63 && r == Decode(ts, data, |ts|)
    ensures forall vs :: r == Some(vs) <==> ArgumentsMean(ts, data, |ts|, vs)
  {
    forall vs ensures r == Some(vs) <==> ArgumentsMean(ts, data, |ts|, vs) {
      DecodeMeans(ts, data, |ts|, vs);
    }
  }

  /** What a word means can be packed, and then comes back. */
  lemma MeansTyped(e: Elem, w: Bytes, v: Value)
    requires Means(e, w, v)
    ensures KindOk(e, v) && InRange(e, v)
  {
  }

  lemma ArgumentTyped(data: Bytes, pos: nat, t: Type, v: Value)
    requires ArgumentMeans(data, pos, t, v)
    ensures Typed(t, v) && ValueInRange(t, v)
  {
    if t.Elementary? {
      MeansTyped(t.e, data[pos..pos + 32], v);
    } else if t.SliceT? || t.ArrayT? {
      var start := if t.ArrayT? then pos else NumberOf(data, pos) + 32;
      forall i | 0 <= i < |v.items| ensures KindOk(t.elem, v.items[i]) && InRange(t.elem, v.items[i]) {
        assert MeansAt(t.elem, data, start + 32 * i, v.items[i]);
        MeansTyped(t.elem, data[start + 32 * i..start + 32 * i + 32], v.items[i]);
      }
    }
  }

  /** Whatever is unpacked from any bytes can be packed, and unpacks again to the same unless an empty array ends it. */
  lemma Repacks(ts: seq<Type>, data: Bytes, vs: seq<Value>)
    requires |data| < TWO_63 && Decode(ts, data, |ts|) == Some(vs)
    ensures AllTyped(ts, vs)
    ensures |Encode(ts, vs)| < TWO_63 ==> (Decode(ts, Encode(ts, vs), |ts|) == Some(vs) <==> Supported(ts))
  {
    DecodeMeans(ts, data, |ts|, vs);
    forall i | 0 <= i < |ts| ensures Typed(ts[i], vs[i]) && ValueInRange(ts[i], vs[i]) {
      ArgumentTyped(data, HeadPos(ts, i), ts[i], vs[i]);
    }
    if |Encode(ts, vs)| < TWO_63 {
      RoundTripExact(ts, vs);
    }
  }
}
