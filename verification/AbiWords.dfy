/** The 32-byte words of the contract ABI: packing and reading elementary values (accounts/abi). */
module AbiWords {
  import opened Common

  const TWO_256: nat := 0x10000000000000000000000000000000000000000000000000000000000000000

  /** The elementary types: integers of a number of bits, booleans, addresses, fixed bytes and functions. */
  datatype Elem = UintT(bits: nat) | IntT(bits: nat) | BoolT | AddressT | FixedBytesT(size: nat) | FunctionT

  datatype Value = Num(n: int) | Bool(b: bool) | Raw(bytes: Bytes) | List(items: seq<Value>)

  /** The low `len` bytes of a number, big-endian, in two's complement when it is negative. */
  function BigEndian(n: int, len: nat): (b: Bytes)
    ensures |b| == len
    decreases len
  {
    if len == 0 then [] else BigEndian(n / 256, len - 1) + [n % 256]
  }

  /** big.SetBytes */
  function FromBytes(b: Bytes): nat {
    if b == [] then 0 else FromBytes(b[..|b| - 1]) * 256 + b[|b| - 1]
  }

  function Pow256(k: nat): (p: nat)
    ensures p > 0
  {
    if k == 0 then 1 else 256 * Pow256(k - 1)
  }

  lemma Pow256Values()
    ensures Pow256(1) == 0x100 && Pow256(2) == 0x10000 && Pow256(4) == 0x100000000 && Pow256(8) == 0x10000000000000000
    ensures Pow256(32) == TWO_256
  {
    assert Pow256(1) == 0x100;
    assert Pow256(2) == 0x10000;
    assert Pow256(3) == 0x1000000;
    assert Pow256(4) == 0x100000000;
    assert Pow256(5) == 0x10000000000;
    assert Pow256(6) == 0x1000000000000;
    assert Pow256(7) == 0x100000000000000;
    assert Pow256(8) == 0x10000000000000000;
    assert Pow256(9) == 0x1000000000000000000;
    assert Pow256(10) == 0x100000000000000000000;
    assert Pow256(11) == 0x10000000000000000000000;
    assert Pow256(12) == 0x1000000000000000000000000;
    assert Pow256(13) == 0x100000000000000000000000000;
    assert Pow256(14) == 0x10000000000000000000000000000;
    assert Pow256(15) == 0x1000000000000000000000000000000;
    assert Pow256(16) == 0x100000000000000000000000000000000;
    assert Pow256(17) == 0x10000000000000000000000000000000000;
    assert Pow256(18) == 0x1000000000000000000000000000000000000;
    assert Pow256(19) == 0x100000000000000000000000000000000000000;
    assert Pow256(20) == 0x10000000000000000000000000000000000000000;
    assert Pow256(21) == 0x1000000000000000000000000000000000000000000;
    assert Pow256(22) == 0x100000000000000000000000000000000000000000000;
    assert Pow256(23) == 0x10000000000000000000000000000000000000000000000;
    assert Pow256(24) == 0x1000000000000000000000000000000000000000000000000;
    assert Pow256(25) == 0x100000000000000000000000000000000000000000000000000;
    assert Pow256(26) == 0x10000000000000000000000000000000000000000000000000000;
    assert Pow256(27) == 0x1000000000000000000000000000000000000000000000000000000;
    assert Pow256(28) == 0x100000000000000000000000000000000000000000000000000000000;
    assert Pow256(29) == 0x10000000000000000000000000000000000000000000000000000000000;
    assert Pow256(30) == 0x1000000000000000000000000000000000000000000000000000000000000;
    assert Pow256(31) == 0x100000000000000000000000000000000000000000000000000000000000000;
    assert Pow256(32) == 0x10000000000000000000000000000000000000000000000000000000000000000;
  }

  lemma Multiple(b: int, d: int)
    requires b > 0
    ensures (d >= 1 ==> b * d >= b) && (d <= -1 ==> b * d <= -b)
  {
  }

  lemma ModUnique(x: int, b: int, q: int, r: int)
    requires b > 0 && x == b * q + r && 0 <= r < b
    ensures x % b == r
  {
    var d := x / b - q;
    assert b * d == b * (x / b) - b * q;
    Multiple(b, d);
  }

  /** A remainder, byte by byte. */
  lemma SplitByte(n: int, p: nat)
    requires p > 0
    ensures n % (256 * p) == 256 * (n / 256 % p) + n % 256
  {
    var m, r0 := n / 256, n % 256;
    var q, r := m / p, m % p;
    assert 256 * (p * q) == (256 * p) * q;
    ModUnique(n, 256 * p, q, 256 * r + r0);
  }

  lemma {:induction false} FromBigEndian(n: int, len: nat)
    ensures FromBytes(BigEndian(n, len)) == n % Pow256(len)
    decreases len
  {
    if len > 0 {
      FromBigEndian(n / 256, len - 1);
      assert BigEndian(n, len)[..len - 1] == BigEndian(n / 256, len - 1);
      SplitByte(n, Pow256(len - 1));
    }
  }

  /** The last `k` bytes of a longer encoding. */
  lemma {:induction false} Suffix(n: int, len: nat, k: nat)
    requires k <= len
    ensures BigEndian(n, len)[len - k..] == BigEndian(n, k)
    decreases k
  {
    if k > 0 {
      Suffix(n / 256, len - 1, k - 1);
      assert BigEndian(n, len)[len - k..] == BigEndian(n / 256, len - 1)[len - k..] + [n % 256];
    }
  }

  /** reflectIntKindAndType: integers of these widths are machine integers, all others are big integers. */
  predicate Native(bits: nat) {
    bits == 8 || bits == 16 || bits == 32 || bits == 64
  }

  function Pow2(bits: nat): nat
    requires Native(bits)
  {
    if bits == 8 then 0x100 else if bits == 16 then 0x1_0000 else if bits == 32 then 0x1_0000_0000
    else 0x1_0000_0000_0000_0000
  }

  /** typeCheck and the Go type of the value: a machine integer is in its range, a big integer is any integer. */
  predicate KindOk(e: Elem, v: Value) {
    match e
    case UintT(bits) => v.Num? && (Native(bits) ==> 0 <= v.n < Pow2(bits))
    case IntT(bits) => v.Num? && (Native(bits) ==> -(Pow2(bits) / 2) <= v.n < Pow2(bits) / 2)
    case BoolT => v.Bool?
    case AddressT => v.Raw? && |v.bytes| == 20
    case FixedBytesT(size) => v.Raw? && |v.bytes| == size <= 32
    case FunctionT => v.Raw? && |v.bytes| == 24
  }

  function Zeros(n: nat): (b: Bytes)
    ensures |b| == n && forall i :: 0 <= i < n ==> b[i] == 0
  {
    if n == 0 then [] else Zeros(n - 1) + [0]
  }

  /** U256: two's complement in 32 bytes. */
  function Word(n: int): (w: Bytes)
    ensures |w| == 32
  {
    BigEndian(n, 32)
  }

  /** packElement for an elementary type. */
  function PackWord(e: Elem, v: Value): (w: Bytes)
    requires KindOk(e, v)
    ensures |w| == 32
  {
    match e
    case UintT(_) => Word(v.n)
    case IntT(_) => Word(v.n)
    case BoolT => Word(if v.b then 1 else 0)
    case AddressT => Zeros(12) + v.bytes
    case FixedBytesT(_) => v.bytes + Zeros(32 - |v.bytes|)
    case FunctionT => v.bytes + Zeros(8)
  }

  /** readInteger */
  function ReadInteger(signed: bool, bits: nat, w: Bytes): int
    requires |w| == 32
  {
    if Native(bits) then
      var u := FromBytes(w[32 - bits / 8..]);
      if signed && u >= Pow2(bits) / 2 then u - Pow2(bits) else u
    else
      var u := FromBytes(w);
      if signed && u >= TWO_256 / 2 then u - TWO_256 else u
  }

  /** The readers of toGoType for a word. */
  function ReadWord(e: Elem, w: Bytes): Option<Value>
    requires |w| == 32
  {
    match e
    case UintT(bits) => Some(Num(ReadInteger(false, bits, w)))
    case IntT(bits) => Some(Num(ReadInteger(true, bits, w)))
    case BoolT =>
      if (exists i :: 0 <= i < 31 && w[i] != 0) || w[31] > 1 then None else Some(Bool(w[31] == 1))
    case AddressT => Some(Raw(w[12..]))
    case FixedBytesT(size) => if size <= 32 then Some(Raw(w[..size])) else None
    case FunctionT => if exists i :: 24 <= i < 32 && w[i] != 0 then None else Some(Raw(w[..24]))
  }

  /** A big integer is cut to 256 bits; everything else comes back as it was. */
  function Norm(e: Elem, v: Value): Value {
    if e.UintT? && v.Num? then Num(v.n % TWO_256)
    else if e.IntT? && v.Num? then Num(if v.n % TWO_256 >= TWO_256 / 2 then v.n % TWO_256 - TWO_256 else v.n % TWO_256)
    else v
  }

  lemma WordIs(n: int)
    ensures FromBytes(Word(n)) == n % TWO_256
  {
    FromBigEndian(n, 32);
    Pow256Values();
  }

  /** The low bytes of a word hold the number modulo the width. */
  lemma NativeBytes(bits: nat, n: int)
    requires Native(bits)
    ensures FromBytes(Word(n)[32 - bits / 8..]) == n % Pow2(bits)
  {
    Suffix(n, 32, bits / 8);
    FromBigEndian(n, bits / 8);
    Pow256Values();
  }

  /** A number in the upper half of its width stands for a negative one. */
  lemma Signed(n: int, b: int)
    requires b > 0 && -b <= n < b
    ensures n % b == if n >= 0 then n else n + b
  {
    if n < 0 {
      ModUnique(n, b, -1, n + b);
    }
  }

  lemma NormNative(e: Elem, v: Value)
    requires KindOk(e, v) && (e.UintT? || e.IntT?) && Native(e.bits)
    ensures Norm(e, v) == v
  {
    Signed(v.n, TWO_256);
  }

  lemma NativeBack(signed: bool, bits: nat, n: int)
    requires Native(bits) && if signed then -(Pow2(bits) / 2) <= n < Pow2(bits) / 2 else 0 <= n < Pow2(bits)
    ensures ReadInteger(signed, bits, Word(n)) == n
  {
    var b := Pow2(bits);
    NativeBytes(bits, n);
    Signed(n, b);
    var u := FromBytes(Word(n)[32 - bits / 8..]);
    assert u == if n >= 0 then n else n + b;
  }

  lemma BigBack(signed: bool, bits: nat, n: int)
    requires !Native(bits)
    ensures Num(ReadInteger(signed, bits, Word(n))) == Norm(if signed then IntT(bits) else UintT(bits), Num(n))
  {
    WordIs(n);
  }

  lemma IntegerBack(e: Elem, v: Value)
    requires KindOk(e, v) && (e.UintT? || e.IntT?)
    ensures Num(ReadInteger(e.IntT?, e.bits, Word(v.n))) == Norm(e, v)
  {
    if Native(e.bits) {
      NativeBack(e.IntT?, e.bits, v.n);
      NormNative(e, v);
    } else {
      BigBack(e.IntT?, e.bits, v.n);
    }
  }

  lemma BoolBack(b: bool)
    ensures ReadWord(BoolT, Word(if b then 1 else 0)) == Some(Bool(b))
  {
    var n := if b then 1 else 0;
    SmallWord(n, 32);
  }

  /** The bytes of a number below 256. */
  lemma {:induction false} SmallWord(n: nat, len: nat)
    requires n < 256 && len > 0
    ensures BigEndian(n, len) == Zeros(len - 1) + [n]
    decreases len
  {
    if len == 1 {
      assert BigEndian(n, 1) == BigEndian(0, 0) + [n];
    } else {
      SmallWord(0, len - 1);
      assert BigEndian(n, len) == BigEndian(0, len - 1) + [n];
    }
  }

  /** A word reads back as the value that was packed, a big integer modulo 2^256. */
  lemma WordBack(e: Elem, v: Value)
    requires KindOk(e, v)
    ensures ReadWord(e, PackWord(e, v)) == Some(Norm(e, v))
  {
    match e
    case UintT(_) => IntegerBack(e, v);
    case IntT(_) => IntegerBack(e, v);
    case BoolT => BoolBack(v.b);
    case AddressT => assert PackWord(e, v)[12..] == v.bytes;
    case FixedBytesT(size) => assert PackWord(e, v)[..size] == v.bytes;
    case FunctionT => assert PackWord(e, v)[..24] == v.bytes;
  }

  /** The values that come back unchanged. */
  predicate InRange(e: Elem, v: Value) {
    && (e.UintT? && v.Num? ==> 0 <= v.n < TWO_256)
    && (e.IntT? && v.Num? ==> -(TWO_256 / 2) <= v.n < TWO_256 / 2)
  }

  lemma NormIsSame(e: Elem, v: Value)
    ensures Norm(e, v) == v <==> InRange(e, v)
  {
    if v.Num? && InRange(e, v) && (e.UintT? || e.IntT?) {
      Signed(v.n, TWO_256);
    }
  }
}
