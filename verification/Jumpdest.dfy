/** Which bytes of a contract's code are instructions (core/vm/analysis.go, core/vm/contract.go). */
module Jumpdest {
  import opened Common

  const PUSH1: Byte := 0x60
  const PUSH32: Byte := 0x7f
  const JUMPDEST: Byte := 0x5b

  /** 0x80 and 0xFF shifted right by a bit position. */
  function Shift(v: bv8, n: nat): bv8 {
    if n == 0 then v else Shift(v, n - 1) >> 1
  }

  lemma Shifts()
    ensures Shift(0x80, 0) == 0x80 && Shift(0x80, 1) == 0x40 && Shift(0x80, 2) == 0x20 && Shift(0x80, 3) == 0x10
    ensures Shift(0x80, 4) == 0x08 && Shift(0x80, 5) == 0x04 && Shift(0x80, 6) == 0x02 && Shift(0x80, 7) == 0x01
    ensures Shift(0xFF, 0) == 0xFF && Shift(0xFF, 1) == 0x7F && Shift(0xFF, 2) == 0x3F && Shift(0xFF, 3) == 0x1F
    ensures Shift(0xFF, 4) == 0x0F && Shift(0xFF, 5) == 0x07 && Shift(0xFF, 6) == 0x03 && Shift(0xFF, 7) == 0x01
  {
    assert Shift(0x80, 1) == 0x40 && Shift(0xFF, 1) == 0x7F;
    assert Shift(0x80, 2) == 0x20 && Shift(0xFF, 2) == 0x3F;
    assert Shift(0x80, 3) == 0x10 && Shift(0xFF, 3) == 0x1F;
    assert Shift(0x80, 4) == 0x08 && Shift(0xFF, 4) == 0x0F;
    assert Shift(0x80, 5) == 0x04 && Shift(0xFF, 5) == 0x07;
    assert Shift(0x80, 6) == 0x02 && Shift(0xFF, 6) == 0x03;
  }

  /** The bit at position `i` of a byte, counted from the high end. */
  predicate BitOf(v: bv8, i: nat) {
    v & Shift(0x80, i) != 0
  }

  lemma OrBit(v: bv8, m: bv8, i: nat)
    ensures BitOf(v | m, i) <==> BitOf(v, i) || BitOf(m, i)
  {
  }

  lemma MaskBits(i: nat, j: nat)
    requires i < 8 && j < 8
    ensures BitOf(Shift(0x80, i), j) <==> i == j
    ensures BitOf(Shift(0xFF, i), j) <==> j >= i
    ensures BitOf(!Shift(0xFF, i), j) <==> j < i
  {
    Shifts();
  }

  predicate Bit(bits: seq<bv8>, pos: nat) {
    pos / 8 < |bits| && BitOf(bits[pos / 8], pos % 8)
  }

  /** `bits` is `base` with the positions from `lo` to below `hi` set as well. */
  ghost predicate Marked(base: seq<bv8>, bits: seq<bv8>, lo: nat, hi: nat) {
    |bits| == |base| && forall p: nat :: p / 8 < |bits| ==> (Bit(bits, p) <==> Bit(base, p) || lo <= p < hi)
  }

  /** bitvec.set */
  method Set(bits: array<bv8>, pos: nat)
    requires pos / 8 < bits.Length
    modifies bits
    ensures Marked(old(bits[..]), bits[..], pos, pos + 1)
  {
    ghost var base := bits[..];
    bits[pos / 8] := bits[pos / 8] | Shift(0x80, pos % 8);
    forall p: nat | p / 8 < bits.Length ensures Bit(bits[..], p) <==> Bit(base, p) || p == pos {
      if p / 8 == pos / 8 {
        OrBit(base[pos / 8], Shift(0x80, pos % 8), p % 8);
        MaskBits(pos % 8, p % 8);
      }
    }
  }

  /** `w` is `v` with the bits from `lo` to below `hi` set as well. */
  ghost predicate ByteMarked(v: bv8, w: bv8, lo: nat, hi: nat) {
    forall k: nat {:trigger BitOf(w, k)} :: k < 8 ==> (BitOf(w, k) <==> BitOf(v, k) || lo <= k < hi)
  }

  lemma HighBits(v: bv8, r: nat)
    requires r < 8
    ensures ByteMarked(v, v | Shift(0xFF, r), r, 8)
  {
    forall k: nat | k < 8 ensures BitOf(v | Shift(0xFF, r), k) <==> BitOf(v, k) || r <= k {
      OrBit(v, Shift(0xFF, r), k);
      MaskBits(r, k);
    }
  }

  lemma LowBit(v: bv8, r: nat, k: nat)
    requires r < 8 && k < 8
    ensures BitOf(v | !Shift(0xFF, r), k) <==> BitOf(v, k) || k < r
  {
    OrBit(v, !Shift(0xFF, r), k);
    MaskBits(r, k);
  }

  lemma LowBits(v: bv8, r: nat)
    requires r < 8
    ensures ByteMarked(v, v | !Shift(0xFF, r), 0, r)
  {
    forall k: nat | k < 8 ensures BitOf(v | !Shift(0xFF, r), k) <==> BitOf(v, k) || k < r {
      LowBit(v, r, k);
    }
  }

  /** The end of one byte and the start of the next are eight positions. */
  lemma TwoBytes(base: seq<bv8>, bits: seq<bv8>, i: nat, r: nat)
    requires |bits| == |base| && i + 1 < |base| && r < 8
    requires ByteMarked(base[i], bits[i], r, 8) && ByteMarked(base[i + 1], bits[i + 1], 0, r)
    requires forall q :: 0 <= q < |base| && q != i && q != i + 1 ==> bits[q] == base[q]
    ensures Marked(base, bits, 8 * i + r, 8 * i + r + 8)
  {
    forall p: nat | p / 8 < |bits| ensures Bit(bits, p) <==> Bit(base, p) || 8 * i + r <= p < 8 * i + r + 8 {
      var q, k := p / 8, p % 8;
      assert p == 8 * q + k;
      assert BitOf(bits[q], k) <==> BitOf(base[q], k) || (q == i && k >= r) || (q == i + 1 && k < r);
    }
  }

  /** bitvec.set8: eight positions, across two bytes. */
  method Set8(bits: array<bv8>, pos: nat)
    requires pos / 8 + 1 < bits.Length
    modifies bits
    ensures Marked(old(bits[..]), bits[..], pos, pos + 8)
  {
    ghost var base := bits[..];
    var i, r := pos / 8, pos % 8;
    HighBits(bits[i], r);
    LowBits(bits[i + 1], r);
    bits[i] := bits[i] | Shift(0xFF, r);
    bits[i + 1] := bits[i + 1] | !Shift(0xFF, r);
    TwoBytes(base, bits[..], i, r);
  }

  lemma MarkedTwice(base: seq<bv8>, mid: seq<bv8>, bits: seq<bv8>, lo: nat, at: nat, hi: nat)
    requires lo <= at <= hi && Marked(base, mid, lo, at) && Marked(mid, bits, at, hi)
    ensures Marked(base, bits, lo, hi)
  {
    forall p: nat | p / 8 < |bits| ensures Bit(bits, p) <==> Bit(base, p) || lo <= p < hi {
      assert Bit(mid, p) <==> Bit(base, p) || lo <= p < at;
    }
  }

  /** How many bytes after the instruction are its data. */
  function DataLen(op: Byte): (n: nat)
    ensures n <= 32
  {
    if PUSH1 <= op <= PUSH32 then op - PUSH1 + 1 else 0
  }

  /** Decoding one instruction after the other from `pc` comes to `pos`. */
  ghost predicate Reaches(code: Bytes, pc: nat, pos: nat)
    decreases if pos >= pc then pos - pc else 0
  {
    pc == pos || (pc < pos && pc < |code| && Reaches(code, pc + 1 + DataLen(code[pc]), pos))
  }

  lemma {:induction false} ReachesVia(code: Bytes, a: nat, pc: nat, pos: nat)
    requires Reaches(code, a, pc) && pc <= pos
    ensures Reaches(code, a, pos) <==> Reaches(code, pc, pos)
    decreases pc - a
  {
    if a != pc {
      ReachesVia(code, a + 1 + DataLen(code[a]), pc, pos);
    }
  }

  /**
    The opcodes 0x60 to 0x7f are followed by 1 to 32 bytes of data, where no instruction starts, and then by the next
    instruction; any other opcode is followed by the next instruction at once.
   */
  lemma NextInstruction(code: Bytes, pc: nat, next: nat)
    requires pc < |code| && Reaches(code, 0, pc)
    requires next == pc + 1 + if 0x60 <= code[pc] <= 0x7f then code[pc] - 0x5f else 0
    ensures Reaches(code, 0, next) && forall p :: pc < p < next ==> !Reaches(code, 0, p)
  {
    ReachesVia(code, 0, pc, next);
    forall p | pc < p < next ensures !Reaches(code, 0, p) {
      ReachesVia(code, 0, pc, p);
    }
  }

  /** The positions decoded so far: set bits are data, and nothing is set from `pc` on. */
  ghost predicate Analysed(code: Bytes, bits: seq<bv8>, pc: nat) {
    && |bits| == |code| / 8 + 5 && Reaches(code, 0, pc)
    && forall p: nat :: p / 8 < |bits| ==> (Bit(bits, p) <==> p < pc && !Reaches(code, 0, p))
  }

  /** One instruction further. */
  lemma AnalyseStep(code: Bytes, base: seq<bv8>, bits: seq<bv8>, pc: nat)
    requires pc < |code| && Analysed(code, base, pc) && Marked(base, bits, pc + 1, pc + 1 + DataLen(code[pc]))
    ensures Analysed(code, bits, pc + 1 + DataLen(code[pc]))
  {
    var next := pc + 1 + DataLen(code[pc]);
    ReachesVia(code, 0, pc, next);
    forall p: nat | p / 8 < |bits| ensures Bit(bits, p) <==> p < next && !Reaches(code, 0, p) {
      if p >= pc {
        ReachesVia(code, 0, pc, p);
      }
    }
  }

  /** The two inner loops of codeBitmap: mark the data of one instruction. */
  method MarkData(bits: array<bv8>, start: nat, n: nat) returns (pc: nat)
    requires n <= 32 && (start + n) / 8 < bits.Length
    modifies bits
    ensures pc == start + n && Marked(old(bits[..]), bits[..], start, pc)
  {
    ghost var base := bits[..];
    var numbits := n;
    pc := start;
    while numbits >= 8
      invariant pc + numbits == start + n && pc >= start && Marked(base, bits[..], start, pc)
    {
      ghost var mid := bits[..];
      Set8(bits, pc);
      MarkedTwice(base, mid, bits[..], start, pc, pc + 8);
      pc := pc + 8;
      numbits := numbits - 8;
    }
    while numbits > 0
      invariant pc + numbits == start + n && pc >= start && Marked(base, bits[..], start, pc)
    {
      ghost var mid := bits[..];
      Set(bits, pc);
      MarkedTwice(base, mid, bits[..], start, pc, pc + 1);
      pc := pc + 1;
      numbits := numbits - 1;
    }
  }

  /** codeBitmap: a position is a code segment exactly when an instruction starts there. */
  method CodeBitmap(code: Bytes) returns (bits: array<bv8>)
    ensures fresh(bits) && bits.Length == |code| / 8 + 5
    ensures forall p: nat :: p < |code| ==> (Bit(bits[..], p) <==> !Reaches(code, 0, p))
  {
    bits := new bv8[|code| / 8 + 5](_ => 0);
    assert forall p: nat :: p / 8 < bits.Length ==> !Bit(bits[..], p);
    var pc: nat := 0;
    while pc < |code|
      invariant bits.Length == |code| / 8 + 5 && fresh(bits) && Analysed(code, bits[..], pc)
      decreases |code| - pc
    {
      ghost var base, at := bits[..], pc;
      var op := code[pc];
      if PUSH1 <= op <= PUSH32 {
        pc := MarkData(bits, pc + 1, op - PUSH1 + 1);
      } else {
        pc := pc + 1;
      }
      AnalyseStep(code, base, bits[..], at);
    }
    forall p: nat | p < |code| ensures Bit(bits[..], p) <==> !Reaches(code, 0, p) {
      assert p / 8 < |bits[..]|;
    }
  }

  /** `bits` tells instructions from data in `code`. */
  ghost predicate AnalysisOf(code: Bytes, bits: seq<bv8>) {
    |bits| == |code| / 8 + 5 && forall p: nat :: p < |code| ==> (Bit(bits, p) <==> !Reaches(code, 0, p))
  }

  /** The analyses that a contract shares with the contracts it calls, by code hash. */
  class Jumpdests {
    var analyses: map<nat, seq<bv8>>
    /** The one code behind each hash. */
    ghost const codeOf: nat -> Bytes

    ghost predicate Valid()
      reads this
    {
      forall h :: h in analyses ==> AnalysisOf(codeOf(h), analyses[h])
    }

    constructor (ghost codeOf: nat -> Bytes)
      ensures Valid() && this.codeOf == codeOf
    {
      this.codeOf := codeOf;
      analyses := map[];
    }
  }

  class Contract {
    const jumpdests: Jumpdests
    var analysis: Option<seq<bv8>>
    const code: Bytes
    /** None for code that is not in the state yet. */
    const codeHash: Option<nat>

    ghost predicate Valid()
      reads this, jumpdests
    {
      && jumpdests.Valid() && (codeHash.Some? ==> jumpdests.codeOf(codeHash.value) == code)
      && (analysis.Some? ==> AnalysisOf(code, analysis.value))
    }

    constructor (jumpdests: Jumpdests, code: Bytes, codeHash: Option<nat>)
      requires jumpdests.Valid() && (codeHash.Some? ==> jumpdests.codeOf(codeHash.value) == code)
      ensures Valid() && this.jumpdests == jumpdests && this.code == code && this.codeHash == codeHash
    {
      this.jumpdests, this.code, this.codeHash, analysis := jumpdests, code, codeHash, None;
    }

    /** validJumpdest: the answer does not depend on which analyses are cached. */
    method ValidJumpdest(dest: nat) returns (valid: bool)
      requires Valid()
      modifies this, jumpdests
      ensures Valid()
      ensures valid <==>
        dest < 0x4000_0000_0000_0000 && dest < |code| && code[dest] == 0x5b && Reaches(code, 0, dest)
    {
      if dest >= 0x4000_0000_0000_0000 || dest >= |code| || code[dest] != JUMPDEST {
        return false;
      }
      var bits: seq<bv8>;
      if codeHash.Some? {
        if codeHash.value !in jumpdests.analyses {
          var found := CodeBitmap(code);
          jumpdests.analyses := jumpdests.analyses[codeHash.value := found[..]];
        }
        bits := jumpdests.analyses[codeHash.value];
      } else {
        if analysis.None? {
          var found := CodeBitmap(code);
          analysis := Some(found[..]);
        }
        bits := analysis.value;
      }
      return !Bit(bits, dest);
    }
  }
}
