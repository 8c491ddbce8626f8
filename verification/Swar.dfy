/**
 Several 16-bit words in one machine register: the doubling macros of the table builders, which
 need all lanes equal, and the arithmetic of the checksum, which does not.
 */
module Swar {
  import opened Arith
  import opened Field

  /** A 64-bit register, and a 32-bit one. */
  datatype Reg = Reg(bits: bv64)

  datatype Reg32 = Reg32(bits: bv32)

  function Lane0(p: Reg): Word { Word((p.bits & 0xFFFF) as bv16) }

  function Lane1(p: Reg): Word { Word(((p.bits >> 16) & 0xFFFF) as bv16) }

  function Lane2(p: Reg): Word { Word(((p.bits >> 32) & 0xFFFF) as bv16) }

  function Lane3(p: Reg): Word { Word(((p.bits >> 48) & 0xFFFF) as bv16) }

  /** Lane k of four, lowest first. */
  function Lane(p: Reg, k: nat): Word
    requires k < 4
  {
    if k == 0 then Lane0(p) else if k == 1 then Lane1(p) else if k == 2 then Lane2(p) else Lane3(p)
  }

  function Low(p: Reg32): Word { Word((p.bits & 0xFFFF) as bv16) }

  function High(p: Reg32): Word { Word(((p.bits >> 16) & 0xFFFF) as bv16) }

  /** PACK_4X16 and PACK_2X16 on a little-endian machine. */
  function Pack4(a: Word, b: Word, c: Word, d: Word): Reg {
    Reg(((d.bits as bv64) << 48) | ((c.bits as bv64) << 32) | ((b.bits as bv64) << 16) | (a.bits as bv64))
  }

  function Pack2(a: Word, b: Word): Reg32 { Reg32(((b.bits as bv32) << 16) | (a.bits as bv32)) }

  function XorReg(p: Reg, q: Reg): Reg { Reg(p.bits ^ q.bits) }

  function Xor32(p: Reg32, q: Reg32): Reg32 { Reg32(p.bits ^ q.bits) }

  lemma PackLane0(a: Word, b: Word, c: Word, d: Word) ensures Lane0(Pack4(a, b, c, d)) == a {}
  lemma PackLane1(a: Word, b: Word, c: Word, d: Word) ensures Lane1(Pack4(a, b, c, d)) == b {}
  lemma PackLane2(a: Word, b: Word, c: Word, d: Word) ensures Lane2(Pack4(a, b, c, d)) == c {}
  lemma PackLane3(a: Word, b: Word, c: Word, d: Word) ensures Lane3(Pack4(a, b, c, d)) == d {}

  lemma PackLow(a: Word, b: Word) ensures Low(Pack2(a, b)) == a {}
  lemma PackHigh(a: Word, b: Word) ensures High(Pack2(a, b)) == b {}

  lemma XorLane0(p: Reg, q: Reg) ensures Lane0(XorReg(p, q)) == Xor(Lane0(p), Lane0(q)) {}
  lemma XorLane1(p: Reg, q: Reg) ensures Lane1(XorReg(p, q)) == Xor(Lane1(p), Lane1(q)) {}
  lemma XorLane2(p: Reg, q: Reg) ensures Lane2(XorReg(p, q)) == Xor(Lane2(p), Lane2(q)) {}
  lemma XorLane3(p: Reg, q: Reg) ensures Lane3(XorReg(p, q)) == Xor(Lane3(p), Lane3(q)) {}

  lemma XorLow(p: Reg32, q: Reg32) ensures Low(Xor32(p, q)) == Xor(Low(p), Low(q)) {}
  lemma XorHigh(p: Reg32, q: Reg32) ensures High(Xor32(p, q)) == Xor(High(p), High(q)) {}

  // The macros of the table builders.

  /** GF16_MULTBY_TWO_X4: the whole register moved up, then the polynomial in every lane if the top bit was set. */
  function MultByTwoX4(p: Reg): Reg { XorReg(UpOne(p), PolynomialX4(p)) }

  function UpOne(p: Reg): Reg { Reg(p.bits << 1) }

  function PolynomialX4(p: Reg): Reg {
    Reg((0x1100B ^ (0x1100B << 16) ^ (0x1100B << 32) ^ (0x100B << 48)) & (0 - (p.bits >> 63)))
  }

  /** GF16_MULTBY_TWO_X2 */
  function MultByTwoX2(p: Reg32): Reg32 {
    Reg32((p.bits << 1) ^ ((0x1100B ^ (0x100B << 16)) & (0 - (p.bits >> 31))))
  }

  /** GF16_MULTBY_TWO_LOWER_X2 */
  function MultByTwoLowerX2(p: Reg): Reg {
    Reg((p.bits << 1) ^ ((0x1100B ^ (0x1100B << 32)) & (0 - (p.bits >> 47))))
  }

  /** What such a macro does to the lowest lane, when t is the lane whose top bit decides. */
  function Lowest(a: Word, t: Word): Word { Word((a.bits << 1) ^ (0x100B & (0 - (t.bits >> 15)))) }

  /** And to the lane above lane c, which decides itself: c's top bit comes in, and so does that of the polynomial. */
  function Top(a: Word, c: Word): Word {
    Word(((a.bits << 1) | (c.bits >> 15)) ^ (0x100A & (0 - (a.bits >> 15))))
  }

  /** A lane moved up with the top bit of the lane below. */
  function Moved(a: Word, c: Word): Word { Word((a.bits << 1) | (c.bits >> 15)) }

  /** What the polynomial adds to a lane that has one below it, and to the lowest. */
  function Middle(t: Word): Word { Word(0x100A & (0 - (t.bits >> 15))) }

  function Bottom(t: Word): Word { Word(0x100B & (0 - (t.bits >> 15))) }

  lemma UpOne0(p: Reg) ensures Lane0(UpOne(p)) == Moved(Lane0(p), Zero) {}
  lemma UpOne1(p: Reg) ensures Lane1(UpOne(p)) == Moved(Lane1(p), Lane0(p)) {}
  lemma UpOne2(p: Reg) ensures Lane2(UpOne(p)) == Moved(Lane2(p), Lane1(p)) {}
  lemma UpOne3(p: Reg) ensures Lane3(UpOne(p)) == Moved(Lane3(p), Lane2(p)) {}

  lemma PolynomialX4Lane0(p: Reg) ensures Lane0(PolynomialX4(p)) == Bottom(Lane3(p)) {}
  lemma PolynomialX4Lane1(p: Reg) ensures Lane1(PolynomialX4(p)) == Middle(Lane3(p)) {}
  lemma PolynomialX4Lane2(p: Reg) ensures Lane2(PolynomialX4(p)) == Middle(Lane3(p)) {}
  lemma PolynomialX4Lane3(p: Reg) ensures Lane3(PolynomialX4(p)) == Middle(Lane3(p)) {}

  /** The two together, for a lane between others and for the lowest. */
  function Above(a: Word, c: Word, t: Word): Word {
    Word(((a.bits << 1) | (c.bits >> 15)) ^ (0x100A & (0 - (t.bits >> 15))))
  }

  lemma AboveParts(a: Word, c: Word, t: Word) ensures Xor(Moved(a, c), Middle(t)) == Above(a, c, t) {}

  lemma AboveEqual(a: Word) ensures Above(a, a, a) == Double(a) {}

  lemma LowestParts(a: Word, t: Word) ensures Xor(Moved(a, Zero), Bottom(t)) == Lowest(a, t) {}

  lemma MovedEqual(a: Word)
    ensures Xor(Moved(a, Zero), Bottom(a)) == Double(a) == Xor(Moved(a, a), Middle(a))
  {
    hide Xor, Moved, Bottom, Middle, Lowest, Above, Double;
    LowestParts(a, a); LowestEqual(a);
    AboveParts(a, a, a); AboveEqual(a);
  }

  lemma X2Low(p: Reg32) ensures Low(MultByTwoX2(p)) == Lowest(Low(p), High(p)) {}
  lemma X2High(p: Reg32) ensures High(MultByTwoX2(p)) == Top(High(p), Low(p)) {}

  lemma LowestEqual(a: Word) ensures Lowest(a, a) == Double(a) {}
  lemma TopEqual(a: Word) ensures Top(a, a) == Double(a) {}

  /** All lanes hold a. */
  predicate All4(p: Reg, a: Word) { Lane0(p) == Lane1(p) == Lane2(p) == Lane3(p) == a }

  predicate All2(p: Reg32, a: Word) { Low(p) == High(p) == a }

  /** With equal lanes, what one lane carries into the next is cancelled by the polynomial's top bit. */
  lemma DoubleX4(p: Reg, a: Word)
    requires All4(p, a)
    ensures All4(MultByTwoX4(p), Double(a))
  {
    hide Lane0, Lane1, Lane2, Lane3, UpOne, PolynomialX4, XorReg, Xor, Double, Moved, Middle, Bottom;
    XorLane0(UpOne(p), PolynomialX4(p)); XorLane1(UpOne(p), PolynomialX4(p));
    XorLane2(UpOne(p), PolynomialX4(p)); XorLane3(UpOne(p), PolynomialX4(p));
    UpOne0(p); UpOne1(p); UpOne2(p); UpOne3(p);
    PolynomialX4Lane0(p); PolynomialX4Lane1(p); PolynomialX4Lane2(p); PolynomialX4Lane3(p);
    MovedEqual(a);
  }

  lemma DoubleX2(p: Reg32, a: Word)
    requires All2(p, a)
    ensures All2(MultByTwoX2(p), Double(a))
  {
    hide Low, High, MultByTwoX2, Double, Lowest, Top;
    X2Low(p); X2High(p);
    LowestEqual(a); TopEqual(a);
  }

  /** The macros do need equal lanes. */
  lemma DoubleX2Unequal()
    ensures var p := Pack2(Word(0x8000), Zero); High(MultByTwoX2(p)) != Double(High(p))
  {
  }

  lemma LanesPack(p: Reg) ensures Pack4(Lane0(p), Lane1(p), Lane2(p), Lane3(p)) == p {}

  lemma HalvesPack(p: Reg32) ensures Pack2(Low(p), High(p)) == p {}

  /** Lanes 0 and 2 hold a, the others nothing. */
  predicate Lower2(p: Reg, a: Word) { Lane0(p) == Lane2(p) == a && Lane1(p) == Lane3(p) == Zero }

  /** What is left above lane c when t decides whether the polynomial's top bit comes in too. */
  function Carry(c: Word, t: Word): Word { Word((c.bits >> 15) ^ (1 & (0 - (t.bits >> 15)))) }

  lemma LowerLane0(a: Word, c: Word) ensures Lane0(MultByTwoLowerX2(Pack4(a, Zero, c, Zero))) == Lowest(a, c) {}
  lemma LowerLane1(a: Word, c: Word) ensures Lane1(MultByTwoLowerX2(Pack4(a, Zero, c, Zero))) == Carry(a, c) {}
  lemma LowerLane2(a: Word, c: Word) ensures Lane2(MultByTwoLowerX2(Pack4(a, Zero, c, Zero))) == Lowest(c, c) {}
  lemma LowerLane3(a: Word, c: Word) ensures Lane3(MultByTwoLowerX2(Pack4(a, Zero, c, Zero))) == Carry(c, c) {}

  lemma CarryEqual(a: Word) ensures Carry(a, a) == Zero {}

  lemma DoubleLowerX2(p: Reg, a: Word)
    requires Lower2(p, a)
    ensures Lower2(MultByTwoLowerX2(p), Double(a))
  {
    hide Lane0, Lane1, Lane2, Lane3, Pack4, MultByTwoLowerX2, Double, Lowest, Carry;
    LanesPack(p);
    LowerLane0(a, a); LowerLane1(a, a); LowerLane2(a, a); LowerLane3(a, a);
    LowestEqual(a); CarryEqual(a);
  }

  // Masks and shifts the builders use.

  /** A register made of two halves. */
  function Wide(lo: Reg32, hi: Reg32): Reg { Reg((lo.bits as bv64) | ((hi.bits as bv64) << 32)) }

  lemma WideLane0(lo: Reg32, hi: Reg32) ensures Lane0(Wide(lo, hi)) == Low(lo) {}
  lemma WideLane1(lo: Reg32, hi: Reg32) ensures Lane1(Wide(lo, hi)) == High(lo) {}
  lemma WideLane2(lo: Reg32, hi: Reg32) ensures Lane2(Wide(lo, hi)) == Low(hi) {}
  lemma WideLane3(lo: Reg32, hi: Reg32) ensures Lane3(Wide(lo, hi)) == High(hi) {}

  /** (uint32_t)coefficient << 16 */
  function Raised(a: Word): Reg32 { Reg32((a.bits as bv32) << 16) }

  lemma RaisedLow(a: Word) ensures Low(Raised(a)) == Zero {}
  lemma RaisedHigh(a: Word) ensures High(Raised(a)) == a {}

  /** Bits kept by a mask. */
  function Keep(p: Reg, mask: bv64): Reg { Reg(p.bits & mask) }

  lemma KeepOdd0(p: Reg) ensures Lane0(Keep(p, 0xFFFF0000FFFF0000)) == Zero {}
  lemma KeepOdd1(p: Reg) ensures Lane1(Keep(p, 0xFFFF0000FFFF0000)) == Lane1(p) {}
  lemma KeepOdd2(p: Reg) ensures Lane2(Keep(p, 0xFFFF0000FFFF0000)) == Zero {}
  lemma KeepOdd3(p: Reg) ensures Lane3(Keep(p, 0xFFFF0000FFFF0000)) == Lane3(p) {}

  function UpByTwo(p: Reg): Reg { Reg(p.bits << 32) }

  lemma UpLane0(p: Reg) ensures Lane0(UpByTwo(p)) == Zero {}
  lemma UpLane1(p: Reg) ensures Lane1(UpByTwo(p)) == Zero {}
  lemma UpLane2(p: Reg) ensures Lane2(UpByTwo(p)) == Lane0(p) {}
  lemma UpLane3(p: Reg) ensures Lane3(UpByTwo(p)) == Lane1(p) {}

  function KeepHigh(p: Reg32): Reg32 { Reg32(p.bits & 0xFFFF0000) }

  lemma KeepHighLow(p: Reg32) ensures Low(KeepHigh(p)) == Zero {}
  lemma KeepHighHigh(p: Reg32) ensures High(KeepHigh(p)) == High(p) {}

  // The checksum's arithmetic.

  /** Machines by the width of their registers. */
  datatype Machine = Wide64 | Wide32 | Wide16

  /** Words to a register; gf16_lookup_stride, in words. */
  function Stride(m: Machine): Positive { match m case Wide64 => 4 case Wide32 => 2 case Wide16 => 1 }

  /** A uintptr_t of one of them. */
  datatype Register = Quad(quad: Reg) | Pair(pair: Reg32) | Single(word: Word)

  function WidthOf(r: Register): Machine { match r case Quad(_) => Wide64 case Pair(_) => Wide32 case Single(_) => Wide16 }

  function LaneOf(r: Register, k: nat): Word
    requires k < Stride(WidthOf(r))
  {
    match r case Quad(p) => Lane(p, k) case Pair(p) => (if k == 0 then Low(p) else High(p)) case Single(w) => w
  }

  function XorOf(r: Register, s: Register): (t: Register)
    requires WidthOf(r) == WidthOf(s)
    ensures WidthOf(t) == WidthOf(r)
  {
    match r case Quad(p) => Quad(XorReg(p, s.quad)) case Pair(p) => Pair(Xor32(p, s.pair)) case Single(w) => Single(Xor(w, s.word))
  }

  lemma XorLanes(r: Register, s: Register, k: nat)
    requires WidthOf(r) == WidthOf(s) && k < Stride(WidthOf(r))
    ensures LaneOf(XorOf(r, s), k) == Xor(LaneOf(r, k), LaneOf(s, k))
  {
    hide Lane0, Lane1, Lane2, Lane3, Low, High, XorReg, Xor32, Xor;
    match r
    case Quad(p) => XorLane0(p, s.quad); XorLane1(p, s.quad); XorLane2(p, s.quad); XorLane3(p, s.quad);
    case Pair(p) => XorLow(p, s.pair); XorHigh(p, s.pair);
    case Single(_) =>
  }

  /** gf16_multi_mul2 */
  function MultiMul2(v: Register): (r: Register)
    ensures WidthOf(r) == WidthOf(v)
  {
    match v case Quad(p) => Quad(MultiMul64(p)) case Pair(p) => Pair(MultiMul32(p)) case Single(w) => Single(MultiMul16(w))
  }

  function MultiMul64(v: Reg): Reg {
    Reg(((v.bits * 2) & !0x0001000100010001) ^ (((v.bits >> 15) & 0x0001000100010001) * 0x100B))
  }

  function MultiMul32(v: Reg32): Reg32 { Reg32(((v.bits * 2) & !0x00010001) ^ (((v.bits >> 15) & 0x00010001) * 0x100B)) }

  function MultiMul16(v: Word): Word { Word((v.bits * 2) ^ ((0 - (v.bits >> 15)) & 0x100B)) }

  lemma MultiLane0(p: Reg) ensures Lane0(MultiMul64(p)) == Double(Lane0(p)) {}
  lemma MultiLane1(p: Reg) ensures Lane1(MultiMul64(p)) == Double(Lane1(p)) {}
  lemma MultiLane2(p: Reg) ensures Lane2(MultiMul64(p)) == Double(Lane2(p)) {}
  lemma MultiLane3(p: Reg) ensures Lane3(MultiMul64(p)) == Double(Lane3(p)) {}

  lemma MultiLow(p: Reg32) ensures Low(MultiMul32(p)) == Double(Low(p)) {}
  lemma MultiHigh(p: Reg32) ensures High(MultiMul32(p)) == Double(High(p)) {}

  lemma MultiWord(w: Word) ensures MultiMul16(w) == Double(w) {}

  /** On a machine of any width every lane is doubled, whatever the others hold. */
  lemma MultiMul2Lanes(r: Register, k: nat)
    requires k < Stride(WidthOf(r))
    ensures LaneOf(MultiMul2(r), k) == Double(LaneOf(r, k))
  {
    hide Lane0, Lane1, Lane2, Lane3, Low, High, MultiMul64, MultiMul32, MultiMul16, Double;
    match r
    case Quad(p) => MultiLane0(p); MultiLane1(p); MultiLane2(p); MultiLane3(p);
    case Pair(p) => MultiLow(p); MultiHigh(p);
    case Single(w) => MultiWord(w);
  }

  lemma StrideIs(m: Machine)
    ensures Stride(m) == if m.Wide64? then 4 else if m.Wide32? then 2 else 1
  {
  }
}
