/**
 The field GF(2^16) of PAR2, with generator polynomial 0x1100B, on 16-bit words.
 Addition is exclusive or.  Multiplication is the shift-and-add loop that every other
 kernel in this project is measured against.
 */
module Field {

  datatype Word = Word(bits: bv16)

  const Zero := Word(0)
  const One := Word(1)
  const Two := Word(2)

  function Xor(a: Word, b: Word): Word { Word(a.bits ^ b.bits) }

  /** Multiplication by 2; the top bit of 0x1100B is lost when the result is stored in 16 bits. */
  function Double(a: Word): Word { Word((a.bits << 1) ^ (0x100B & (0 - (a.bits >> 15)))) }

  predicate Odd(b: Word) { b.bits & 1 == 1 }

  function Half(b: Word): Word { Word(b.bits >> 1) }

  /** One step of a conditional sum. */
  function Pick(c: bool, a: Word): Word { if c then a else Zero }

  // Laws of the word operations, each decided on bits.

  lemma XorLaws(a: Word, b: Word)
    ensures Xor(a, Zero) == a == Xor(Zero, a)
    ensures Xor(a, a) == Zero
    ensures Xor(a, b) == Xor(b, a)
    ensures Xor(a, Xor(a, b)) == b
  {
  }

  lemma XorAssoc(a: Word, b: Word, c: Word)
    ensures Xor(Xor(a, b), c) == Xor(a, Xor(b, c))
  {
  }

  lemma XorSwap(a: Word, b: Word, c: Word, d: Word)
    ensures Xor(Xor(a, b), Xor(c, d)) == Xor(Xor(a, c), Xor(b, d))
  {
  }

  lemma DoubleLinear(a: Word, b: Word)
    ensures Double(Xor(a, b)) == Xor(Double(a), Double(b))
  {
  }

  lemma DoubleConstants()
    ensures Double(Zero) == Zero && Double(One) == Two
  {
  }

  /** Doubling loses nothing: the polynomial is odd, so the bit shifted out can be recovered. */
  lemma DoubleInjective(a: Word, b: Word)
    ensures Double(a) == Double(b) <==> a == b
  {
  }

  lemma OddXor(b: Word, c: Word)
    ensures Odd(Xor(b, c)) == (Odd(b) != Odd(c))
  {
  }

  lemma HalfXor(b: Word, c: Word)
    ensures Half(Xor(b, c)) == Xor(Half(b), Half(c))
  {
  }

  lemma OddHalf(b: Word)
    ensures b == Xor(Pick(Odd(b), One), Double(Half(b)))
  {
  }

  /** Halving applied n times. */
  function HalfBy(b: Word, n: nat): Word
    decreases n
  {
    if n == 0 then b else HalfBy(Half(b), n - 1)
  }

  lemma {:induction false} HalfByAdd(b: Word, m: nat, n: nat)
    ensures HalfBy(b, m + n) == HalfBy(HalfBy(b, m), n)
    decreases m
  {
    hide Half;
    if m != 0 { HalfByAdd(Half(b), m - 1, n); }
  }

  lemma HalfIsShift(b: Word)
    ensures Half(b).bits == b.bits >> 1
  {
  }

  lemma HalfByFour(b: Word)
    ensures HalfBy(b, 4).bits == b.bits >> 4
  {
    hide Half;
    var b1 := Half(b); var b2 := Half(b1); var b3 := Half(b2);
    assert HalfBy(b, 4) == HalfBy(b1, 3) == HalfBy(b2, 2) == HalfBy(b3, 1) == Half(b3);
    HalfIsShift(b); HalfIsShift(b1); HalfIsShift(b2); HalfIsShift(b3);
    HalvedBits(b.bits);
  }

  lemma HalvedBits(b: bv16)
    ensures ((b >> 1) >> 1 >> 1) >> 1 == b >> 4
  {
  }

  lemma ShiftedOut(b: bv16)
    ensures ((b >> 4) >> 4 >> 4) >> 4 == 0
  {
  }

  /** Sixteen halvings use up a word, so b == odd(b) + 2 * half(b) is an induction on 16 bits. */
  lemma HalfBySixteen(b: Word)
    ensures HalfBy(b, 16) == Zero
  {
    hide Half, HalfBy;
    HalfByAdd(b, 4, 12); HalfByAdd(HalfBy(b, 4), 4, 8); HalfByAdd(HalfBy(HalfBy(b, 4), 4), 4, 4);
    HalfByFour(b); HalfByFour(HalfBy(b, 4)); HalfByFour(HalfBy(HalfBy(b, 4), 4));
    HalfByFour(HalfBy(HalfBy(HalfBy(b, 4), 4), 4));
    ShiftedOut(b.bits);
  }

  /** What the last n rounds of the shift-and-add loop contribute. */
  function MulFrom(a: Word, b: Word, n: nat): Word
    decreases n
  {
    if n == 0 then Zero else Xor(Pick(Odd(b), a), MulFrom(Double(a), Half(b), n - 1))
  }

  /** The field product. */
  function Mul(a: Word, b: Word): Word { MulFrom(a, b, 16) }

  method MulSingleScalar(a: Word, b: Word) returns (result: Word)
    ensures result == Mul(a, b)
  {
    hide Half, Xor, Double, Odd;
    result := Zero;
    var temp, rest := a, b;
    var i := 0;
    XorLaws(Mul(a, b), Zero);
    while i < 16
      invariant 0 <= i <= 16
      invariant rest == HalfBy(b, i)
      invariant Mul(a, b) == Xor(result, MulFrom(temp, rest, 16 - i))
    {
      XorAssoc(result, Pick(Odd(rest), temp), MulFrom(Double(temp), Half(rest), 15 - i));
      XorLaws(result, Zero);
      HalfByAdd(b, i, 1);
      if Odd(rest) {
        result := Xor(result, temp);
      }
      temp := Double(temp);
      rest := Half(rest);
      i := i + 1;
    }
    XorLaws(result, Zero);
  }

  lemma {:induction false} MulFromLinearLeft(a: Word, a': Word, b: Word, n: nat)
    ensures MulFrom(Xor(a, a'), b, n) == Xor(MulFrom(a, b, n), MulFrom(a', b, n))
    decreases n
  {
    hide Double, Xor, Odd, Half;
    XorLaws(Zero, Zero);
    if n != 0 {
      MulFromLinearLeft(Double(a), Double(a'), Half(b), n - 1);
      DoubleLinear(a, a');
      XorSwap(Pick(Odd(b), a), MulFrom(Double(a), Half(b), n - 1),
              Pick(Odd(b), a'), MulFrom(Double(a'), Half(b), n - 1));
    }
  }

  lemma {:induction false} MulFromLinearRight(a: Word, b: Word, b': Word, n: nat)
    ensures MulFrom(a, Xor(b, b'), n) == Xor(MulFrom(a, b, n), MulFrom(a, b', n))
    decreases n
  {
    hide Double, Xor, Odd, Half;
    XorLaws(Zero, Zero);
    if n != 0 {
      MulFromLinearRight(Double(a), Half(b), Half(b'), n - 1);
      OddXor(b, b'); HalfXor(b, b'); XorLaws(a, Zero);
      XorSwap(Pick(Odd(b), a), MulFrom(Double(a), Half(b), n - 1),
              Pick(Odd(b'), a), MulFrom(Double(a), Half(b'), n - 1));
    }
  }

  lemma {:induction false} MulFromDouble(a: Word, b: Word, n: nat)
    ensures MulFrom(Double(a), b, n) == Double(MulFrom(a, b, n))
    decreases n
  {
    hide Double, Xor, Odd, Half;
    DoubleConstants();
    if n != 0 {
      MulFromDouble(Double(a), Half(b), n - 1);
      DoubleLinear(Pick(Odd(b), a), MulFrom(Double(a), Half(b), n - 1));
    }
  }

  lemma MulLinear(a: Word, a': Word, b: Word)
    ensures Mul(Xor(a, a'), b) == Xor(Mul(a, b), Mul(a', b))
    ensures Mul(b, Xor(a, a')) == Xor(Mul(b, a), Mul(b, a'))
  {
    hide Xor, MulFrom;
    MulFromLinearLeft(a, a', b, 16);
    MulFromLinearRight(b, a, a', 16);
  }

  lemma MulDoubleLeft(a: Word, b: Word)
    ensures Mul(Double(a), b) == Double(Mul(a, b))
  {
    hide Double, MulFrom;
    MulFromDouble(a, b, 16);
  }

  lemma MulZero(a: Word)
    ensures Mul(Zero, a) == Zero == Mul(a, Zero)
  {
    hide Xor, Mul;
    XorLaws(Zero, Zero);
    MulLinear(Zero, Zero, a);
    XorLaws(Mul(Zero, a), Zero);
    XorLaws(Mul(a, Zero), Zero);
  }

  lemma {:induction false} MulFromOne(b: Word, n: nat)
    requires HalfBy(b, n) == Zero
    ensures MulFrom(One, b, n) == b
    decreases n
  {
    hide Double, Xor, Odd, Half;
    if n != 0 {
      MulFromOne(Half(b), n - 1);
      MulFromDouble(One, Half(b), n - 1);
      OddHalf(b);
    }
  }

  lemma MulOneLeft(b: Word)
    ensures Mul(One, b) == b
  {
    hide Half, MulFrom, HalfBy;
    HalfBySixteen(b);
    MulFromOne(b, 16);
  }

  /** A product expanded along the bits of its left factor. */
  lemma MulSplit(b: Word, a: Word)
    ensures Mul(b, a) == Xor(Pick(Odd(b), a), Double(Mul(Half(b), a)))
  {
    hide Double, Xor, Odd, Half, Mul;
    OddHalf(b);
    MulLinear(Pick(Odd(b), One), Double(Half(b)), a);
    MulDoubleLeft(Half(b), a);
    MulOneLeft(a);
    MulZero(a);
  }

  lemma {:induction false} MulFromComm(a: Word, b: Word, n: nat)
    requires HalfBy(b, n) == Zero
    ensures MulFrom(a, b, n) == Mul(b, a)
    decreases n
  {
    hide Double, Xor, Odd, Half, Mul;
    if n == 0 {
      MulZero(a);
    } else {
      MulFromComm(a, Half(b), n - 1);
      MulFromDouble(a, Half(b), n - 1);
      MulSplit(b, a);
    }
  }

  lemma MulComm(a: Word, b: Word)
    ensures Mul(a, b) == Mul(b, a)
  {
    hide MulFrom, HalfBy;
    HalfBySixteen(b);
    MulFromComm(a, b, 16);
  }

  lemma MulDouble(a: Word, b: Word)
    ensures Mul(Double(a), b) == Double(Mul(a, b)) == Mul(a, Double(b))
  {
    hide Double, Mul;
    MulDoubleLeft(a, b); MulDoubleLeft(b, a);
    MulComm(Double(b), a); MulComm(b, a);
  }

  lemma MulOne(a: Word)
    ensures Mul(One, a) == a == Mul(a, One)
  {
    hide Mul;
    MulOneLeft(a); MulComm(a, One);
  }

  lemma {:induction false} MulAssocFrom(a: Word, b: Word, c: Word, n: nat)
    requires HalfBy(a, n) == Zero
    ensures Mul(Mul(a, b), c) == Mul(a, Mul(b, c))
    decreases n
  {
    hide Double, Xor, Odd, Half, Mul;
    MulZero(b); MulZero(c); MulZero(Mul(b, c));
    if n != 0 {
      MulAssocFrom(Half(a), b, c, n - 1);
      MulSplit(a, b);
      MulSplit(a, Mul(b, c));
      MulLinear(Pick(Odd(a), b), Double(Mul(Half(a), b)), c);
      MulDouble(Mul(Half(a), b), c);
    }
  }

  lemma MulAssoc(a: Word, b: Word, c: Word)
    ensures Mul(Mul(a, b), c) == Mul(a, Mul(b, c))
  {
    hide Mul, HalfBy;
    HalfBySixteen(a);
    MulAssocFrom(a, b, c, 16);
  }

  lemma MulSwap(a: Word, b: Word, c: Word, d: Word)
    ensures Mul(Mul(a, b), Mul(c, d)) == Mul(Mul(a, c), Mul(b, d))
  {
    hide Mul;
    MulAssoc(a, b, Mul(c, d)); MulAssoc(b, c, d); MulComm(b, c); MulAssoc(c, b, d);
    MulAssoc(a, c, Mul(b, d));
  }

  // Powers of two.

  /** Doubling applied n times. */
  function Shift(a: Word, n: nat): Word {
    if n == 0 then a else Double(Shift(a, n - 1))
  }

  /** gf16_exp: the field's generator to the n-th power. */
  function Exp(n: nat): Word { Shift(One, n) }

  lemma {:induction false} ShiftOfZero(n: nat)
    ensures Shift(Zero, n) == Zero
  {
    hide Double;
    DoubleConstants();
    if n != 0 { ShiftOfZero(n - 1); }
  }

  lemma {:induction false} ShiftAdd(a: Word, m: nat, n: nat)
    ensures Shift(a, m + n) == Shift(Shift(a, m), n)
  {
    hide Double;
    if n != 0 { ShiftAdd(a, m, n - 1); }
  }

  lemma {:induction false} ShiftLinear(a: Word, b: Word, n: nat)
    ensures Shift(Xor(a, b), n) == Xor(Shift(a, n), Shift(b, n))
  {
    hide Double, Xor;
    if n != 0 { ShiftLinear(a, b, n - 1); DoubleLinear(Shift(a, n - 1), Shift(b, n - 1)); }
  }

  lemma {:induction false} ShiftInjective(a: Word, b: Word, n: nat)
    ensures Shift(a, n) == Shift(b, n) <==> a == b
  {
    hide Double;
    if n != 0 { ShiftInjective(a, b, n - 1); DoubleInjective(Shift(a, n - 1), Shift(b, n - 1)); }
  }

  lemma {:induction false} ShiftMul(a: Word, b: Word, n: nat)
    ensures Shift(Mul(a, b), n) == Mul(Shift(a, n), b) == Mul(a, Shift(b, n))
  {
    hide Double, Mul;
    if n != 0 {
      ShiftMul(a, b, n - 1);
      MulDouble(Shift(a, n - 1), b); MulDouble(a, Shift(b, n - 1));
    }
  }

  /** Multiplying by gf16_exp(n) is doubling n times. */
  lemma MulExp(a: Word, n: nat)
    ensures Mul(a, Exp(n)) == Shift(a, n) == Mul(Exp(n), a)
  {
    hide Mul, Shift;
    MulOne(a);
    ShiftMul(a, One, n); ShiftMul(One, a, n);
  }

  // Squaring: linear, and of order sixteen.

  function Square(a: Word): Word { Mul(a, a) }

  lemma SquareXor(a: Word, b: Word)
    ensures Square(Xor(a, b)) == Xor(Square(a), Square(b))
  {
    hide Mul, Xor;
    MulLinear(a, b, Xor(a, b)); MulLinear(a, b, a); MulLinear(a, b, b);
    MulComm(a, b);
    XorAssoc(Mul(a, a), Mul(a, b), Xor(Mul(a, b), Mul(b, b)));
    XorLaws(Mul(a, b), Mul(b, b));
  }

  lemma SquareMul(a: Word, b: Word)
    ensures Square(Mul(a, b)) == Mul(Square(a), Square(b))
  {
    hide Mul;
    MulSwap(a, b, a, b);
  }

  lemma SquareConstants()
    ensures Square(Zero) == Zero && Square(One) == One
  {
    hide Mul;
    MulZero(Zero); MulOne(One);
  }

  /** The squares of the lowest n bits of b, summed, when bit 0 squares to c. */
  function SquareFrom(b: Word, c: Word, n: nat): Word
    decreases n
  {
    if n == 0 then Zero
    else Xor(Pick(Odd(b), c), SquareFrom(Half(b), Double(Double(c)), n - 1))
  }

  lemma {:induction false} SquareFromIs(b: Word, c: Word, n: nat)
    requires HalfBy(b, n) == Zero
    ensures SquareFrom(b, c, n) == Mul(c, Square(b))
    decreases n
  {
    hide Double, Xor, Odd, Half, Mul;
    SquareConstants(); MulZero(c); MulOne(c);
    if n != 0 {
      var h := Half(b);
      SquareFromIs(h, Double(Double(c)), n - 1);
      OddHalf(b);
      SquareXor(Pick(Odd(b), One), Double(h));
      MulLinear(Square(Pick(Odd(b), One)), Square(Double(h)), c);
      MulDouble(h, Double(h)); MulDouble(h, h);
      MulDouble(c, Square(h)); MulDouble(c, Double(Square(h))); MulDouble(Double(c), Square(h));
    }
  }

  /** Four consecutive terms of SquareFrom. */
  function Quad(b: Word, c0: Word, c1: Word, c2: Word, c3: Word): Word {
    var b1 := Half(b);
    var b2 := Half(b1);
    var b3 := Half(b2);
    Xor(Xor(Pick(Odd(b), c0), Pick(Odd(b1), c1)), Xor(Pick(Odd(b2), c2), Pick(Odd(b3), c3)))
  }

  lemma SquareFromQuad(b: Word, c: Word, n: nat)
    requires n >= 4
    ensures var c1 := Double(Double(c)); var c2 := Double(Double(c1)); var c3 := Double(Double(c2));
            SquareFrom(b, c, n) == Xor(Quad(b, c, c1, c2, c3),
                                       SquareFrom(HalfBy(b, 4), Double(Double(c3)), n - 4))
  {
    hide Xor, Half, Odd, Double;
    var c1 := Double(Double(c)); var c2 := Double(Double(c1)); var c3 := Double(Double(c2));
    var b1 := Half(b); var b2 := Half(b1); var b3 := Half(b2); var b4 := Half(b3);
    assert HalfBy(b, 4) == HalfBy(b1, 3) == HalfBy(b2, 2) == HalfBy(b3, 1) == b4;
    var rest := SquareFrom(b4, Double(Double(c3)), n - 4);
    var p, q, r, t := Pick(Odd(b), c), Pick(Odd(b1), c1), Pick(Odd(b2), c2), Pick(Odd(b3), c3);
    assert SquareFrom(b3, c3, n - 3) == Xor(t, rest);
    assert SquareFrom(b2, c2, n - 2) == Xor(r, Xor(t, rest));
    assert SquareFrom(b1, c1, n - 1) == Xor(q, Xor(r, Xor(t, rest)));
    XorAssoc(r, t, rest); XorAssoc(p, q, Xor(Xor(r, t), rest)); XorAssoc(Xor(p, q), Xor(r, t), rest);
  }

  /** The sixteen terms written out: bit k contributes 2^(2k) reduced. */
  function SquareTerms(b: Word): Word {
    var b1 := HalfBy(b, 4);
    var b2 := HalfBy(b1, 4);
    var b3 := HalfBy(b2, 4);
    Xor(Quad(b, Word(0x0001), Word(0x0004), Word(0x0010), Word(0x0040)),
    Xor(Quad(b1, Word(0x0100), Word(0x0400), Word(0x1000), Word(0x4000)),
    Xor(Quad(b2, Word(0x100B), Word(0x402C), Word(0x10BB), Word(0x42EC)),
        Quad(b3, Word(0x1BBB), Word(0x6EEC), Word(0xABBB), Word(0x8EFA)))))
  }

  lemma QuadruplePowers()
    ensures Double(Double(Word(0x0001))) == Word(0x0004) && Double(Double(Word(0x0004))) == Word(0x0010)
    ensures Double(Double(Word(0x0010))) == Word(0x0040) && Double(Double(Word(0x0040))) == Word(0x0100)
    ensures Double(Double(Word(0x0100))) == Word(0x0400) && Double(Double(Word(0x0400))) == Word(0x1000)
    ensures Double(Double(Word(0x1000))) == Word(0x4000) && Double(Double(Word(0x4000))) == Word(0x100B)
    ensures Double(Double(Word(0x100B))) == Word(0x402C) && Double(Double(Word(0x402C))) == Word(0x10BB)
    ensures Double(Double(Word(0x10BB))) == Word(0x42EC) && Double(Double(Word(0x42EC))) == Word(0x1BBB)
    ensures Double(Double(Word(0x1BBB))) == Word(0x6EEC) && Double(Double(Word(0x6EEC))) == Word(0xABBB)
    ensures Double(Double(Word(0xABBB))) == Word(0x8EFA) && Double(Double(Word(0x8EFA))) == Word(0x1BFE)
  {
  }

  lemma SquareTermsIs(b: Word)
    ensures SquareFrom(b, One, 16) == SquareTerms(b)
  {
    hide Xor, Quad, HalfBy, Double, SquareFrom;
    QuadruplePowers();
    var b1 := HalfBy(b, 4);
    var b2 := HalfBy(b1, 4);
    var b3 := HalfBy(b2, 4);
    SquareFromQuad(b, One, 16);
    SquareFromQuad(b1, Word(0x0100), 12);
    SquareFromQuad(b2, Word(0x100B), 8);
    SquareFromQuad(b3, Word(0x1BBB), 4);
    SquareFromEmpty(HalfBy(b3, 4), Double(Double(Word(0x8EFA))));
    XorLaws(Quad(b3, Word(0x1BBB), Word(0x6EEC), Word(0xABBB), Word(0x8EFA)), Zero);
  }

  lemma SquareFromEmpty(b: Word, c: Word)
    ensures SquareFrom(b, c, 0) == Zero
  {
  }

  lemma SquareIsTerms(b: Word)
    ensures Square(b) == SquareTerms(b)
  {
    hide Mul, HalfBy, SquareFrom, SquareTerms;
    HalfBySixteen(b);
    SquareFromIs(b, One, 16);
    SquareTermsIs(b);
    MulOne(Square(b));
  }

  function PickBits(x: bv16, c: bv16): bv16 { if x & 1 == 1 then c else 0 }

  function HalfBits(x: bv16): bv16 { x >> 1 }

  function XorBits(x: bv16, y: bv16): bv16 { x ^ y }

  lemma XorIsXor(a: Word, b: Word)
    ensures Xor(a, b).bits == a.bits ^ b.bits
  {
  }

  lemma XorIsBits(a: Word, b: Word)
    ensures Xor(a, b).bits == XorBits(a.bits, b.bits)
  {
    hide Xor;
    XorIsXor(a, b);
  }

  lemma PickIsBits(b: Word, c: Word)
    ensures Pick(Odd(b), c).bits == PickBits(b.bits, c.bits)
  {
  }

  lemma HalfIsBits(b: Word)
    ensures Half(b).bits == HalfBits(b.bits)
  {
    hide Half;
    HalfIsShift(b);
  }

  function QuadBits(x: bv16, c0: bv16, c1: bv16, c2: bv16, c3: bv16): bv16 {
    var y := HalfBits(x);
    var z := HalfBits(y);
    XorBits(XorBits(PickBits(x, c0), PickBits(y, c1)), XorBits(PickBits(z, c2), PickBits(HalfBits(z), c3)))
  }

  lemma QuadIsBits(b: Word, c0: Word, c1: Word, c2: Word, c3: Word)
    ensures Quad(b, c0, c1, c2, c3).bits == QuadBits(b.bits, c0.bits, c1.bits, c2.bits, c3.bits)
  {
    hide Xor, Pick, Odd, Half, PickBits, HalfBits, XorBits;
    var b1 := Half(b); var b2 := Half(b1); var b3 := Half(b2);
    var p, q, r, t := Pick(Odd(b), c0), Pick(Odd(b1), c1), Pick(Odd(b2), c2), Pick(Odd(b3), c3);
    XorIsBits(p, q); XorIsBits(r, t); XorIsBits(Xor(p, q), Xor(r, t));
    PickIsBits(b, c0); PickIsBits(b1, c1); PickIsBits(b2, c2); PickIsBits(b3, c3);
    HalfIsBits(b); HalfIsBits(b1); HalfIsBits(b2);
  }

  function ShiftBits(x: bv16): bv16 { x >> 4 }

  function SquareBits(x: bv16): bv16 {
    var x1 := ShiftBits(x);
    var x2 := ShiftBits(x1);
    XorBits(QuadBits(x, 0x0001, 0x0004, 0x0010, 0x0040),
    XorBits(QuadBits(x1, 0x0100, 0x0400, 0x1000, 0x4000),
    XorBits(QuadBits(x2, 0x100B, 0x402C, 0x10BB, 0x42EC),
            QuadBits(ShiftBits(x2), 0x1BBB, 0x6EEC, 0xABBB, 0x8EFA))))
  }

  function QuadPlain(x: bv16, c0: bv16, c1: bv16, c2: bv16, c3: bv16): bv16 {
    var y := HalfBits(x);
    var z := HalfBits(y);
    (PickBits(x, c0) ^ PickBits(y, c1)) ^ (PickBits(z, c2) ^ PickBits(HalfBits(z), c3))
  }

  function SquarePlain(x: bv16): bv16 {
    QuadPlain(x, 0x0001, 0x0004, 0x0010, 0x0040) ^
    (QuadPlain(ShiftBits(x), 0x0100, 0x0400, 0x1000, 0x4000) ^
    (QuadPlain(ShiftBits(ShiftBits(x)), 0x100B, 0x402C, 0x10BB, 0x42EC) ^
    QuadPlain(ShiftBits(ShiftBits(ShiftBits(x))), 0x1BBB, 0x6EEC, 0xABBB, 0x8EFA)))
  }

  lemma PlainXor(x: bv16, y: bv16)
    ensures XorBits(x, y) == x ^ y
  {
  }

  lemma PlainQuad(x: bv16, c0: bv16, c1: bv16, c2: bv16, c3: bv16)
    ensures QuadBits(x, c0, c1, c2, c3) == QuadPlain(x, c0, c1, c2, c3)
  {
    hide XorBits, HalfBits, PickBits;
    var y := HalfBits(x); var z := HalfBits(y); var w := HalfBits(z);
    var p, q := XorBits(PickBits(x, c0), PickBits(y, c1)), XorBits(PickBits(z, c2), PickBits(w, c3));
    PlainXor(PickBits(x, c0), PickBits(y, c1)); PlainXor(PickBits(z, c2), PickBits(w, c3)); PlainXor(p, q);
  }

  lemma PlainSquare(x: bv16)
    ensures SquareBits(x) == SquarePlain(x)
  {
    hide XorBits, ShiftBits, QuadBits, QuadPlain;
    var x1 := ShiftBits(x); var x2 := ShiftBits(x1); var x3 := ShiftBits(x2);
    var q0, q1 := QuadBits(x, 0x0001, 0x0004, 0x0010, 0x0040), QuadBits(x1, 0x0100, 0x0400, 0x1000, 0x4000);
    var q2, q3 := QuadBits(x2, 0x100B, 0x402C, 0x10BB, 0x42EC), QuadBits(x3, 0x1BBB, 0x6EEC, 0xABBB, 0x8EFA);
    PlainQuad(x, 0x0001, 0x0004, 0x0010, 0x0040); PlainQuad(x1, 0x0100, 0x0400, 0x1000, 0x4000);
    PlainQuad(x2, 0x100B, 0x402C, 0x10BB, 0x42EC); PlainQuad(x3, 0x1BBB, 0x6EEC, 0xABBB, 0x8EFA);
    PlainXor(q2, q3); PlainXor(q1, XorBits(q2, q3)); PlainXor(q0, XorBits(q1, XorBits(q2, q3)));
  }

  lemma PlainSquareFixed(x: bv16)
    ensures SquarePlain(x) == x <==> x == 0 || x == 1
  {
  }

  lemma HalfByFourBits(b: Word)
    ensures HalfBy(b, 4).bits == ShiftBits(b.bits)
  {
    hide HalfBy;
    HalfByFour(b);
  }

  lemma SquareTermsBits(b: Word)
    ensures SquareTerms(b).bits == SquareBits(b.bits)
  {
    hide Quad, QuadBits, HalfBy, Xor, XorBits, ShiftBits;
    var b1 := HalfBy(b, 4);
    var b2 := HalfBy(b1, 4);
    var b3 := HalfBy(b2, 4);
    HalfByFourBits(b); HalfByFourBits(b1); HalfByFourBits(b2);
    QuadIsBits(b, Word(0x0001), Word(0x0004), Word(0x0010), Word(0x0040));
    QuadIsBits(b1, Word(0x0100), Word(0x0400), Word(0x1000), Word(0x4000));
    QuadIsBits(b2, Word(0x100B), Word(0x402C), Word(0x10BB), Word(0x42EC));
    QuadIsBits(b3, Word(0x1BBB), Word(0x6EEC), Word(0xABBB), Word(0x8EFA));
    var q0 := Quad(b, Word(0x0001), Word(0x0004), Word(0x0010), Word(0x0040));
    var q1 := Quad(b1, Word(0x0100), Word(0x0400), Word(0x1000), Word(0x4000));
    var q2 := Quad(b2, Word(0x100B), Word(0x402C), Word(0x10BB), Word(0x42EC));
    var q3 := Quad(b3, Word(0x1BBB), Word(0x6EEC), Word(0xABBB), Word(0x8EFA));
    XorIsBits(q2, q3); XorIsBits(q1, Xor(q2, q3)); XorIsBits(q0, Xor(q1, Xor(q2, q3)));
  }

  lemma SquareTermsFixed(a: Word)
    ensures SquareTerms(a) == a <==> a == Zero || a == One
  {
    hide SquareTerms, SquareBits, SquarePlain;
    SquareTermsBits(a);
    PlainSquare(a.bits);
    PlainSquareFixed(a.bits);
  }

  /** Only the two constants are their own square: this is what makes 0x1100B irreducible. */
  lemma SquareFixed(a: Word)
    ensures Square(a) == a <==> a == Zero || a == One
  {
    hide Square, SquareTerms;
    SquareIsTerms(a);
    SquareTermsFixed(a);
  }

  /** Squaring applied n times. */
  function Frobenius(a: Word, n: nat): Word {
    if n == 0 then a else Square(Frobenius(a, n - 1))
  }

  lemma {:induction false} FrobeniusLinear(a: Word, b: Word, n: nat)
    ensures Frobenius(Xor(a, b), n) == Xor(Frobenius(a, n), Frobenius(b, n))
    ensures Frobenius(Mul(a, b), n) == Mul(Frobenius(a, n), Frobenius(b, n))
    ensures Frobenius(Zero, n) == Zero && Frobenius(One, n) == One
  {
    hide Mul, Xor, Square;
    if n != 0 {
      FrobeniusLinear(a, b, n - 1);
      SquareXor(Frobenius(a, n - 1), Frobenius(b, n - 1));
      SquareMul(Frobenius(a, n - 1), Frobenius(b, n - 1));
      SquareConstants();
    }
  }

  lemma FirstSquares()
    ensures SquareBits(0x0002) == 0x0004 && SquareBits(0x0004) == 0x0010
    ensures SquareBits(0x0010) == 0x0100 && SquareBits(0x0100) == 0x100B
    ensures SquareBits(0x100B) == 0x1BFE && SquareBits(0x1BFE) == 0x5C24
    ensures SquareBits(0x5C24) == 0xE647 && SquareBits(0xE647) == 0x0B2F
  {
  }

  lemma LaterSquares()
    ensures SquareBits(0x0B2F) == 0x169E && SquareBits(0x169E) == 0x0A78
    ensures SquareBits(0x0A78) == 0x1780 && SquareBits(0x1780) == 0x1B27
    ensures SquareBits(0x1B27) == 0x0D65 && SquareBits(0x0D65) == 0x564D
    ensures SquareBits(0x564D) == 0xF0C6 && SquareBits(0xF0C6) == 0x0002
  {
  }

  lemma SquaresOfTwo()
    ensures Square(Word(0x0002)) == Word(0x0004) && Square(Word(0x0004)) == Word(0x0010)
    ensures Square(Word(0x0010)) == Word(0x0100) && Square(Word(0x0100)) == Word(0x100B)
    ensures Square(Word(0x100B)) == Word(0x1BFE) && Square(Word(0x1BFE)) == Word(0x5C24)
    ensures Square(Word(0x5C24)) == Word(0xE647) && Square(Word(0xE647)) == Word(0x0B2F)
    ensures Square(Word(0x0B2F)) == Word(0x169E) && Square(Word(0x169E)) == Word(0x0A78)
    ensures Square(Word(0x0A78)) == Word(0x1780) && Square(Word(0x1780)) == Word(0x1B27)
    ensures Square(Word(0x1B27)) == Word(0x0D65) && Square(Word(0x0D65)) == Word(0x564D)
    ensures Square(Word(0x564D)) == Word(0xF0C6) && Square(Word(0xF0C6)) == Word(0x0002)
  {
    hide Square, SquareTerms, SquareBits;
    FirstSquares(); LaterSquares();
    SquareIsTerms(Word(0x0002)); SquareTermsBits(Word(0x0002));
    SquareIsTerms(Word(0x0004)); SquareTermsBits(Word(0x0004));
    SquareIsTerms(Word(0x0010)); SquareTermsBits(Word(0x0010));
    SquareIsTerms(Word(0x0100)); SquareTermsBits(Word(0x0100));
    SquareIsTerms(Word(0x100B)); SquareTermsBits(Word(0x100B));
    SquareIsTerms(Word(0x1BFE)); SquareTermsBits(Word(0x1BFE));
    SquareIsTerms(Word(0x5C24)); SquareTermsBits(Word(0x5C24));
    SquareIsTerms(Word(0xE647)); SquareTermsBits(Word(0xE647));
    SquareIsTerms(Word(0x0B2F)); SquareTermsBits(Word(0x0B2F));
    SquareIsTerms(Word(0x169E)); SquareTermsBits(Word(0x169E));
    SquareIsTerms(Word(0x0A78)); SquareTermsBits(Word(0x0A78));
    SquareIsTerms(Word(0x1780)); SquareTermsBits(Word(0x1780));
    SquareIsTerms(Word(0x1B27)); SquareTermsBits(Word(0x1B27));
    SquareIsTerms(Word(0x0D65)); SquareTermsBits(Word(0x0D65));
    SquareIsTerms(Word(0x564D)); SquareTermsBits(Word(0x564D));
    SquareIsTerms(Word(0xF0C6)); SquareTermsBits(Word(0xF0C6));
  }

  /** Sixteen squarings bring the generator back to itself. */
  lemma FrobeniusTwo()
    ensures Frobenius(Two, 16) == Two
  {
    hide Square;
    SquaresOfTwo();
    assert Frobenius(Two, 4) == Word(0x100B);
    assert Frobenius(Two, 8) == Word(0x0B2F);
    assert Frobenius(Two, 12) == Word(0x1B27);
  }

  lemma DoubleIsMulTwo(a: Word)
    ensures Double(a) == Mul(Two, a)
  {
    hide Mul, Double;
    DoubleConstants();
    MulDouble(One, a);
    MulOne(a);
  }

  lemma {:induction false} FrobeniusSixteenFrom(b: Word, n: nat)
    requires HalfBy(b, n) == Zero
    ensures Frobenius(b, 16) == b
    decreases n
  {
    hide Mul, Xor, Odd, Half, Double, Square, Frobenius;
    FrobeniusLinear(Zero, Zero, 16);
    if n != 0 {
      FrobeniusSixteenFrom(Half(b), n - 1);
      OddHalf(b);
      FrobeniusLinear(Pick(Odd(b), One), Double(Half(b)), 16);
      DoubleIsMulTwo(Half(b));
      FrobeniusLinear(Two, Half(b), 16);
      FrobeniusTwo();
    }
  }

  /** Every word is its own 65536-th power. */
  lemma FrobeniusSixteen(a: Word)
    ensures Frobenius(a, 16) == a
  {
    hide HalfBy, Frobenius;
    HalfBySixteen(a);
    FrobeniusSixteenFrom(a, 16);
  }

  lemma SquareExp(n: nat)
    ensures Square(Exp(n)) == Exp(2 * n)
  {
    hide Mul, Double, Shift;
    MulExp(Exp(n), n);
    ShiftAdd(One, n, n);
  }

  function PowerOfTwo(n: nat): nat { if n == 0 then 1 else 2 * PowerOfTwo(n - 1) }

  lemma {:induction false} FrobeniusExp(n: nat)
    ensures Frobenius(Two, n) == Exp(PowerOfTwo(n))
  {
    hide Square, Double;
    if n == 0 {
      DoubleConstants();
      assert Shift(One, 1) == Double(Shift(One, 0));
    } else {
      FrobeniusExp(n - 1);
      SquareExp(PowerOfTwo(n - 1));
    }
  }

  /** The generator's order divides 65535, which is what lets a checksum be wound backwards. */
  lemma ExpOrder()
    ensures Exp(65535) == One
  {
    hide Square, Double, Shift, Frobenius;
    FrobeniusTwo();
    FrobeniusExp(16);
    assert PowerOfTwo(4) == 16 && PowerOfTwo(8) == 256 && PowerOfTwo(12) == 4096;
    assert PowerOfTwo(16) == 65536;
    DoubleConstants();
    ExpStep(65535);
    DoubleInjective(Exp(65535), One);
  }

  lemma ExpStep(n: nat)
    ensures Exp(n + 1) == Double(Exp(n)) && Exp(0) == One
  {
    hide Double;
  }

  lemma {:induction false} ShiftPeriod(a: Word, k: nat)
    ensures Shift(a, 65535 * k) == a
  {
    hide Double, Shift, Mul;
    if k == 0 {
      ShiftZero(a);
    } else {
      ShiftPeriod(a, k - 1);
      ShiftAdd(a, 65535 * (k - 1), 65535);
      ExpOrder();
      MulExp(a, 65535);
      MulOne(a);
    }
  }

  lemma ShiftZero(a: Word)
    ensures Shift(a, 0) == a
  {
  }

  /** Exponents may be reduced modulo 65535 before gf16_exp is asked for them. */
  lemma ShiftModulo(a: Word, n: nat)
    ensures Shift(a, n % 65535) == Shift(a, n)
  {
    hide Double, Shift;
    ShiftPeriod(a, n / 65535);
    ShiftAdd(a, 65535 * (n / 65535), n % 65535);
  }

  // Inverses.

  /** The product of the first n iterated squares of a. */
  function Norm(a: Word, n: nat): Word {
    if n == 0 then One else Mul(Norm(a, n - 1), Frobenius(a, n - 1))
  }

  lemma {:induction false} NormSquare(a: Word, n: nat)
    ensures Mul(Square(Norm(a, n)), a) == Norm(a, n + 1)
    ensures Mul(Norm(a, n), a) == Frobenius(a, n)
  {
    hide Mul;
    if n == 0 {
      SquareConstants();
      MulOne(a);
      assert Norm(a, 1) == Mul(Norm(a, 0), Frobenius(a, 0));
    } else {
      NormSquare(a, n - 1);
      var p, f := Norm(a, n - 1), Frobenius(a, n - 1);
      SquareMul(p, f);
      MulAssoc(Square(p), Square(f), a); MulComm(Square(f), a); MulAssoc(Square(p), a, Square(f));
      MulAssoc(p, f, a); MulComm(f, a); MulAssoc(p, a, f);
    }
  }

  function Inverse(a: Word): Word { Square(Norm(a, 15)) }

  lemma NormFixed(a: Word)
    ensures Square(Norm(a, 16)) == Norm(a, 16)
    ensures Mul(Norm(a, 16), a) == a
    ensures Mul(a, Inverse(a)) == Norm(a, 16)
  {
    hide Mul, Square, Frobenius;
    NormSquare(a, 16);
    NormSquare(a, 15);
    FrobeniusSixteen(a);
    MulComm(a, Inverse(a));
    assert Norm(a, 16) == Mul(Norm(a, 15), Frobenius(a, 15));
    NormSquareIsNorm(a);
  }

  lemma NormSquareIsNorm(a: Word)
    ensures Square(Norm(a, 16)) == Norm(a, 16)
  {
    hide Mul, Square, Frobenius, Norm;
    NormStep(a, 15);
    NormSquare(a, 15);
    SquareMul(Norm(a, 15), Frobenius(a, 15));
    FrobeniusStep(a, 15);
    FrobeniusSixteen(a);
  }

  lemma NormStep(a: Word, n: nat)
    ensures Norm(a, n + 1) == Mul(Norm(a, n), Frobenius(a, n))
  {
    hide Mul, Frobenius;
  }

  lemma FrobeniusStep(a: Word, n: nat)
    ensures Frobenius(a, n + 1) == Square(Frobenius(a, n))
  {
    hide Square;
  }

  /** Every non-zero word has an inverse, so GF(2^16) with 0x1100B is a field. */
  lemma InverseLaw(a: Word)
    requires a != Zero
    ensures Mul(a, Inverse(a)) == One
  {
    hide Mul, Square, Frobenius, Norm, Inverse;
    NormFixed(a);
    SquareFixed(Norm(a, 16));
    MulZero(a);
  }

  /** A product vanishes only when a factor does. */
  lemma NoZeroDivisors(a: Word, b: Word)
    ensures Mul(a, b) == Zero <==> a == Zero || b == Zero
  {
    hide Mul, Inverse;
    MulZero(a); MulZero(b);
    if Mul(a, b) == Zero && a != Zero {
      InverseLaw(a);
      MulComm(a, Inverse(a));
      MulAssoc(Inverse(a), a, b);
      MulZero(Inverse(a));
      MulOne(b);
    }
  }
}
