/**
 Multiplication by carry-less products: Karatsuba on bytes, sums of unreduced products, and one
 Barrett reduction at the end, byte-wise (NEON) and on packed lanes (RVV).
 */
module Clmul {
  import opened Field
  import opened Swar
  import opened Blocks
  import C = ChecksumGeneric

  // Linear functions of a word are determined by its bits.

  /** The word made of the low n bits of w. */
  function Prefix(w: Word, n: nat): Word
    decreases n
  {
    if n == 0 then Zero else Xor(Prefix(w, n - 1), Pick(Odd(HalfBy(w, n - 1)), Exp(n - 1)))
  }

  lemma {:induction false} PrefixSplit(w: Word, n: nat)
    ensures w == Xor(Prefix(w, n), Shift(HalfBy(w, n), n))
    decreases n
  {
    hide Odd, Double, Xor, Half, HalfBy;
    if n == 0 {
      XorLaws(w, Zero);
      C.HalfByNone(w);
      ShiftZero(w);
    } else {
      PrefixSplit(w, n - 1);
      HalfByAdd(w, n - 1, 1);
      var h := HalfBy(w, n - 1);
      C.HalfByOne(h);
      OddHalf(h);
      ShiftLinear(Pick(Odd(h), One), Double(Half(h)), n - 1);
      ShiftAdd(Half(h), 1, n - 1);
      assert Shift(Half(h), 1) == Double(Shift(Half(h), 0));
      ShiftOfZero(n - 1);
      XorAssoc(Prefix(w, n - 1), Pick(Odd(h), Exp(n - 1)), Shift(HalfBy(w, n), n));
    }
  }

  lemma PrefixAll(w: Word)
    ensures Prefix(w, 16) == w
    ensures !C.TopBit(w) ==> Prefix(w, 15) == w
  {
    hide Odd, Xor, HalfBy, C.TopBit;
    PrefixSplit(w, 16);
    HalfBySixteen(w);
    ShiftOfZero(16);
    XorLaws(Prefix(w, 16), Zero);
    C.TopIsOdd(w);
    XorLaws(Prefix(w, 15), Zero);
  }

  // Shifts, one function each so that their laws stay cheap.

  function Right2(a: Word): Word { Word(a.bits >> 2) }
  function Right4(a: Word): Word { Word(a.bits >> 4) }
  function Right5(a: Word): Word { Word(a.bits >> 5) }
  function Right8(a: Word): Word { Word(a.bits >> 8) }
  function Right12(a: Word): Word { Word(a.bits >> 12) }
  function Right13(a: Word): Word { Word(a.bits >> 13) }
  function Right15(a: Word): Word { Word(a.bits >> 15) }

  function Left1(a: Word): Word { Word(a.bits << 1) }
  function Left3(a: Word): Word { Word(a.bits << 3) }
  function Left4(a: Word): Word { Word(a.bits << 4) }
  function Left8(a: Word): Word { Word(a.bits << 8) }
  function Left12(a: Word): Word { Word(a.bits << 12) }

  lemma Right2Linear(x: Word, y: Word) ensures Right2(Xor(x, y)) == Xor(Right2(x), Right2(y)) {}
  lemma Right4Linear(x: Word, y: Word) ensures Right4(Xor(x, y)) == Xor(Right4(x), Right4(y)) {}
  lemma Right5Linear(x: Word, y: Word) ensures Right5(Xor(x, y)) == Xor(Right5(x), Right5(y)) {}
  lemma Right8Linear(x: Word, y: Word) ensures Right8(Xor(x, y)) == Xor(Right8(x), Right8(y)) {}
  lemma Right12Linear(x: Word, y: Word) ensures Right12(Xor(x, y)) == Xor(Right12(x), Right12(y)) {}
  lemma Right13Linear(x: Word, y: Word) ensures Right13(Xor(x, y)) == Xor(Right13(x), Right13(y)) {}
  lemma Right15Linear(x: Word, y: Word) ensures Right15(Xor(x, y)) == Xor(Right15(x), Right15(y)) {}
  lemma Left1Linear(x: Word, y: Word) ensures Left1(Xor(x, y)) == Xor(Left1(x), Left1(y)) {}
  lemma Left3Linear(x: Word, y: Word) ensures Left3(Xor(x, y)) == Xor(Left3(x), Left3(y)) {}
  lemma Left4Linear(x: Word, y: Word) ensures Left4(Xor(x, y)) == Xor(Left4(x), Left4(y)) {}
  lemma Left8Linear(x: Word, y: Word) ensures Left8(Xor(x, y)) == Xor(Left8(x), Left8(y)) {}
  lemma Left12Linear(x: Word, y: Word) ensures Left12(Xor(x, y)) == Xor(Left12(x), Left12(y)) {}

  // Barrett reduction of the high half of a product.

  /** Multiplying by 0x1111a and keeping what is above bit 16. */
  function Quotient(h: Word): Word {
    Xor(Xor(Xor(Right15(h), Right13(h)), Xor(Right12(h), Right8(h))), Xor(Right4(h), h))
  }

  /** Multiplying by 0x100b, low half. */
  function Fold(q: Word): Word { Xor(Xor(q, Left1(q)), Xor(Left3(q), Left12(q))) }

  lemma QuotientLinear(x: Word, y: Word)
    ensures Quotient(Xor(x, y)) == Xor(Quotient(x), Quotient(y))
  {
    hide Xor, Right4, Right8, Right12, Right13, Right15;
    Right4Linear(x, y); Right8Linear(x, y); Right12Linear(x, y); Right13Linear(x, y); Right15Linear(x, y);
    XorSwap(Right15(x), Right15(y), Right13(x), Right13(y));
    XorSwap(Right12(x), Right12(y), Right8(x), Right8(y));
    XorSwap(Right4(x), Right4(y), x, y);
    XorSwap(Xor(Right15(x), Right13(x)), Xor(Right15(y), Right13(y)), Xor(Right12(x), Right8(x)), Xor(Right12(y), Right8(y)));
    XorSwap(Xor(Xor(Right15(x), Right13(x)), Xor(Right12(x), Right8(x))), Xor(Xor(Right15(y), Right13(y)), Xor(Right12(y), Right8(y))),
            Xor(Right4(x), x), Xor(Right4(y), y));
  }

  lemma FoldLinear(x: Word, y: Word)
    ensures Fold(Xor(x, y)) == Xor(Fold(x), Fold(y))
  {
    hide Xor, Left1, Left3, Left12;
    Left1Linear(x, y); Left3Linear(x, y); Left12Linear(x, y);
    XorSwap(x, y, Left1(x), Left1(y));
    XorSwap(Left3(x), Left3(y), Left12(x), Left12(y));
    XorSwap(Xor(x, Left1(x)), Xor(y, Left1(y)), Xor(Left3(x), Left12(x)), Xor(Left3(y), Left12(y)));
  }

  function Barrett(h: Word): Word { Fold(Quotient(h)) }

  // The generator's first powers, and the reduction of those above bit 16.

  lemma SmallPowers()
    ensures Double(Word(0x1)) == Word(0x2) && Double(Word(0x2)) == Word(0x4) && Double(Word(0x4)) == Word(0x8) && Double(Word(0x8)) == Word(0x10)
    ensures Double(Word(0x10)) == Word(0x20) && Double(Word(0x20)) == Word(0x40) && Double(Word(0x40)) == Word(0x80) && Double(Word(0x80)) == Word(0x100)
    ensures Double(Word(0x100)) == Word(0x200) && Double(Word(0x200)) == Word(0x400) && Double(Word(0x400)) == Word(0x800) && Double(Word(0x800)) == Word(0x1000)
    ensures Double(Word(0x1000)) == Word(0x2000) && Double(Word(0x2000)) == Word(0x4000) && Double(Word(0x4000)) == Word(0x8000)
  {
  }

  lemma LargePowers()
    ensures Double(Word(0x8000)) == Word(0x100b) && Double(Word(0x100b)) == Word(0x2016) && Double(Word(0x2016)) == Word(0x402c) && Double(Word(0x402c)) == Word(0x8058)
    ensures Double(Word(0x8058)) == Word(0x10bb) && Double(Word(0x10bb)) == Word(0x2176) && Double(Word(0x2176)) == Word(0x42ec) && Double(Word(0x42ec)) == Word(0x85d8)
    ensures Double(Word(0x85d8)) == Word(0x1bbb) && Double(Word(0x1bbb)) == Word(0x3776) && Double(Word(0x3776)) == Word(0x6eec) && Double(Word(0x6eec)) == Word(0xddd8)
    ensures Double(Word(0xddd8)) == Word(0xabbb) && Double(Word(0xabbb)) == Word(0x477d) && Double(Word(0x477d)) == Word(0x8efa)
  {
  }

  lemma PowerValues()
    ensures Exp(0) == Word(0x1) && Exp(1) == Word(0x2) && Exp(2) == Word(0x4) && Exp(3) == Word(0x8)
    ensures Exp(4) == Word(0x10) && Exp(5) == Word(0x20) && Exp(6) == Word(0x40) && Exp(7) == Word(0x80)
    ensures Exp(8) == Word(0x100) && Exp(9) == Word(0x200) && Exp(10) == Word(0x400) && Exp(11) == Word(0x800)
    ensures Exp(12) == Word(0x1000) && Exp(13) == Word(0x2000) && Exp(14) == Word(0x4000) && Exp(15) == Word(0x8000)
    ensures Exp(16) == Word(0x100b) && Exp(17) == Word(0x2016) && Exp(18) == Word(0x402c) && Exp(19) == Word(0x8058)
    ensures Exp(20) == Word(0x10bb) && Exp(21) == Word(0x2176) && Exp(22) == Word(0x42ec) && Exp(23) == Word(0x85d8)
    ensures Exp(24) == Word(0x1bbb) && Exp(25) == Word(0x3776) && Exp(26) == Word(0x6eec) && Exp(27) == Word(0xddd8)
    ensures Exp(28) == Word(0xabbb) && Exp(29) == Word(0x477d) && Exp(30) == Word(0x8efa)
  {
    hide Double, Shift;
    SmallPowers();
    LargePowers();
    ExpStep(0); ExpStep(1); ExpStep(2); ExpStep(3); ExpStep(4);
    ExpStep(5); ExpStep(6); ExpStep(7); ExpStep(8); ExpStep(9);
    ExpStep(10); ExpStep(11); ExpStep(12); ExpStep(13); ExpStep(14);
    ExpStep(15); ExpStep(16); ExpStep(17); ExpStep(18); ExpStep(19);
    ExpStep(20); ExpStep(21); ExpStep(22); ExpStep(23); ExpStep(24);
    ExpStep(25); ExpStep(26); ExpStep(27); ExpStep(28); ExpStep(29);
  }

  lemma BarrettValues()
    ensures Barrett(Word(0x1)) == Word(0x100b) && Barrett(Word(0x2)) == Word(0x2016) && Barrett(Word(0x4)) == Word(0x402c)
    ensures Barrett(Word(0x8)) == Word(0x8058) && Barrett(Word(0x10)) == Word(0x10bb) && Barrett(Word(0x20)) == Word(0x2176)
    ensures Barrett(Word(0x40)) == Word(0x42ec) && Barrett(Word(0x80)) == Word(0x85d8) && Barrett(Word(0x100)) == Word(0x1bbb)
    ensures Barrett(Word(0x200)) == Word(0x3776) && Barrett(Word(0x400)) == Word(0x6eec) && Barrett(Word(0x800)) == Word(0xddd8)
    ensures Barrett(Word(0x1000)) == Word(0xabbb) && Barrett(Word(0x2000)) == Word(0x477d) && Barrett(Word(0x4000)) == Word(0x8efa)
  {
  }

  lemma BarrettBit(i: nat)
    requires i < 15
    ensures Barrett(Exp(i)) == Exp(16 + i)
  {
    hide Barrett, Shift;
    PowerValues();
    BarrettValues();
  }

  lemma BarrettLinear(x: Word, y: Word)
    ensures Barrett(Xor(x, y)) == Xor(Barrett(x), Barrett(y))
  {
    hide Xor, Quotient, Fold;
    QuotientLinear(x, y);
    FoldLinear(Quotient(x), Quotient(y));
  }

  lemma {:induction false} BarrettPrefix(w: Word, n: nat)
    requires n <= 15
    ensures Barrett(Prefix(w, n)) == Shift(Prefix(w, n), 16)
    decreases n
  {
    hide Xor, Barrett, Shift, Odd, HalfBy;
    ShiftOfZero(16);
    BarrettZero();
    if n > 0 {
      BarrettPrefix(w, n - 1);
      var p := Pick(Odd(HalfBy(w, n - 1)), Exp(n - 1));
      BarrettLinear(Prefix(w, n - 1), p);
      ShiftLinear(Prefix(w, n - 1), p, 16);
      BarrettBit(n - 1);
      ShiftAdd(One, n - 1, 16);
    }
  }

  lemma BarrettZero() ensures Barrett(Zero) == Zero {}

  /** Both Barrett steps together multiply by x^16 and reduce, for products of at most 31 bits. */
  lemma BarrettIsShift(h: Word)
    requires !C.TopBit(h)
    ensures Barrett(h) == Shift(h, 16)
  {
    hide Barrett, Shift, Prefix, C.TopBit;
    PrefixAll(h);
    BarrettPrefix(h, 15);
  }

  // gf16_clmul_neon_reduction, on the two bytes of each word.

  function Byte0(a: Word): Word { Word(a.bits & 0xFF) }

  lemma Byte0Linear(x: Word, y: Word) ensures Byte0(Xor(x, y)) == Xor(Byte0(x), Byte0(y)) {}

  function Byte1(a: Word): Word { Right8(a) }

  /** A byte shifted left, without what leaves it. */
  function Shl4(a: Word): Word { Byte0(Left4(a)) }

  lemma Shl4Linear(x: Word, y: Word)
    ensures Shl4(Xor(x, y)) == Xor(Shl4(x), Shl4(y))
  {
    hide Xor, Byte0, Left4;
    Left4Linear(x, y);
    Byte0Linear(Left4(x), Left4(y));
  }

  /** vmulq_p8 by 0x0b: a carry-less product, low byte. */
  function MulB(a: Word): Word { Byte0(Xor(Xor(a, Left1(a)), Left3(a))) }

  lemma MulBLinear(x: Word, y: Word)
    ensures MulB(Xor(x, y)) == Xor(MulB(x), MulB(y))
  {
    hide Xor, Byte0, Left1, Left3;
    Left1Linear(x, y); Left3Linear(x, y);
    XorSwap(x, y, Left1(x), Left1(y));
    XorSwap(Xor(x, Left1(x)), Xor(y, Left1(y)), Left3(x), Left3(y));
    Byte0Linear(Xor(Xor(x, Left1(x)), Left3(x)), Xor(Xor(y, Left1(y)), Left3(y)));
  }

  /** th1 */
  function Th1(h: Word): Word { Xor(Byte1(h), Right4(Byte1(h))) }

  /** th0 before the 0x8 part of 0x1a is added: shift-insert, then the other terms of 0x11110. */
  function Th0(h: Word): Word {
    Xor(Xor(Xor(Shl4(Byte1(h)), Right4(Byte0(h))), Th1(h)), Byte0(h))
  }

  /** th0 afterwards. */
  function Th0Full(h: Word): Word { Xor(Th0(h), Right5(Byte1(h))) }

  /** The upper byte of the product by 0x100b: shift-insert, th0_hi1, th1 * 0x0b. */
  function FoldHigh(h: Word): Word {
    Xor(Xor(Xor(Shl4(Th0Full(h)), Right5(Th0(h))), Right2(Right5(Th0(h)))), MulB(Th1(h)))
  }

  /** What the reduction adds to the low half, for the high half h. */
  function NeonFold(h: Word): Word { Xor(MulB(Th0Full(h)), Left8(FoldHigh(h))) }

  lemma Th1Linear(x: Word, y: Word)
    ensures Th1(Xor(x, y)) == Xor(Th1(x), Th1(y))
  {
    hide Xor, Right8, Right4;
    Right8Linear(x, y);
    Right4Linear(Byte1(x), Byte1(y));
    XorSwap(Byte1(x), Byte1(y), Right4(Byte1(x)), Right4(Byte1(y)));
  }

  lemma Th0Linear(x: Word, y: Word)
    ensures Th0(Xor(x, y)) == Xor(Th0(x), Th0(y))
  {
    hide Xor, Right8, Right4, Byte0, Shl4, Th1;
    Right8Linear(x, y);
    Byte0Linear(x, y);
    Shl4Linear(Byte1(x), Byte1(y));
    Right4Linear(Byte0(x), Byte0(y));
    Th1Linear(x, y);
    var a, a', b, b' := Shl4(Byte1(x)), Shl4(Byte1(y)), Right4(Byte0(x)), Right4(Byte0(y));
    XorSwap(a, a', b, b');
    XorSwap(Xor(a, b), Xor(a', b'), Th1(x), Th1(y));
    XorSwap(Xor(Xor(a, b), Th1(x)), Xor(Xor(a', b'), Th1(y)), Byte0(x), Byte0(y));
  }

  lemma Th0FullLinear(x: Word, y: Word)
    ensures Th0Full(Xor(x, y)) == Xor(Th0Full(x), Th0Full(y))
  {
    hide Xor, Right8, Right5, Th0;
    Right8Linear(x, y);
    Right5Linear(Byte1(x), Byte1(y));
    Th0Linear(x, y);
    XorSwap(Th0(x), Th0(y), Right5(Byte1(x)), Right5(Byte1(y)));
  }

  lemma FoldHighLinear(x: Word, y: Word)
    ensures FoldHigh(Xor(x, y)) == Xor(FoldHigh(x), FoldHigh(y))
  {
    hide Xor, Right5, Right2, Th0, Th0Full, Th1, Shl4, MulB;
    Th0Linear(x, y); Th0FullLinear(x, y); Th1Linear(x, y);
    Shl4Linear(Th0Full(x), Th0Full(y));
    Right5Linear(Th0(x), Th0(y));
    Right2Linear(Right5(Th0(x)), Right5(Th0(y)));
    MulBLinear(Th1(x), Th1(y));
    var a, a', b, b' := Shl4(Th0Full(x)), Shl4(Th0Full(y)), Right5(Th0(x)), Right5(Th0(y));
    XorSwap(a, a', b, b');
    XorSwap(Xor(a, b), Xor(a', b'), Right2(b), Right2(b'));
    XorSwap(Xor(Xor(a, b), Right2(b)), Xor(Xor(a', b'), Right2(b')), MulB(Th1(x)), MulB(Th1(y)));
  }

  lemma NeonFoldLinear(x: Word, y: Word)
    ensures NeonFold(Xor(x, y)) == Xor(NeonFold(x), NeonFold(y))
  {
    hide Xor, Left8, Th0Full, FoldHigh, MulB;
    Th0FullLinear(x, y); FoldHighLinear(x, y);
    MulBLinear(Th0Full(x), Th0Full(y));
    Left8Linear(FoldHigh(x), FoldHigh(y));
    XorSwap(MulB(Th0Full(x)), MulB(Th0Full(y)), Left8(FoldHigh(x)), Left8(FoldHigh(y)));
  }

  lemma NeonValuesA()
    ensures NeonFold(Word(0x1)) == Word(0x100b)
    ensures NeonFold(Word(0x2)) == Word(0x2016)
    ensures NeonFold(Word(0x4)) == Word(0x402c)
    ensures NeonFold(Word(0x8)) == Word(0x8058)
    ensures NeonFold(Word(0x10)) == Word(0x10bb)
  {
  }

  lemma NeonValuesB()
    ensures NeonFold(Word(0x20)) == Word(0x2176)
    ensures NeonFold(Word(0x40)) == Word(0x42ec)
    ensures NeonFold(Word(0x80)) == Word(0x85d8)
    ensures NeonFold(Word(0x100)) == Word(0x1bbb)
    ensures NeonFold(Word(0x200)) == Word(0x3776)
  {
  }

  lemma NeonValuesC()
    ensures NeonFold(Word(0x400)) == Word(0x6eec)
    ensures NeonFold(Word(0x800)) == Word(0xddd8)
    ensures NeonFold(Word(0x1000)) == Word(0xabbb)
    ensures NeonFold(Word(0x2000)) == Word(0x477d)
    ensures NeonFold(Word(0x4000)) == Word(0x8efa)
  {
  }

  lemma NeonZero() ensures NeonFold(Zero) == Zero {}

  lemma {:induction false} NeonPrefix(w: Word, n: nat)
    requires n <= 15
    ensures NeonFold(Prefix(w, n)) == Shift(Prefix(w, n), 16)
    decreases n
  {
    hide Xor, NeonFold, Shift, Odd, HalfBy;
    ShiftOfZero(16);
    NeonZero();
    if n > 0 {
      NeonPrefix(w, n - 1);
      var p := Pick(Odd(HalfBy(w, n - 1)), Exp(n - 1));
      NeonFoldLinear(Prefix(w, n - 1), p);
      ShiftLinear(Prefix(w, n - 1), p, 16);
      PowerValues();
      NeonValuesA(); NeonValuesB(); NeonValuesC();
      ShiftAdd(One, n - 1, 16);
    }
  }

  /** The byte-wise steps do what the two Barrett multiplications do. */
  lemma NeonIsShift(h: Word)
    requires !C.TopBit(h)
    ensures NeonFold(h) == Shift(h, 16)
  {
    hide NeonFold, Shift, Prefix, C.TopBit;
    PrefixAll(h);
    NeonPrefix(h, 15);
  }

  // Karatsuba.

  /** A word made of two bytes. */
  function Join(b0: Word, b1: Word): Word { Xor(b0, Left8(b1)) }

  /** gf16_clmul_neon_reduction: the three accumulated products become one word. */
  function NeonReduction(low: Word, mid: Word, high: Word): Word {
    var libytes := Xor(Byte0(high), Byte1(low));
    var lobyte1 := Xor(libytes, Xor(Byte0(low), Byte0(mid)));
    var hibyte0 := Xor(libytes, Xor(Byte1(high), Byte1(mid)));
    Xor(Join(Byte0(low), lobyte1), NeonFold(Join(hibyte0, Byte1(high))))
  }

  lemma JoinParts(a: Word) ensures Xor(Byte0(a), Left8(Byte1(a))) == a {}

  lemma LeftByte(a: Word) ensures Left8(Byte0(a)) == Left8(a) {}

  lemma RightByte(a: Word) ensures Right8(Byte0(a)) == Zero {}

  lemma RightTop(a: Word) ensures !C.TopBit(Right8(a)) {}

  lemma TopXor(a: Word, b: Word)
    ensures C.TopBit(Xor(a, b)) == (C.TopBit(a) != C.TopBit(b))
  {
    hide Xor, Odd, HalfBy, C.TopBit;
    C.TopIsOdd(a); C.TopIsOdd(b); C.TopIsOdd(Xor(a, b));
    C.HalfByXor(a, b, 15);
    OddXor(HalfBy(a, 15), HalfBy(b, 15));
  }

  lemma EightBits(b: bv16) ensures (b >> 4) >> 4 == b >> 8 {}

  lemma HalfByEight(a: Word)
    ensures HalfBy(a, 8) == Right8(a)
  {
    hide Half, HalfBy;
    HalfByAdd(a, 4, 4);
    HalfByFour(a);
    HalfByFour(HalfBy(a, 4));
    EightBits(a.bits);
  }

  lemma Left8Values()
    ensures Left8(Word(1)) == Word(0x100) && Left8(Word(2)) == Word(0x200) && Left8(Word(4)) == Word(0x400)
    ensures Left8(Word(8)) == Word(0x800) && Left8(Word(0x10)) == Word(0x1000) && Left8(Word(0x20)) == Word(0x2000)
    ensures Left8(Word(0x40)) == Word(0x4000) && Left8(Word(0x80)) == Word(0x8000) && Left8(Zero) == Zero
  {
  }

  lemma {:induction false} Left8Prefix(w: Word, n: nat)
    requires n <= 8
    ensures Left8(Prefix(w, n)) == Shift(Prefix(w, n), 8)
    decreases n
  {
    hide Xor, Left8, Shift, Odd, HalfBy;
    ShiftOfZero(8);
    Left8Values();
    if n > 0 {
      Left8Prefix(w, n - 1);
      var p := Pick(Odd(HalfBy(w, n - 1)), Exp(n - 1));
      Left8Linear(Prefix(w, n - 1), p);
      ShiftLinear(Prefix(w, n - 1), p, 8);
      PowerValues();
      ShiftAdd(One, n - 1, 8);
    }
  }

  /** A byte is multiplied by x^8 without reduction. */
  lemma ShiftByte(a: Word)
    ensures Shift(Byte0(a), 8) == Left8(Byte0(a))
  {
    hide Xor, Left8, Shift, Right8, Byte0, HalfBy, Prefix;
    var b := Byte0(a);
    PrefixSplit(b, 8);
    HalfByEight(b);
    RightByte(a);
    ShiftOfZero(8);
    XorLaws(Prefix(b, 8), Zero);
    Left8Prefix(b, 8);
  }

  lemma RightIsByte(a: Word) ensures Byte0(Right8(a)) == Right8(a) {}

  /** Multiplying by x^8: the low byte moves up, the high byte is reduced. */
  lemma ShiftEight(m: Word)
    ensures Shift(m, 8) == Xor(Left8(m), Shift(Right8(m), 16))
  {
    hide Xor, Left8, Shift, Right8, Byte0;
    JoinParts(m);
    ShiftLinear(Byte0(m), Left8(Right8(m)), 8);
    ShiftByte(m);
    LeftByte(m);
    RightIsByte(m);
    ShiftByte(Right8(m));
    ShiftAdd(Right8(m), 8, 8);
  }

  /** The low half of the product that the three parts stand for. */
  lemma LowHalf(low: Word, mid: Word, high: Word)
    ensures var m := Xor(mid, Xor(low, high)); var libytes := Xor(Byte0(high), Byte1(low));
            Join(Byte0(low), Xor(libytes, Xor(Byte0(low), Byte0(mid)))) == Xor(low, Left8(m))
  {
    hide Xor, Left8, Right8, Byte0;
    var m := Xor(mid, Xor(low, high));
    var b := Xor(Byte0(high), Xor(Byte0(low), Byte0(mid)));
    Byte0Linear(mid, Xor(low, high)); Byte0Linear(low, high);
    Rearrange(Byte0(high), Byte1(low), Byte0(low), Byte0(mid));
    Left8Linear(Byte1(low), Byte0(m));
    LeftByte(m);
    JoinParts(low);
    XorAssoc(Byte0(low), Left8(Byte1(low)), Left8(m));
  }

  lemma Rearrange(h: Word, l1: Word, l0: Word, d: Word)
    ensures Xor(Xor(h, l1), Xor(l0, d)) == Xor(l1, Xor(d, Xor(l0, h)))
  {
    hide Xor;
    XorLaws(h, l1); XorLaws(l0, d); XorLaws(l0, h);
    XorAssoc(l1, h, Xor(d, l0));
    XorLaws(h, Xor(d, l0));
    XorAssoc(d, l0, h);
  }

  /** And the high half. */
  lemma HighHalf(low: Word, mid: Word, high: Word)
    ensures var m := Xor(mid, Xor(low, high)); var libytes := Xor(Byte0(high), Byte1(low));
            Join(Xor(libytes, Xor(Byte1(high), Byte1(mid))), Byte1(high)) == Xor(high, Right8(m))
  {
    hide Xor, Left8, Right8, Byte0;
    var m := Xor(mid, Xor(low, high));
    Right8Linear(mid, Xor(low, high)); Right8Linear(low, high);
    var h0, l1, h1, d := Byte0(high), Byte1(low), Byte1(high), Byte1(mid);
    var up := Left8(h1);
    XorAssoc(h0, l1, Xor(h1, d));
    RearrangeHigh(l1, h1, d);
    XorAssoc(h0, Right8(m), up);
    XorLaws(Right8(m), up);
    XorAssoc(h0, up, Right8(m));
    JoinParts(high);
  }

  lemma RearrangeHigh(l: Word, h: Word, d: Word)
    ensures Xor(l, Xor(h, d)) == Xor(d, Xor(l, h))
  {
    hide Xor;
    XorAssoc(l, h, d);
    XorLaws(Xor(l, h), d);
  }

  /** The reduction, in the field. */
  function Karatsuba(low: Word, mid: Word, high: Word): Word {
    Xor(low, Xor(Shift(Xor(mid, Xor(low, high)), 8), Shift(high, 16)))
  }

  lemma NeonIsKaratsuba(low: Word, mid: Word, high: Word)
    requires !C.TopBit(high)
    ensures NeonReduction(low, mid, high) == Karatsuba(low, mid, high)
  {
    hide Xor, Left8, Right8, Byte0, NeonFold, Shift, C.TopBit, Join;
    var m := Xor(mid, Xor(low, high));
    LowHalf(low, mid, high);
    HighHalf(low, mid, high);
    RightTop(m);
    TopXor(high, Right8(m));
    NeonIsShift(Xor(high, Right8(m)));
    ShiftLinear(high, Right8(m), 16);
    ShiftEight(m);
    var a, b, c := Left8(m), Shift(high, 16), Shift(Right8(m), 16);
    XorAssoc(low, a, Xor(b, c));
    XorLaws(b, c);
    XorAssoc(a, c, b);
  }

  // Byte products.

  /** A carry-less product: shift and add without reducing. */
  function PlainFrom(a: Word, b: Word, n: nat): Word
    decreases n
  {
    if n == 0 then Zero else Xor(Pick(Odd(b), a), PlainFrom(C.Up(a), Half(b), n - 1))
  }

  /** pmull of two bytes. */
  function Pmull(x: Word, y: Word): Word { PlainFrom(x, y, 8) }

  /** Nothing above bit n. */
  predicate Below(a: Word, n: nat) { HalfBy(a, n) == Zero }

  lemma BelowMore(a: Word, m: nat, n: nat)
    requires Below(a, m) && m <= n
    ensures Below(a, n)
  {
    hide Half, HalfBy;
    HalfByAdd(a, m, n - m);
    C.HalfByZero(n - m);
  }

  lemma BelowTop(a: Word)
    ensures Below(a, 15) <==> !C.TopBit(a)
  {
    hide Half, HalfBy, C.TopBit, Odd;
    C.TopIsOdd(a);
    C.TopEven();
    if !C.TopBit(a) {
      C.TopSplit(a);
      XorLaws(C.WithoutTop(a), Zero);
      C.WithoutTopGone(a);
    }
  }

  lemma UpIsDouble(a: Word)
    requires !C.TopBit(a)
    ensures C.Up(a) == Double(a)
  {
  }

  lemma BelowUp(a: Word, n: nat)
    requires Below(a, n) && n <= 15
    ensures Below(C.Up(a), n + 1) && !C.TopBit(a)
  {
    hide Half, HalfBy, C.TopBit, C.Up, C.WithoutTop;
    BelowMore(a, n, 15);
    BelowTop(a);
    C.UpThenHalf(a);
    C.TopSplit(a);
    XorLaws(C.WithoutTop(a), Zero);
    HalfByAdd(C.Up(a), 1, n);
    C.HalfByOne(C.Up(a));
  }

  lemma {:induction false} PlainIsField(a: Word, b: Word, n: nat)
    requires 1 <= n <= 16 && Below(a, 16 - n)
    ensures PlainFrom(a, b, n) == MulFrom(a, b, n)
    ensures Below(PlainFrom(a, b, n), 15)
    decreases n
  {
    hide Half, HalfBy, C.TopBit, C.Up, Odd, Xor, Double, Below;
    BelowUp(a, 16 - n);
    UpIsDouble(a);
    BelowMore(a, 16 - n, 15);
    BelowZero(15);
    if n > 1 {
      PlainIsField(C.Up(a), Half(b), n - 1);
    }
    BelowXor(Pick(Odd(b), a), PlainFrom(C.Up(a), Half(b), n - 1), 15);
  }

  lemma BelowZero(n: nat)
    ensures Below(Zero, n)
  {
    C.HalfByZero(n);
  }

  lemma BelowXor(a: Word, b: Word, n: nat)
    requires Below(a, n) && Below(b, n)
    ensures Below(Xor(a, b), n)
  {
    hide Xor, Half, HalfBy;
    C.HalfByXor(a, b, n);
    XorLaws(Zero, Zero);
  }

  lemma {:induction false} MulFromMore(a: Word, b: Word, n: nat, m: nat)
    requires Below(b, n)
    ensures MulFrom(a, b, n + m) == MulFrom(a, b, n)
    decreases n
  {
    hide Half, Odd, Xor, Double;
    if n == 0 {
      C.HalfByNone(b);
      assert b == Zero;
      MulFromZero(a, m);
    } else {
      assert HalfBy(b, n) == HalfBy(Half(b), n - 1);
      MulFromMore(Double(a), Half(b), n - 1, m);
    }
  }

  lemma {:induction false} MulFromZero(a: Word, m: nat)
    ensures MulFrom(a, Zero, m) == Zero
    decreases m
  {
    hide Half, Odd, Xor, Double;
    C.HalfOfZero();
    C.TopEven();
    XorLaws(Zero, Zero);
    if m > 0 { MulFromZero(Double(a), m - 1); }
  }

  /** The product of two bytes needs no reduction. */
  lemma PmullIsMul(x: Word, y: Word)
    requires Below(x, 8) && Below(y, 8)
    ensures Pmull(x, y) == Mul(x, y) && !C.TopBit(Pmull(x, y))
  {
    hide PlainFrom, MulFrom, C.TopBit;
    PlainIsField(x, y, 8);
    MulFromMore(x, y, 8, 8);
    BelowTop(Pmull(x, y));
  }

  // Sums of unreduced products.

  lemma ByteBelow(a: Word)
    ensures Below(Byte0(a), 8) && Below(Byte1(a), 8)
  {
    hide HalfBy, Byte0, Right8;
    HalfByEight(Byte0(a)); HalfByEight(Byte1(a));
    RightByte(a);
    RightIsByte(a);
    RightByte(Right8(a));
  }

  /** The three byte products of one source, and what they stand for. */
  lemma OneSource(a: Word, c: Word)
    ensures var low := Pmull(Byte0(a), Byte0(c)); var high := Pmull(Byte1(a), Byte1(c));
            var mid := Pmull(Xor(Byte0(a), Byte1(a)), Xor(Byte0(c), Byte1(c)));
            Karatsuba(low, mid, high) == Mul(c, a) && !C.TopBit(high)
  {
    hide Xor, Byte0, Right8, Pmull, Mul, Shift, Below, C.TopBit, Left8;
    var a0, a1, c0, c1 := Byte0(a), Byte1(a), Byte0(c), Byte1(c);
    ByteBelow(a); ByteBelow(c);
    BelowXor(a0, a1, 8); BelowXor(c0, c1, 8);
    PmullIsMul(a0, c0); PmullIsMul(a1, c1); PmullIsMul(Xor(a0, a1), Xor(c0, c1));
    ByteSplit(a); ByteSplit(c);
    MulComm(c, a);
    KaratsubaProduct(a0, a1, c0, c1);
  }

  lemma ByteSplit(a: Word)
    ensures a == Xor(Byte0(a), Shift(Byte1(a), 8))
  {
    hide Xor, Byte0, Right8, Shift, Left8;
    JoinParts(a);
    RightIsByte(a);
    ShiftByte(Right8(a));
  }

  /** Karatsuba's identity in the field. */
  lemma KaratsubaProduct(a0: Word, a1: Word, c0: Word, c1: Word)
    ensures Karatsuba(Mul(a0, c0), Mul(Xor(a0, a1), Xor(c0, c1)), Mul(a1, c1))
            == Mul(Xor(a0, Shift(a1, 8)), Xor(c0, Shift(c1, 8)))
  {
    hide Xor, Mul, Shift;
    var l, h, x, y := Mul(a0, c0), Mul(a1, c1), Mul(a0, c1), Mul(a1, c0);
    ProductOfSums(a0, a1, c0, c1);
    CrossTerms(l, x, y, h);
    ProductOfSums(a0, Shift(a1, 8), c0, Shift(c1, 8));
    ShiftMul(a0, c1, 8); ShiftMul(a1, c0, 8);
    ShiftMul(a1, Shift(c1, 8), 8); ShiftMul(a1, c1, 8);
    ShiftAdd(h, 8, 8);
    ShiftLinear(x, y, 8);
    var u, v, w := Shift(x, 8), Shift(y, 8), Shift(h, 16);
    XorAssoc(l, u, Xor(v, w));
    XorAssoc(u, v, w);
  }

  /** (a0 + a1)(c0 + c1) */
  lemma ProductOfSums(a0: Word, a1: Word, c0: Word, c1: Word)
    ensures Mul(Xor(a0, a1), Xor(c0, c1)) == Xor(Xor(Mul(a0, c0), Mul(a0, c1)), Xor(Mul(a1, c0), Mul(a1, c1)))
  {
    hide Xor, Mul;
    var s := Xor(c0, c1);
    MulLinear(a0, a1, s);
    MulComm(a0, s); MulComm(a1, s);
    MulLinear(c0, c1, a0); MulLinear(c0, c1, a1);
    MulComm(c0, a0); MulComm(c1, a0); MulComm(c0, a1); MulComm(c1, a1);
  }

  lemma CrossTerms(l: Word, x: Word, y: Word, h: Word)
    ensures Xor(Xor(Xor(l, x), Xor(y, h)), Xor(l, h)) == Xor(x, y)
  {
    hide Xor;
    XorSwap(Xor(l, x), Xor(y, h), l, h);
    XorLaws(Xor(l, x), l); XorLaws(l, x);
    XorLaws(Xor(y, h), h); XorLaws(h, y); XorLaws(y, h);
  }

  /** Reducing is linear in the three parts. */
  lemma KaratsubaLinear(l: Word, m: Word, h: Word, l': Word, m': Word, h': Word)
    ensures Karatsuba(Xor(l, l'), Xor(m, m'), Xor(h, h')) == Xor(Karatsuba(l, m, h), Karatsuba(l', m', h'))
  {
    hide Xor, Shift;
    XorSwap(l, l', h, h');
    XorSwap(m, m', Xor(l, h), Xor(l', h'));
    var a, a' := Xor(m, Xor(l, h)), Xor(m', Xor(l', h'));
    ShiftLinear(a, a', 8); ShiftLinear(h, h', 16);
    XorSwap(Shift(a, 8), Shift(a', 8), Shift(h, 16), Shift(h', 16));
    XorSwap(l, l', Xor(Shift(a, 8), Shift(h, 16)), Xor(Shift(a', 8), Shift(h', 16)));
  }

  /**
   gf16_clmul_muladd_x on one word of the destination: the byte products of all sources are added
   up unreduced, and reduced once.
   */
  method MuladdWord(dst: Word, srcs: seq<Word>, coefficients: seq<Word>) returns (r: Word)
    requires |srcs| == |coefficients|
    ensures r == Xor(CombineWords(coefficients, srcs), dst)
  {
    hide Xor, Pmull, Karatsuba, NeonReduction, C.TopBit, Byte0, Right8, Mul;
    var low, mid, high := Zero, Zero, Zero;
    var k := 0;
    KaratsubaZero();
    while k < |srcs|
      invariant 0 <= k <= |srcs| && !C.TopBit(high)
      invariant Karatsuba(low, mid, high) == CombineWords(coefficients[..k], srcs[..k])
    {
      var a, c := srcs[k], coefficients[k];
      var l, h := Pmull(Byte0(a), Byte0(c)), Pmull(Byte1(a), Byte1(c));
      var m := Pmull(Xor(Byte0(a), Byte1(a)), Xor(Byte0(c), Byte1(c)));
      OneSource(a, c);
      KaratsubaLinear(low, mid, high, l, m, h);
      TopXor(high, h);
      assert coefficients[..k + 1][..k] == coefficients[..k] && srcs[..k + 1][..k] == srcs[..k];
      low, mid, high := Xor(low, l), Xor(mid, m), Xor(high, h);
      k := k + 1;
    }
    assert coefficients[..k] == coefficients && srcs[..k] == srcs;
    NeonIsKaratsuba(low, mid, high);
    r := Xor(NeonReduction(low, mid, high), dst);
  }

  lemma KaratsubaZero()
    ensures Karatsuba(Zero, Zero, Zero) == Zero && !C.TopBit(Zero)
  {
    hide Xor, Shift;
    XorLaws(Zero, Zero);
    ShiftOfZero(8); ShiftOfZero(16);
  }

  // gf16_clmul_rvv_reduction: two 32-bit products to a register, reduced together.

  // Register shifts, and what they do to two elements of sixteen bits in thirty-two.

  function Up1(p: Reg): Reg { Reg(p.bits << 1) }
  function Up3(p: Reg): Reg { Reg(p.bits << 3) }
  function Up4(p: Reg): Reg { Reg(p.bits << 4) }
  function Up8(p: Reg): Reg { Reg(p.bits << 8) }
  function Up12(p: Reg): Reg { Reg(p.bits << 12) }
  function Up16(p: Reg): Reg { Reg(p.bits << 16) }
  function Up17(p: Reg): Reg { Reg(p.bits << 17) }
  function Up19(p: Reg): Reg { Reg(p.bits << 19) }
  function Up28(p: Reg): Reg { Reg(p.bits << 28) }

  /** vclmul by 0x1111a, low half. */
  function Clmul1111a(p: Reg): Reg {
    XorReg(XorReg(XorReg(Up1(p), Up3(p)), XorReg(Up4(p), Up8(p))), XorReg(Up12(p), Up16(p)))
  }

  /** vclmul by 0x100b, low half. */
  function Clmul100b(p: Reg): Reg { XorReg(XorReg(p, Up1(p)), XorReg(Up3(p), Up12(p))) }

  /** vclmul by 0x100b0000, low half. */
  function Clmul100b0000(p: Reg): Reg { XorReg(XorReg(Up16(p), Up17(p)), XorReg(Up19(p), Up28(p))) }

  /** vsrl by 16 on 32-bit elements. */
  function Srl16(p: Reg): Reg { Reg((p.bits >> 16) & 0x0000FFFF0000FFFF) }

  /** vsll by 16 on 64-bit elements. */
  function Sll16(p: Reg): Reg { Reg(p.bits << 16) }

  /** vmerge: odd 16-bit elements from q. */
  function Merge(p: Reg, q: Reg): Reg { Reg((p.bits & 0x0000FFFF0000FFFF) | (q.bits & 0xFFFF0000FFFF0000)) }

  function RvvReduction(ra: Reg, rb: Reg): Reg {
    var qa := Srl16(Clmul1111a(Srl16(ra)));
    var qb := Srl16(Clmul1111a(Srl16(rb)));
    XorReg(Merge(ra, Sll16(rb)), Merge(Clmul100b(qa), Clmul100b0000(qb)))
  }

  lemma Srl16Lane0(p: Reg) ensures Lane0(Srl16(p)) == Lane1(p) {}
  lemma Srl16Lane1(p: Reg) ensures Lane1(Srl16(p)) == Zero {}
  lemma Srl16Lane2(p: Reg) ensures Lane2(Srl16(p)) == Lane3(p) {}
  lemma Srl16Lane3(p: Reg) ensures Lane3(Srl16(p)) == Zero {}

  lemma Sll16Lane1(p: Reg) ensures Lane1(Sll16(p)) == Lane0(p) {}
  lemma Sll16Lane3(p: Reg) ensures Lane3(Sll16(p)) == Lane2(p) {}

  lemma MergeLane0(p: Reg, q: Reg) ensures Lane0(Merge(p, q)) == Lane0(p) {}
  lemma MergeLane1(p: Reg, q: Reg) ensures Lane1(Merge(p, q)) == Lane1(q) {}
  lemma MergeLane2(p: Reg, q: Reg) ensures Lane2(Merge(p, q)) == Lane2(p) {}
  lemma MergeLane3(p: Reg, q: Reg) ensures Lane3(Merge(p, q)) == Lane3(q) {}

  // A 32-bit element's bits stay within it: the other element contributes nothing.

  lemma Up1High1(a: Word, c: Word) ensures Lane1(Up1(Pack4(a, Zero, c, Zero))) == Right15(a) {}
  lemma Up1High3(a: Word, c: Word) ensures Lane3(Up1(Pack4(a, Zero, c, Zero))) == Right15(c) {}
  lemma Up3High1(a: Word, c: Word) ensures Lane1(Up3(Pack4(a, Zero, c, Zero))) == Right13(a) {}
  lemma Up3High3(a: Word, c: Word) ensures Lane3(Up3(Pack4(a, Zero, c, Zero))) == Right13(c) {}
  lemma Up4High1(a: Word, c: Word) ensures Lane1(Up4(Pack4(a, Zero, c, Zero))) == Right12(a) {}
  lemma Up4High3(a: Word, c: Word) ensures Lane3(Up4(Pack4(a, Zero, c, Zero))) == Right12(c) {}
  lemma Up8High1(a: Word, c: Word) ensures Lane1(Up8(Pack4(a, Zero, c, Zero))) == Right8(a) {}
  lemma Up8High3(a: Word, c: Word) ensures Lane3(Up8(Pack4(a, Zero, c, Zero))) == Right8(c) {}
  lemma Up12High1(a: Word, c: Word) ensures Lane1(Up12(Pack4(a, Zero, c, Zero))) == Right4(a) {}
  lemma Up12High3(a: Word, c: Word) ensures Lane3(Up12(Pack4(a, Zero, c, Zero))) == Right4(c) {}
  lemma Up16High1(a: Word, c: Word) ensures Lane1(Up16(Pack4(a, Zero, c, Zero))) == a {}
  lemma Up16High3(a: Word, c: Word) ensures Lane3(Up16(Pack4(a, Zero, c, Zero))) == c {}
  lemma Up1Low0(a: Word, c: Word) ensures Lane0(Up1(Pack4(a, Zero, c, Zero))) == Left1(a) {}
  lemma Up1Low2(a: Word, c: Word) ensures Lane2(Up1(Pack4(a, Zero, c, Zero))) == Left1(c) {}
  lemma Up3Low0(a: Word, c: Word) ensures Lane0(Up3(Pack4(a, Zero, c, Zero))) == Left3(a) {}
  lemma Up3Low2(a: Word, c: Word) ensures Lane2(Up3(Pack4(a, Zero, c, Zero))) == Left3(c) {}
  lemma Up12Low0(a: Word, c: Word) ensures Lane0(Up12(Pack4(a, Zero, c, Zero))) == Left12(a) {}
  lemma Up12Low2(a: Word, c: Word) ensures Lane2(Up12(Pack4(a, Zero, c, Zero))) == Left12(c) {}
  lemma Up17High1(a: Word, c: Word) ensures Lane1(Up17(Pack4(a, Zero, c, Zero))) == Left1(a) {}
  lemma Up17High3(a: Word, c: Word) ensures Lane3(Up17(Pack4(a, Zero, c, Zero))) == Left1(c) {}
  lemma Up19High1(a: Word, c: Word) ensures Lane1(Up19(Pack4(a, Zero, c, Zero))) == Left3(a) {}
  lemma Up19High3(a: Word, c: Word) ensures Lane3(Up19(Pack4(a, Zero, c, Zero))) == Left3(c) {}
  lemma Up28High1(a: Word, c: Word) ensures Lane1(Up28(Pack4(a, Zero, c, Zero))) == Left12(a) {}
  lemma Up28High3(a: Word, c: Word) ensures Lane3(Up28(Pack4(a, Zero, c, Zero))) == Left12(c) {}

  lemma QuotientLane(a: Word, c: Word)
    ensures Lane1(Clmul1111a(Pack4(a, Zero, c, Zero))) == Quotient(a)
    ensures Lane3(Clmul1111a(Pack4(a, Zero, c, Zero))) == Quotient(c)
  {
    hide Lane1, Lane3, Pack4, XorReg, Xor, Up1, Up3, Up4, Up8, Up12, Up16, Right4, Right8, Right12, Right13, Right15;
    var p := Pack4(a, Zero, c, Zero);
    Up1High1(a, c); Up3High1(a, c); Up4High1(a, c); Up8High1(a, c); Up12High1(a, c); Up16High1(a, c);
    Up1High3(a, c); Up3High3(a, c); Up4High3(a, c); Up8High3(a, c); Up12High3(a, c); Up16High3(a, c);
    var x, y, z := XorReg(Up1(p), Up3(p)), XorReg(Up4(p), Up8(p)), XorReg(Up12(p), Up16(p));
    XorLane1(Up1(p), Up3(p)); XorLane1(Up4(p), Up8(p)); XorLane1(Up12(p), Up16(p)); XorLane1(x, y); XorLane1(XorReg(x, y), z);
    XorLane3(Up1(p), Up3(p)); XorLane3(Up4(p), Up8(p)); XorLane3(Up12(p), Up16(p)); XorLane3(x, y); XorLane3(XorReg(x, y), z);
  }

  lemma FoldLane(a: Word, c: Word)
    ensures Lane0(Clmul100b(Pack4(a, Zero, c, Zero))) == Fold(a)
    ensures Lane2(Clmul100b(Pack4(a, Zero, c, Zero))) == Fold(c)
  {
    hide Lane0, Lane2, Pack4, XorReg, Xor, Up1, Up3, Up12, Left1, Left3, Left12;
    var p := Pack4(a, Zero, c, Zero);
    PackLane0(a, Zero, c, Zero); PackLane2(a, Zero, c, Zero);
    Up1Low0(a, c); Up3Low0(a, c); Up12Low0(a, c); Up1Low2(a, c); Up3Low2(a, c); Up12Low2(a, c);
    XorLane0(p, Up1(p)); XorLane0(Up3(p), Up12(p)); XorLane0(XorReg(p, Up1(p)), XorReg(Up3(p), Up12(p)));
    XorLane2(p, Up1(p)); XorLane2(Up3(p), Up12(p)); XorLane2(XorReg(p, Up1(p)), XorReg(Up3(p), Up12(p)));
  }

  lemma FoldUpLane(a: Word, c: Word)
    ensures Lane1(Clmul100b0000(Pack4(a, Zero, c, Zero))) == Fold(a)
    ensures Lane3(Clmul100b0000(Pack4(a, Zero, c, Zero))) == Fold(c)
  {
    hide Lane1, Lane3, Pack4, XorReg, Xor, Up16, Up17, Up19, Up28, Left1, Left3, Left12;
    var p := Pack4(a, Zero, c, Zero);
    Up16High1(a, c); Up17High1(a, c); Up19High1(a, c); Up28High1(a, c);
    Up16High3(a, c); Up17High3(a, c); Up19High3(a, c); Up28High3(a, c);
    XorLane1(Up16(p), Up17(p)); XorLane1(Up19(p), Up28(p)); XorLane1(XorReg(Up16(p), Up17(p)), XorReg(Up19(p), Up28(p)));
    XorLane3(Up16(p), Up17(p)); XorLane3(Up19(p), Up28(p)); XorLane3(XorReg(Up16(p), Up17(p)), XorReg(Up19(p), Up28(p)));
  }

  /** The quotients of a register's two products. */
  lemma QuotientLanes(r: Reg)
    ensures Srl16(Clmul1111a(Srl16(r))) == Pack4(Quotient(Lane1(r)), Zero, Quotient(Lane3(r)), Zero)
  {
    hide Srl16, Clmul1111a, Pack4, Quotient, Lane0, Lane1, Lane2, Lane3;
    var h := Srl16(r);
    Srl16Lane0(r); Srl16Lane1(r); Srl16Lane2(r); Srl16Lane3(r);
    LanesPack(h);
    var q := Clmul1111a(h);
    QuotientLane(Lane1(r), Lane3(r));
    Srl16Lane0(q); Srl16Lane1(q); Srl16Lane2(q); Srl16Lane3(q);
    LanesPack(Srl16(q));
  }

  /** A 32-bit product in a register, reduced. */
  function Reduced(lo: Word, hi: Word): Word { Xor(lo, Shift(hi, 16)) }

  /** Each of the four products is reduced on its own, and they come out in order. */
  lemma RvvIsReduction(ra: Reg, rb: Reg)
    requires !C.TopBit(Lane1(ra)) && !C.TopBit(Lane3(ra)) && !C.TopBit(Lane1(rb)) && !C.TopBit(Lane3(rb))
    ensures var r := RvvReduction(ra, rb);
            && Lane0(r) == Reduced(Lane0(ra), Lane1(ra)) && Lane1(r) == Reduced(Lane0(rb), Lane1(rb))
            && Lane2(r) == Reduced(Lane2(ra), Lane3(ra)) && Lane3(r) == Reduced(Lane2(rb), Lane3(rb))
  {
    hide Srl16, Sll16, Clmul1111a, Clmul100b, Clmul100b0000, Merge, XorReg, Pack4, Quotient, Fold, Lane0, Lane1, Lane2, Lane3, Xor, Shift, C.TopBit;
    QuotientLanes(ra); QuotientLanes(rb);
    var qa, qb := Srl16(Clmul1111a(Srl16(ra))), Srl16(Clmul1111a(Srl16(rb)));
    var a1, a3, b1, b3 := Quotient(Lane1(ra)), Quotient(Lane3(ra)), Quotient(Lane1(rb)), Quotient(Lane3(rb));
    FoldLane(a1, a3);
    FoldUpLane(b1, b3);
    BarrettIsShift(Lane1(ra)); BarrettIsShift(Lane3(ra)); BarrettIsShift(Lane1(rb)); BarrettIsShift(Lane3(rb));
    var p, q := Merge(ra, Sll16(rb)), Merge(Clmul100b(qa), Clmul100b0000(qb));
    MergeLane0(ra, Sll16(rb)); MergeLane1(ra, Sll16(rb)); MergeLane2(ra, Sll16(rb)); MergeLane3(ra, Sll16(rb));
    Sll16Lane1(rb); Sll16Lane3(rb);
    MergeLane0(Clmul100b(qa), Clmul100b0000(qb)); MergeLane1(Clmul100b(qa), Clmul100b0000(qb));
    MergeLane2(Clmul100b(qa), Clmul100b0000(qb)); MergeLane3(Clmul100b(qa), Clmul100b0000(qb));
    XorLane0(p, q); XorLane1(p, q); XorLane2(p, q); XorLane3(p, q);
  }

  // The 31-bit product of two words, as vclmul leaves it.

  datatype Product = Product(lo: Word, hi: Word)

  function Twice32(p: Product): Product {
    Product(C.Up(p.lo), Xor(C.Up(p.hi), Pick(C.TopBit(p.lo), One)))
  }

  /** Shift and add without reducing. */
  function ProductFrom(p: Product, b: Word, n: nat): Product
    decreases n
  {
    if n == 0 then Product(Zero, Zero)
    else
      var rest := ProductFrom(Twice32(p), Half(b), n - 1);
      Product(Xor(Pick(Odd(b), p.lo), rest.lo), Xor(Pick(Odd(b), p.hi), rest.hi))
  }

  lemma BelowOne(n: nat)
    requires n >= 1
    ensures Below(One, n)
  {
    hide Half, HalfBy;
    OneHalves();
    HalfByAdd(One, 1, n - 1);
    C.HalfByOne(One);
    C.HalfByZero(n - 1);
  }

  lemma OneHalves() ensures Half(One) == Zero {}

  /** Doubling a product and reducing commute, as long as nothing is lost at the top. */
  lemma TwiceReduced(p: Product, n: nat)
    requires n <= 15 && Below(p.hi, n)
    ensures var q := Twice32(p); Reduced(q.lo, q.hi) == Double(Reduced(p.lo, p.hi)) && Below(q.hi, n + 1)
  {
    hide Xor, Double, Shift, Below, C.Up, C.TopBit;
    BelowUp(p.hi, n);
    UpIsDouble(p.hi);
    BelowOne(n + 1);
    BelowZero(n + 1);
    var t := Pick(C.TopBit(p.lo), One);
    BelowXor(C.Up(p.hi), t, n + 1);
    DoubleLinear(p.lo, Shift(p.hi, 16));
    C.DoubleByTop(p.lo);
    ShiftLinear(C.Up(p.hi), t, 16);
    ShiftAdd(p.hi, 1, 16); ShiftAdd(p.hi, 16, 1);
    ShiftOnce(p.hi); ShiftOnce(Shift(p.hi, 16));
    ShiftOfZero(16);
    PowerValues();
    var u, x, y := C.Up(p.lo), Shift(C.Up(p.hi), 16), Shift(t, 16);
    XorLaws(x, y);
    XorAssoc(u, y, x);
  }

  lemma ShiftOnce(a: Word)
    ensures Shift(a, 1) == Double(a)
  {
    hide Double;
    ShiftZero(a);
  }

  lemma {:induction false} ProductReduced(p: Product, b: Word, n: nat)
    requires n <= 16 && Below(p.hi, 16 - n)
    ensures var r := ProductFrom(p, b, n);
            Reduced(r.lo, r.hi) == MulFrom(Reduced(p.lo, p.hi), b, n) && Below(r.hi, 15)
    decreases n
  {
    hide Xor, Double, Shift, Below, Half, Odd, Twice32;
    ShiftOfZero(16);
    BelowZero(15);
    XorLaws(Zero, Zero);
    if n > 0 {
      TwiceReduced(p, 16 - n);
      ProductReduced(Twice32(p), Half(b), n - 1);
      var rest := ProductFrom(Twice32(p), Half(b), n - 1);
      BelowMore(p.hi, 16 - n, 15);
      BelowXor(Pick(Odd(b), p.hi), rest.hi, 15);
      ShiftLinear(Pick(Odd(b), p.hi), rest.hi, 16);
      XorSwap(Pick(Odd(b), p.lo), rest.lo, Shift(Pick(Odd(b), p.hi), 16), Shift(rest.hi, 16));
    }
  }

  /** A carry-less product of two words, reduced once, is their field product. */
  lemma ProductIsMul(a: Word, b: Word)
    ensures var r := ProductFrom(Product(a, Zero), b, 16);
            Reduced(r.lo, r.hi) == Mul(a, b) && !C.TopBit(r.hi)
  {
    hide Xor, Shift, Below, ProductFrom, MulFrom, C.TopBit;
    C.HalfByNone(Zero);
    BelowStart();
    ProductReduced(Product(a, Zero), b, 16);
    ShiftOfZero(16);
    XorLaws(a, Zero);
    BelowTop(ProductFrom(Product(a, Zero), b, 16).hi);
  }

  lemma BelowStart() ensures Below(Zero, 0) {}

  /** So sums of products may be reduced together. */
  lemma ReducedLinear(lo: Word, hi: Word, lo': Word, hi': Word)
    ensures Reduced(Xor(lo, lo'), Xor(hi, hi')) == Xor(Reduced(lo, hi), Reduced(lo', hi'))
  {
    hide Xor, Shift;
    ShiftLinear(hi, hi', 16);
    XorSwap(lo, lo', Shift(hi, 16), Shift(hi', 16));
  }

  /** The unreduced products of several sources, XORed. */
  function SumOfProducts(cs: seq<Word>, ws: seq<Word>): Product
    requires |cs| == |ws|
  {
    if cs == [] then Product(Zero, Zero)
    else
      var n := |cs| - 1;
      var p, r := ProductFrom(Product(ws[n], Zero), cs[n], 16), SumOfProducts(cs[..n], ws[..n]);
      Product(Xor(r.lo, p.lo), Xor(r.hi, p.hi))
  }

  /** Reduced once, the sum is the combination in the field; and it stays within the 31 bits the reduction needs. */
  lemma {:induction false} SumReduced(cs: seq<Word>, ws: seq<Word>)
    requires |cs| == |ws|
    ensures var p := SumOfProducts(cs, ws); Reduced(p.lo, p.hi) == CombineWords(cs, ws) && !C.TopBit(p.hi)
  {
    hide Xor, Shift, C.TopBit, ProductFrom, Mul;
    ShiftOfZero(16);
    XorLaws(Zero, Zero);
    KaratsubaZero();
    if cs != [] {
      var n := |cs| - 1;
      var p, r := ProductFrom(Product(ws[n], Zero), cs[n], 16), SumOfProducts(cs[..n], ws[..n]);
      SumReduced(cs[..n], ws[..n]);
      ProductIsMul(ws[n], cs[n]);
      MulComm(ws[n], cs[n]);
      ReducedLinear(r.lo, r.hi, p.lo, p.hi);
      TopXor(r.hi, p.hi);
    }
  }
}
