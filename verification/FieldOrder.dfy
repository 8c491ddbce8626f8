/**
 The exact order of the generator: two to the n is one exactly when 65535 divides n.  So checksums
 wound by different amounts differ, unless the amounts are equal modulo 65535 or nothing is wound.
 */
module FieldOrder {
  import opened Arith
  import opened Field
  import opened Blocks
  import K = Clmul

  lemma PowerValues()
    ensures Exp(10) == Word(0x0400) && Exp(12) == Word(0x1000) && Exp(15) == Word(0x8000)
  {
    hide Shift;
    K.PowerValues();
  }

  lemma ExpSquare(n: nat, c: bv16, d: bv16)
    requires Exp(n) == Word(c) && SquareBits(c) == d
    ensures Exp(2 * n) == Word(d)
  {
    hide Shift, SquareBits, Square, SquareTerms;
    SquareExp(n);
    SquareIsTerms(Word(c));
    SquareTermsBits(Word(c));
  }

  lemma DoubleOf(c: bv16, d: bv16)
    requires (c << 1) ^ (0x100B & (0 - (c >> 15))) == d
    ensures Double(Word(c)) == Word(d)
  {
  }

  lemma ThirdSquares()
    ensures SquareBits(0x0400) == 0x10BB && SquareBits(0x2176) == 0x6BF3
    ensures SquareBits(0x6BF3) == 0x8299 && SquareBits(0x1539) == 0x1E4A
    ensures SquareBits(0x1E4A) == 0x1984 && SquareBits(0x3308) == 0x2530
  {
  }

  lemma ThirdSquaresMore()
    ensures SquareBits(0x2530) == 0x6B5C && SquareBits(0xD6B8) == 0x2B2D
    ensures SquareBits(0x2B2D) == 0x7876 && SquareBits(0xF0EC) == 0x0446
    ensures SquareBits(0x0446) == 0x00AF
  {
  }

  lemma ThirdPower()
    ensures Exp(21845) == Word(0x015E)
  {
    hide Shift, SquareBits, Double;
    PowerValues();
    ThirdSquares(); ThirdSquaresMore();
    ExpSquare(10, 0x0400, 0x10BB); ExpStep(20); DoubleOf(0x10BB, 0x2176);
    ExpSquare(21, 0x2176, 0x6BF3);
    ExpSquare(42, 0x6BF3, 0x8299); ExpStep(84); DoubleOf(0x8299, 0x1539);
    ExpSquare(85, 0x1539, 0x1E4A);
    ExpSquare(170, 0x1E4A, 0x1984); ExpStep(340); DoubleOf(0x1984, 0x3308);
    ExpSquare(341, 0x3308, 0x2530);
    ExpSquare(682, 0x2530, 0x6B5C); ExpStep(1364); DoubleOf(0x6B5C, 0xD6B8);
    ExpSquare(1365, 0xD6B8, 0x2B2D);
    ExpSquare(2730, 0x2B2D, 0x7876); ExpStep(5460); DoubleOf(0x7876, 0xF0EC);
    ExpSquare(5461, 0xF0EC, 0x0446);
    ExpSquare(10922, 0x0446, 0x00AF); ExpStep(21844); DoubleOf(0x00AF, 0x015E);
  }

  lemma FifthSquares()
    ensures SquareBits(0x1000) == 0x1BBB && SquareBits(0x3776) == 0x20DF
    ensures SquareBits(0x41BE) == 0xFEE4 && SquareBits(0xFEE4) == 0x167D
    ensures SquareBits(0x167D) == 0x5E7D && SquareBits(0xBCFA) == 0xFCBE
  {
  }

  lemma FifthSquaresMore()
    ensures SquareBits(0xE977) == 0x0C5F && SquareBits(0x0C5F) == 0x4302
    ensures SquareBits(0x4302) == 0xFB98 && SquareBits(0xE73B) == 0x0E74
  {
  }

  lemma FifthPower()
    ensures Exp(13107) == Word(0x1CE8)
  {
    hide Shift, SquareBits, Double;
    PowerValues();
    FifthSquares(); FifthSquaresMore();
    ExpSquare(12, 0x1000, 0x1BBB); ExpStep(24); DoubleOf(0x1BBB, 0x3776);
    ExpSquare(25, 0x3776, 0x20DF); ExpStep(50); DoubleOf(0x20DF, 0x41BE);
    ExpSquare(51, 0x41BE, 0xFEE4);
    ExpSquare(102, 0xFEE4, 0x167D);
    ExpSquare(204, 0x167D, 0x5E7D); ExpStep(408); DoubleOf(0x5E7D, 0xBCFA);
    ExpSquare(409, 0xBCFA, 0xFCBE); ExpStep(818); DoubleOf(0xFCBE, 0xE977);
    ExpSquare(819, 0xE977, 0x0C5F);
    ExpSquare(1638, 0x0C5F, 0x4302);
    ExpSquare(3276, 0x4302, 0xFB98); ExpStep(6552); DoubleOf(0xFB98, 0xE73B);
    ExpSquare(6553, 0xE73B, 0x0E74); ExpStep(13106); DoubleOf(0x0E74, 0x1CE8);
  }

  lemma SeventeenthSquares()
    ensures SquareBits(0x8000) == 0x8EFA && SquareBits(0x8EFA) == 0xC9C5
    ensures SquareBits(0xC9C5) == 0x27B7 && SquareBits(0x27B7) == 0x6B65
  {
  }

  lemma SeventeenthSquaresMore()
    ensures SquareBits(0x6B65) == 0xC38D && SquareBits(0x9711) == 0xD4DC
    ensures SquareBits(0xB9B3) == 0xEC4F && SquareBits(0xC895) == 0x26BC
  {
  }

  lemma SeventeenthPower()
    ensures Exp(3855) == Word(0x4D78)
  {
    hide Shift, SquareBits, Double;
    PowerValues();
    SeventeenthSquares(); SeventeenthSquaresMore();
    ExpSquare(15, 0x8000, 0x8EFA);
    ExpSquare(30, 0x8EFA, 0xC9C5);
    ExpSquare(60, 0xC9C5, 0x27B7);
    ExpSquare(120, 0x27B7, 0x6B65);
    ExpSquare(240, 0x6B65, 0xC38D); ExpStep(480); DoubleOf(0xC38D, 0x9711);
    ExpSquare(481, 0x9711, 0xD4DC); ExpStep(962); DoubleOf(0xD4DC, 0xB9B3);
    ExpSquare(963, 0xB9B3, 0xEC4F); ExpStep(1926); DoubleOf(0xEC4F, 0xC895);
    ExpSquare(1927, 0xC895, 0x26BC); ExpStep(3854); DoubleOf(0x26BC, 0x4D78);
  }

  /** Exp(256) is not two, so Exp(255) is not one. */
  lemma ByteNotOne()
    ensures Exp(255) != One
  {
    hide Shift, Double, Square, Frobenius;
    FrobeniusExp(8);
    assert PowerOfTwo(4) == 16 && PowerOfTwo(8) == 256;
    ByteSquares();
    ExpStep(255);
    DoubleConstants();
  }

  lemma ByteSquares()
    ensures Frobenius(Two, 8) == Word(0x0B2F)
  {
    hide Square;
    SquaresOfTwo();
    assert Frobenius(Two, 4) == Word(0x100B);
  }

  // From the prime factors of 65535 to all exponents.

  lemma ExpAdd(m: nat, n: nat)
    ensures Exp(m + n) == Mul(Exp(m), Exp(n))
  {
    hide Shift, Mul;
    ShiftAdd(One, m, n);
    MulExp(Exp(m), n);
  }

  lemma {:induction false} ExpMultiple(m: nat, k: nat)
    requires Exp(m) == One
    ensures Exp(m * k) == One
    decreases k
  {
    hide Shift, Mul;
    if k == 0 {
      ExpStep(0);
    } else {
      ExpMultiple(m, k - 1);
      ExpAdd(m * (k - 1), m);
      assert m * (k - 1) + m == m * k;
      MulOne(One);
    }
  }

  lemma ExpDifference(m: nat, n: nat)
    requires Exp(m + n) == One == Exp(m)
    ensures Exp(n) == One
  {
    hide Shift, Mul;
    ExpAdd(m, n);
    MulOne(Exp(n));
  }

  predicate Prime(p: nat) { forall j :: 1 < j < p ==> p % j != 0 }

  /** Powers of a word of prime order are one only at multiples of the prime. */
  lemma {:induction false} PrimeOrder(q: nat, p: nat, j: nat)
    requires Prime(p) && 0 < j < p && Exp(q * p) == One == Exp(q * j)
    ensures Exp(q) == One
    decreases j
  {
    hide Shift;
    if j > 1 {
      var k := p % j;
      var m := p / j;
      assert p == j * m + k;
      ExpMultiple(q * j, m);
      assert q * j * m + q * k == q * p by { assert q * (j * m + k) == q * (j * m) + q * k; assert q * j * m == q * (j * m); }
      ExpDifference(q * j * m, q * k);
      PrimeOrder(q, p, k);
    } else {
      assert q * 1 == q;
    }
  }

  lemma SmallPrimes()
    ensures Prime(3) && Prime(5) && Prime(17)
  {
  }

  lemma Prime257()
    ensures Prime(257)
  {
    forall j | 1 < j < 257 ensures 257 % j != 0 {
      if 257 % j == 0 {
        var m := 257 / j;
        assert 257 == j * m;
        if j > 16 && m > 16 { TooLarge(j, m); }
        NoFactor(if j <= 16 then j else m, if j <= 16 then m else j);
      }
    }
  }

  lemma TooLarge(a: int, b: int)
    requires a > 16 && b > 16
    ensures a * b >= 289
  {
    MulLe(17, a, b);
  }

  lemma NoFactor(a: int, b: int)
    requires a * b == 257 && 1 < b && 1 <= a <= 16
    ensures a == 1
  {
    assert a * b == (if a == 2 then 2 * b else if a == 3 then 3 * b else if a == 4 then 4 * b else if a == 5 then 5 * b
      else if a == 6 then 6 * b else if a == 7 then 7 * b else if a == 8 then 8 * b else if a == 9 then 9 * b
      else if a == 10 then 10 * b else if a == 11 then 11 * b else if a == 12 then 12 * b else if a == 13 then 13 * b
      else if a == 14 then 14 * b else if a == 15 then 15 * b else if a == 16 then 16 * b else b);
  }

  /** One prime factor p, with cofactor q: an exponent that gives one is a multiple of p. */
  lemma PrimeDivides(p: nat, q: nat, n: nat)
    requires p > 1 && Prime(p) && p * q == 65535 && Exp(q) != One && Exp(n) == One
    ensures n % p == 0
  {
    hide Shift;
    var j, m := n % p, n / p;
    if j != 0 {
      ExpOrder();
      ExpMultiple(n, q);
      ExpMultiple(65535, m);
      assert n * q == 65535 * m + q * j by {
        assert n == m * p + j;
        assert (m * p + j) * q == m * p * q + j * q;
        assert m * p * q == m * (p * q) == m * 65535;
      }
      ExpDifference(65535 * m, q * j);
      assert q * p == 65535;
      PrimeOrder(q, p, j);
    }
  }

  lemma Modulo3(a: nat) requires 257 * a % 3 == 0 ensures a % 3 == 0 {}
  lemma Modulo5(a: nat) requires 257 * a % 5 == 0 ensures a % 5 == 0 {}
  lemma Modulo17(a: nat) requires 257 * a % 17 == 0 ensures a % 17 == 0 {}

  lemma Modulo15(a: nat) requires a % 3 == 0 && a % 5 == 0 ensures a == 15 * (a / 15) {}
  lemma Seventeen(b: nat) requires 15 * b % 17 == 0 ensures b == 17 * (b / 17) {}

  lemma Modulo255(a: nat)
    requires a % 3 == 0 && a % 5 == 0 && a % 17 == 0
    ensures a % 255 == 0
  {
    Modulo15(a);
    var b := a / 15;
    assert 15 * b % 17 == 0;
    Seventeen(b);
    var c := b / 17;
    assert a == 255 * c;
  }

  lemma Multiple(a: nat)
    requires a % 255 == 0
    ensures 257 * a % 65535 == 0
  {
    var b := a / 255;
    assert a == 255 * b;
  }

  lemma Quotient257(n: nat)
    requires n % 257 == 0
    ensures n == 257 * (n / 257)
  {
  }

  lemma Factors(n: nat)
    requires n % 3 == 0 && n % 5 == 0 && n % 17 == 0 && n % 257 == 0
    ensures n % 65535 == 0
  {
    var a := n / 257;
    Quotient257(n);
    Modulo3(a); Modulo5(a); Modulo17(a);
    Modulo255(a);
    Multiple(a);
  }

  /** The generator has order 65535: no smaller positive power of it is one. */
  lemma ExactOrder(n: nat)
    ensures Exp(n) == One <==> n % 65535 == 0
  {
    hide Shift, Prime;
    if Exp(n) == One {
      SmallPrimes();
      Prime257();
      ThirdPower(); FifthPower(); SeventeenthPower(); ByteNotOne();
      PrimeDivides(3, 21845, n);
      PrimeDivides(5, 13107, n);
      PrimeDivides(17, 3855, n);
      PrimeDivides(257, 255, n);
      Factors(n);
    }
    if n % 65535 == 0 {
      ExpOrder();
      ExpMultiple(65535, n / 65535);
    }
  }

  // Words and blocks.

  lemma ShiftFixed(a: Word, n: nat)
    ensures Shift(a, n) == a <==> n % 65535 == 0 || a == Zero
  {
    hide Shift, Mul, Xor;
    ExactOrder(n);
    MulExp(a, n);
    MulOne(a);
    XorLaws(a, a);
    XorLaws(Exp(n), One);
    MulLinear(Exp(n), One, a);
    NoZeroDivisors(Xor(Exp(n), One), a);
    XorZero(Mul(Exp(n), a), a);
    XorZero(Exp(n), One);
  }

  lemma XorZero(a: Word, b: Word)
    ensures Xor(a, b) == Zero <==> a == b
  {
  }

  /** Exchanging two different blocks is noticed unless 65535 divides their distance. */
  lemma SwapNoticed(c: Block, bs: seq<Block>, i: nat, j: nat)
    requires i < j < |bs| && bs[i] != bs[j]
    ensures Checksum(c, bs[i := bs[j]][j := bs[i]]) == Checksum(c, bs) <==> (j - i) % 65535 == 0
  {
    hide Add, Wind, Checksum;
    var swapped := bs[i := bs[j]][j := bs[i]];
    ChecksumMisses(c, swapped, bs, i, j);
    AddLaws(bs[i], bs[j]);
    AddZeroIff(bs[i], bs[j]);
    WindFixed(Add(bs[j], bs[i]), j - i);
  }

  /** A checksum is the same after n steps over zeroes exactly when 65535 divides n or it is zero. */
  lemma WindFixed(b: Block, n: nat)
    ensures Wind(b, n) == b <==> n % 65535 == 0 || b == ZeroBlock()
  {
    hide Wind, Shift;
    forall i | 0 <= i < LANES ensures Wind(b, n)[i] == b[i] <==> n % 65535 == 0 || b[i] == Zero {
      WindLane(b, n, i);
      ShiftFixed(b[i], n);
    }
    if b == ZeroBlock() { assert forall i :: 0 <= i < LANES ==> b[i] == Zero; }
  }
}
