/**
 The coefficient tables: exponents without their low three bits, corrections for those, and the
 logarithms of the input constants, which are the numbers prime to 65535.
 */
module Coefficients {
  import opened Arith
  import opened Field
  import opened FieldOrder
  import T = Lookup
  import C = ChecksumGeneric

  // Which logarithms are used.

  predicate Coprime(x: nat) { x % 3 != 0 && x % 5 != 0 && x % 17 != 0 && x % 257 != 0 }

  /** How many of 1 to n are. */
  function Coprimes(n: nat): nat { if n == 0 then 0 else Coprimes(n - 1) + if Coprime(n) then 1 else 0 }

  /** The numbers up to n that 3 does not divide; then those that 5, 17 and 257 do not divide either. */
  function NotBy3(n: nat): int { n - n / 3 }

  function NotBy5(n: nat): int { NotBy3(n) - NotBy3(n / 5) }

  function NotBy17(n: nat): int { NotBy5(n) - NotBy5(n / 17) }

  function NotBy257(n: nat): int { NotBy17(n) - NotBy17(n / 257) }

  lemma Step3(n: nat)
    ensures NotBy3(n + 1) == NotBy3(n) + if (n + 1) % 3 != 0 then 1 else 0
  {
  }

  lemma Quotient(n: nat, d: Positive)
    ensures 0 <= n / d
    ensures if (n + 1) % d == 0 then n / d == (n + 1) / d - 1 else n / d == (n + 1) / d
  {
    DivMod(n, d);
    Carry(n, d, n / d, n % d);
  }

  lemma Carry(n: nat, d: Positive, q: nat, r: nat)
    requires n == q * d + r && r < d
    ensures if r + 1 == d then (n + 1) / d == q + 1 && (n + 1) % d == 0 else (n + 1) / d == q && (n + 1) % d == r + 1
  {
    Distribute(q, 1, d);
    if r + 1 == d { DivUnique(n + 1, d, q + 1, 0); } else { DivUnique(n + 1, d, q, r + 1); }
  }

  /** A factor that leaves 2 does not change whether an odd number divides. */
  lemma TwiceModulo(c: nat, k: nat, d: Positive, m: nat)
    requires c == k * d + 2 && d % 2 == 1 && d > 1
    ensures 0 <= c * m && ((c * m) % d != 0 <==> m % d != 0)
  {
    DivMod(m, d);
    var q, r := m / d, m % d;
    MulLe(0, c, m);
    Distribute(k * d, 2, m);
    Assoc3(k, d, m); Assoc3(k, m, d);
    Distribute(k * m, 2 * q, d);
    Assoc3(2, q, d);
    assert c * m == (k * m + 2 * q) * d + 2 * r;
    if 2 * r < d {
      DivUnique(c * m, d, k * m + 2 * q, 2 * r);
    } else {
      Distribute(k * m + 2 * q, 1, d);
      DivUnique(c * m, d, k * m + 2 * q + 1, 2 * r - d);
    }
  }

  lemma ExactQuotient(n: nat, d: Positive)
    requires (n + 1) % d == 0
    ensures n + 1 == d * ((n + 1) / d) && (n + 1) / d > 0
  {
    DivMod(n + 1, d);
  }

  predicate Prime3(x: nat) { x % 3 != 0 }

  predicate Prime15(x: nat) { Prime3(x) && x % 5 != 0 }

  predicate Prime255(x: nat) { Prime15(x) && x % 17 != 0 }

  lemma Step5(n: nat)
    ensures NotBy5(n + 1) == NotBy5(n) + if Prime15(n + 1) then 1 else 0
  {
    hide NotBy3;
    Quotient(n, 5);
    Step3(n);
    if (n + 1) % 5 == 0 {
      ExactQuotient(n, 5);
      TwiceModulo(5, 1, 3, (n + 1) / 5);
      Step3((n + 1) / 5 - 1);
    }
  }

  lemma Step17(n: nat)
    ensures NotBy17(n + 1) == NotBy17(n) + if Prime255(n + 1) then 1 else 0
  {
    hide NotBy5, Prime15;
    Quotient(n, 17);
    Step5(n);
    if (n + 1) % 17 == 0 {
      ExactQuotient(n, 17);
      Same15(17, (n + 1) / 17);
      Step5((n + 1) / 17 - 1);
    }
  }

  lemma Same15(d: nat, m: nat)
    requires d == 17
    ensures Prime15(d * m) <==> Prime15(m)
  {
    TwiceModulo(17, 5, 3, m); TwiceModulo(17, 3, 5, m);
  }

  lemma Same255(d: nat, m: nat)
    requires d == 257
    ensures Prime255(d * m) <==> Prime255(m)
  {
    TwiceModulo(257, 85, 3, m); TwiceModulo(257, 51, 5, m); TwiceModulo(257, 15, 17, m);
  }

  lemma Step257(n: nat)
    ensures NotBy257(n + 1) == NotBy257(n) + if Coprime(n + 1) then 1 else 0
  {
    hide NotBy17, Prime255;
    Quotient(n, 257);
    Step17(n);
    Same(n + 1);
    if (n + 1) % 257 == 0 {
      ExactQuotient(n, 257);
      Same255(257, (n + 1) / 257);
      Step17((n + 1) / 257 - 1);
    }
  }

  lemma Same(x: nat) ensures Coprime(x) <==> Prime255(x) && x % 257 != 0 {}

  lemma {:induction false} CoprimesCounted(n: nat)
    ensures Coprimes(n) == NotBy257(n)
  {
    hide NotBy257, Coprime;
    if n == 0 {
      assert NotBy257(0) == 0 by { NoneAtZero(); }
    } else {
      CoprimesCounted(n - 1);
      Step257(n - 1);
    }
  }

  lemma NoneAtZero() ensures NotBy257(0) == 0 {}

  /** There are 32768 below 65535, and the last is 65534. */
  lemma CoprimesBelow()
    ensures Coprimes(65534) == 32768 && Coprimes(65533) == 32767
  {
    CoprimesCounted(65534);
    CoprimesCounted(65533);
  }

  lemma {:induction false} CoprimesOrder(m: nat, n: nat)
    requires m <= n
    ensures Coprimes(m) <= Coprimes(n)
    decreases n
  {
    hide Coprime;
    if m < n { CoprimesOrder(m, n - 1); }
  }

  /** Half of all numbers, nearly: the differences kept fit a signed byte. */
  lemma NearlyHalf(n: nat)
    requires n <= 65534
    ensures -128 < n - 2 * Coprimes(n) < 126
  {
    CoprimesCounted(n);
    hide NotBy17;
    Bounds17(n);
    Bounds17(n / 257);
  }

  lemma Bounds17(n: nat)
    ensures 128 * n - 255 * 8 <= 255 * NotBy17(n) <= 128 * n + 255 * 8
  {
  }

  /** x is input i's logarithm. */
  predicate IsLog(x: int, i: nat) { 0 < x <= 65534 && Coprime(x) && Coprimes(x) == i + 1 }

  /** There is only one. */
  lemma OnlyLog(x: nat, y: nat, i: nat)
    requires IsLog(x, i) && IsLog(y, i)
    ensures x == y
  {
    hide Coprime;
    if x < y { CoprimesOrder(x, y - 1); }
    if y < x { CoprimesOrder(y, x - 1); }
  }

  // A 32-bit register, as a number above and a word below.

  datatype Wide = Wide(high: nat, low: Word)

  function Left(r: Wide): Wide { Wide(2 * r.high + if C.TopBit(r.low) then 1 else 0, C.Up(r.low)) }

  function LeftBy(r: Wide, n: nat): Wide { if n == 0 then r else Left(LeftBy(r, n - 1)) }

  lemma ExpSixteen()
    ensures Exp(16) == Word(0x100B)
  {
    hide Double;
    PowerValues();
    ExpStep(15);
    DoubleTop();
  }

  lemma DoubleTop() ensures Double(Word(0x8000)) == Word(0x100B) {}

  /** Shifting the register left is doubling, once what went over the top is folded back. */
  lemma LeftDoubles(r: Wide)
    ensures var r' := Left(r);
            Xor(r'.low, Shift(T.FromNat(r'.high), 16)) == Double(Xor(r.low, Shift(T.FromNat(r.high), 16)))
  {
    hide Double, Xor, C.TopBit, C.Up, T.FromNat, Shift;
    var r', bit := Left(r), Pick(C.TopBit(r.low), One);
    var f := T.FromNat(r.high);
    T.FromNatStep(r'.high);
    assert T.FromNat(r'.high) == Xor(Double(f), bit);
    ShiftLinear(Double(f), bit, 16);
    ShiftCommutes(f);
    ExpSixteen();
    ShiftOfZero(16);
    C.DoubleByTop(r.low);
    DoubleLinear(r.low, Shift(f, 16));
    var poly := Pick(C.TopBit(r.low), Word(0x100B));
    XorFour(C.Up(r.low), poly, Shift(Double(f), 16));
  }

  lemma XorFour(a: Word, p: Word, b: Word)
    ensures Xor(a, Xor(b, p)) == Xor(Xor(a, p), b)
  {
  }

  lemma ShiftCommutes(f: Word)
    ensures Shift(Double(f), 16) == Double(Shift(f, 16))
  {
    hide Double;
    ShiftAdd(f, 1, 16); ShiftAdd(f, 16, 1);
    T.ShiftSmall(f); T.ShiftSmall(Shift(f, 16));
  }

  lemma {:induction false} LeftByDoubles(w: Word, n: nat)
    ensures var r := LeftBy(Wide(0, w), n);
            r.high < PowerOfTwo(n) && Xor(r.low, Shift(T.FromNat(r.high), 16)) == Shift(w, n)
  {
    hide Double, Xor, T.FromNat, Left;
    if n == 0 {
      T.FromNatZero();
      ShiftOfZero(16);
      XorLaws(w, Zero);
    } else {
      LeftByDoubles(w, n - 1);
      LeftDoubles(LeftBy(Wide(0, w), n - 1));
      LeftBound(LeftBy(Wide(0, w), n - 1));
    }
  }

  lemma LeftBound(r: Wide) ensures Left(r).high <= 2 * r.high + 1 {}

  /** Bits moved up, as long as none is lost, are doublings. */
  lemma FromNatTwice(t: nat)
    ensures T.FromNat(2 * t) == Double(T.FromNat(t))
  {
    hide Double, Xor;
    T.FromNatStep(2 * t);
    XorLaws(Double(T.FromNat(t)), Zero);
  }

  lemma FromNatUp(t: nat)
    ensures T.FromNat(512 * t) == Shift(T.FromNat(t), 9)
  {
    hide Double, T.FromNat;
    FromNatTwice(t); FromNatTwice(2 * t); FromNatTwice(4 * t); FromNatTwice(8 * t); FromNatTwice(16 * t);
    FromNatTwice(32 * t); FromNatTwice(64 * t); FromNatTwice(128 * t); FromNatTwice(256 * t);
    ShiftNine(T.FromNat(t));
  }

  lemma ShiftNine(f: Word)
    ensures Shift(f, 9) == Double(Double(Double(Double(Double(Double(Double(Double(Double(f)))))))))
  {
    hide Double;
    var a := Shift(f, 3);
    assert Shift(f, 1) == Double(f) && Shift(f, 2) == Double(Shift(f, 1)) && a == Double(Shift(f, 2));
    assert Shift(f, 4) == Double(a) && Shift(f, 5) == Double(Shift(f, 4)) && Shift(f, 6) == Double(Shift(f, 5));
    assert Shift(f, 7) == Double(Shift(f, 6)) && Shift(f, 8) == Double(Shift(f, 7));
  }

  // The tables.

  class Tables {
    const inputDiff: array<int>
    const gfExp: array<Word>

    ghost predicate Valid()
      reads inputDiff, gfExp
    {
      && inputDiff.Length == 32768 && gfExp.Length == 8192 + 128
      && (forall i :: 0 <= i < 32768 ==> IsLog(2 * i + inputDiff[i], i) && -128 <= inputDiff[i] <= 127)
      && Exponents(gfExp[..], 8192) && Corrections(gfExp[..], 128)
    }

    /**
     gfmat_init: the inner loop runs to the next number prime to 65535, so that the outer one ends
     at 65534 with every exponent that is kept in its place.
     */
    constructor ()
      ensures Valid() && fresh(inputDiff) && fresh(gfExp)
    {
      inputDiff := new int[32768];
      gfExp := new Word[8192 + 128];
      new;
      hide Coprime, Coprimes, Double, Shift;
      var exp: nat, n := 0, One;
      CoprimesBelow();
      CoprimesStart();
      var i := 0;
      while i < 32768
        invariant 0 <= i <= 32768 && exp <= 65534 && n == Exp(exp) && Coprimes(exp) == i
        invariant Exponents(gfExp[..], (exp + 7) / 8)
        invariant forall h :: 0 <= h < i ==> IsLog(2 * h + inputDiff[h], h) && -128 <= inputDiff[h] <= 127
        modifies inputDiff, gfExp
      {
        exp, n := NextLog(exp, n, i);
        NearlyHalf(exp);
        inputDiff[i] := exp - i * 2;
        i := i + 1;
      }
      AtLast(exp);
      FillCorrections();
    }

    /** On to the next logarithm that is used, keeping the exponents on the way. */
    method NextLog(exp0: nat, n0: Word, ghost i: nat) returns (exp: nat, n: Word)
      requires gfExp.Length == 8192 + 128 && n0 == Exp(exp0) && Coprimes(exp0) == i < 32768 && Exponents(gfExp[..], (exp0 + 7) / 8)
      modifies gfExp
      ensures n == Exp(exp) && IsLog(exp, i) && Exponents(gfExp[..], (exp + 7) / 8)
    {
      hide Coprime, Coprimes, Double, Shift;
      exp, n := exp0, n0;
      BelowLast(exp, i);
      var again := true;
      while again
        invariant exp <= 65534 && n == Exp(exp) && Exponents(gfExp[..], (exp + 7) / 8)
        invariant if again then Coprimes(exp) == i else Coprime(exp) && Coprimes(exp) == i + 1 && exp > 0
        decreases again, 65534 - exp
      {
        BelowLast(exp, i);
        if exp % 8 == 0 { gfExp[exp / 8] := n; }
        ExpStep(exp);
        CoprimesNext(exp);
        exp := exp + 1;
        n := Double(n);
        again := exp % 3 == 0 || exp % 5 == 0 || exp % 17 == 0 || exp % 257 == 0;
        CoprimeMeans(exp);
      }
    }

    method FillCorrections()
      requires gfExp.Length == 8192 + 128 && Exponents(gfExp[..], 8192)
      modifies gfExp
      ensures Exponents(gfExp[..], 8192) && Corrections(gfExp[..], 128)
    {
      hide Double, Shift, T.FromNat;
      var i := 0;
      while i < 128
        invariant 0 <= i <= 128 && Exponents(gfExp[..], 8192) && Corrections(gfExp[..], i)
      {
        var n := T.FromNat(i * 512);
        FromNatUp(i);
        var j := 0;
        while j < 7
          invariant 0 <= j <= 7 && n == Shift(T.FromNat(i), 9 + j)
          modifies {}
        {
          T.ShiftNext(T.FromNat(i), 9 + j);
          n := Double(n);
          j := j + 1;
        }
        gfExp[8192 + i] := n;
        i := i + 1;
      }
    }

    /** gf16_exp: one look-up for the exponent's upper bits, and one that folds back what its low three bits shift out. */
    method Gf16Exp(v: nat) returns (w: Word)
      requires Valid() && v <= 65535
      ensures w == Exp(v)
    {
      hide Shift, LeftBy, T.FromNat, Coprime, Coprimes;
      var result := LeftBy(Wide(0, gfExp[v / 8]), v % 8);
      LeftByDoubles(gfExp[v / 8], v % 8);
      assert PowerOfTwo(7) == 128;
      T.PowerOrder(v % 8, 7);
      ShiftAdd(One, 8 * (v / 8), v % 8);
      w := Xor(result.low, gfExp[8192 + result.high]);
    }

    method InputLog(inputBlock: nat) returns (log: nat)
      requires Valid() && inputBlock < 32768
      ensures IsLog(log, inputBlock)
    {
      log := inputBlock * 2 + inputDiff[inputBlock];
    }

    /** gfmat_coeff: the input's constant to the power of the recovery block's exponent. */
    method Coeff(inputBlock: nat, recoveryBlock: nat) returns (w: Word)
      requires Valid() && inputBlock < 32768 && recoveryBlock <= 65535
      ensures exists log: nat :: IsLog(log, inputBlock) && w == T.Power(Exp(log), recoveryBlock)
    {
      hide Shift, T.Power, Coprime, Coprimes;
      var inputLog := InputLog(inputBlock);
      CoeffLogModulo(inputLog, recoveryBlock);
      w := Gf16Exp(CoeffLog(inputLog, recoveryBlock));
      SameExponent(CoeffLog(inputLog, recoveryBlock), inputLog * recoveryBlock);
      ExpPower(inputLog, recoveryBlock);
    }
  }

  /** The first n exponents kept. */
  predicate Exponents(t: seq<Word>, n: nat) { n <= |t| && forall k :: 0 <= k < n ==> t[k] == Exp(8 * k) }

  /** The first n corrections: what the bits above sixteen stand for. */
  predicate Corrections(t: seq<Word>, n: nat) {
    8192 + n <= |t| && forall i :: 0 <= i < n ==> t[8192 + i] == Shift(T.FromNat(i), 16)
  }

  lemma CoprimesStart() ensures Coprimes(0) == 0 {}

  lemma CoprimesNext(n: nat) ensures Coprimes(n + 1) == Coprimes(n) + if Coprime(n + 1) then 1 else 0 {}

  lemma CoprimeMeans(x: nat)
    ensures Coprime(x) <==> !(x % 3 == 0 || x % 5 == 0 || x % 17 == 0 || x % 257 == 0)
  {
  }

  /** While fewer than 32768 have been passed, 65534 has not been reached. */
  lemma BelowLast(exp: nat, i: nat)
    requires Coprimes(exp) == i < 32768
    ensures exp < 65534
  {
    hide Coprimes;
    CoprimesBelow();
    if exp >= 65534 { CoprimesOrder(65534, exp); }
  }

  lemma AtLast(exp: nat)
    requires Coprimes(exp) == 32768 && exp <= 65534
    ensures exp == 65534
  {
    hide Coprimes;
    CoprimesBelow();
    if exp < 65534 { CoprimesOrder(exp, 65533); }
  }

  // Coefficients.

  /** gfmat_coeff_log: the product reduced by adding its halves, cut to 16 bits. */
  function CoeffLog(inputLog: nat, recoveryBlock: nat): nat {
    FoldHalves(inputLog * recoveryBlock)
  }

  function FoldHalves(x: nat): nat {
    var r := x / 65536 + x % 65536;
    (r + r / 65536) % 65536
  }

  lemma FoldModulo(x: nat)
    requires x < 65536 * 65535
    ensures FoldHalves(x) <= 65535 && FoldHalves(x) % 65535 == x % 65535
  {
    var h, l := x / 65536, x % 65536;
    assert x == 65535 * h + (h + l);
    var r := h + l;
    assert r % 65535 == x % 65535;
    assert if r < 65536 then FoldHalves(x) == r else FoldHalves(x) == r - 65535;
  }

  lemma CoeffLogModulo(inputLog: nat, recoveryBlock: nat)
    requires inputLog <= 65534 && recoveryBlock <= 65535
    ensures 0 <= inputLog * recoveryBlock
    ensures CoeffLog(inputLog, recoveryBlock) <= 65535
    ensures CoeffLog(inputLog, recoveryBlock) % 65535 == (inputLog * recoveryBlock) % 65535
  {
    hide FoldHalves;
    MulLe(inputLog, 65534, recoveryBlock);
    FoldModulo(inputLog * recoveryBlock);
  }

  lemma SameExponent(m: nat, n: nat)
    requires m % 65535 == n % 65535
    ensures Exp(m) == Exp(n)
  {
    hide Shift;
    ShiftModulo(One, m);
    ShiftModulo(One, n);
  }

  lemma {:induction false} ExpPower(m: nat, n: nat)
    ensures 0 <= m * n && Exp(m * n) == T.Power(Exp(m), n)
    decreases n
  {
    hide Shift, Mul;
    if n == 0 {
      ExpStep(0);
    } else {
      ExpPower(m, n - 1);
      ProductNext(m, n);
      ExpAdd(m, m * (n - 1));
    }
  }

  lemma ProductNext(m: nat, n: nat)
    requires n > 0
    ensures m * n == m + m * (n - 1)
  {
  }

  // What a logarithm prime to 65535 is good for.

  /** A prime that divides a product divides one of its factors. */
  lemma {:induction false} PrimeFactor(p: nat, a: nat, b: nat)
    requires Prime(p) && 0 < a < p && 0 <= a * b && (a * b) % p == 0
    ensures b % p == 0
    decreases a
  {
    if a > 1 {
      var q, r := p / a, p % a;
      assert r != 0;
      RestDivides(p, a, b, q, r);
      PrimeFactor(p, r, b);
    }
  }

  lemma RestDivides(p: Positive, a: nat, b: nat, q: nat, r: nat)
    requires p == q * a + r && 0 <= a * b && (a * b) % p == 0
    ensures 0 <= r * b && (r * b) % p == 0
  {
    var k := a * b / p;
    MulLe(0, r, b);
    Distribute(q * a, r, b);
    Assoc3(q, a, b);
    assert a * b == k * p by { DivMod(a * b, p); }
    Assoc3(q, k, p);
    Distribute(b, -(q * k), p);
    MultipleOf(b - q * k, p, r * b);
  }

  lemma MultipleOf(k: int, p: Positive, x: nat)
    requires x == k * p
    ensures x % p == 0
  {
    DivUnique(x, p, k, 0);
  }

  /** A prime factor of 65535 that divides the product divides the exponent. */
  lemma FactorDivides(p: nat, log: nat, n: nat)
    requires p > 1 && Prime(p) && log % p != 0 && 0 <= log * n && (log * n) % p == 0
    ensures n % p == 0
  {
    var q, r := log / p, log % p;
    DivMod(log, p);
    assert log == q * p + r;
    var k := log * n / p;
    DivMod(log * n, p);
    MulLe(0, r, n);
    Distribute(q * p, r, n);
    Assoc3(q, p, n);
    Assoc3(q, n, p);
    Distribute(k, -(q * n), p);
    MultipleOf(k - q * n, p, r * n);
    PrimeFactor(p, r, n);
  }

  /** Every input's constant has the full order, so that its powers for up to 65535 recovery blocks differ. */
  lemma FullOrder(log: nat, i: nat, n: nat)
    requires IsLog(log, i)
    ensures T.Power(Exp(log), n) == One <==> n % 65535 == 0
  {
    hide Shift, T.Power, Coprimes, Prime;
    ExpPower(log, n);
    ExactOrder(log * n);
    if (log * n) % 65535 == 0 {
      Divided(log * n);
      SmallPrimes();
      Prime257();
      FactorDivides(3, log, n);
      FactorDivides(5, log, n);
      FactorDivides(17, log, n);
      FactorDivides(257, log, n);
      Factors(n);
    }
    if n % 65535 == 0 {
      DivMod(n, 65535);
      Assoc3(log, n / 65535, 65535);
      MultipleOf(log * (n / 65535), 65535, log * n);
    }
  }

  lemma Divided(x: nat)
    requires x % 65535 == 0
    ensures x % 3 == 0 && x % 5 == 0 && x % 17 == 0 && x % 257 == 0
  {
    DivMod(x, 65535);
    var k := x / 65535;
    DivUnique(x, 3, 21845 * k, 0); DivUnique(x, 5, 13107 * k, 0); DivUnique(x, 17, 3855 * k, 0); DivUnique(x, 257, 255 * k, 0);
  }
}
