/**
 The generic checksum: as many words as fit in a register of the machine, all handled at once.
 */
module ChecksumGeneric {
  import opened Arith
  import opened Field
  import opened Swar
  import B = Bytes

  // The bits of a coefficient, from the top.

  /** coeff <<= 1 on sixteen bits. */
  function Up(b: Word): Word { Word(b.bits << 1) }

  predicate TopBit(b: Word) { b.bits >> 15 == 1 }

  function UpBy(b: Word, n: nat): Word
    decreases n
  {
    if n == 0 then b else UpBy(Up(b), n - 1)
  }

  function WithoutTop(b: Word): Word { Word(b.bits & 0x7FFF) }

  lemma DoubleByTop(a: Word) ensures Double(a) == Xor(Up(a), Pick(TopBit(a), Word(0x100B))) {}

  lemma UpThenHalf(b: Word) ensures Half(Up(b)) == WithoutTop(b) {}

  lemma TopSplit(b: Word) ensures b == Xor(WithoutTop(b), Pick(TopBit(b), Word(0x8000))) {}

  lemma UpByNext(b: Word, n: nat)
    ensures UpBy(b, n + 1) == Up(UpBy(b, n))
    decreases n
  {
    hide Up;
    if n > 0 { UpByNext(Up(b), n - 1); }
  }

  lemma {:induction false} HalfByXor(a: Word, b: Word, n: nat)
    ensures HalfBy(Xor(a, b), n) == Xor(HalfBy(a, n), HalfBy(b, n))
    decreases n
  {
    hide Half, Xor;
    if n > 0 {
      HalfXor(a, b);
      HalfByXor(Half(a), Half(b), n - 1);
    }
  }

  lemma TopHalves()
    ensures Half(Word(0x8000)) == Word(0x4000) && Half(Word(0x4000)) == Word(0x2000) && Half(Word(0x2000)) == Word(0x1000)
    ensures Half(Word(0x1000)) == Word(0x800) && Half(Word(0x800)) == Word(0x400) && Half(Word(0x400)) == Word(0x200)
    ensures Half(Word(0x200)) == Word(0x100) && Half(Word(0x100)) == Word(0x80) && Half(Word(0x80)) == Word(0x40)
    ensures Half(Word(0x40)) == Word(0x20) && Half(Word(0x20)) == Word(0x10) && Half(Word(0x10)) == Word(8)
    ensures Half(Word(8)) == Word(4) && Half(Word(4)) == Word(2) && Half(Word(2)) == One
  {
  }

  lemma TopEven()
    ensures !Odd(Word(0x8000)) && !Odd(Word(0x4000)) && !Odd(Word(0x2000)) && !Odd(Word(0x1000))
    ensures !Odd(Word(0x800)) && !Odd(Word(0x400)) && !Odd(Word(0x200)) && !Odd(Word(0x100))
    ensures !Odd(Word(0x80)) && !Odd(Word(0x40)) && !Odd(Word(0x20)) && !Odd(Word(0x10))
    ensures !Odd(Word(8)) && !Odd(Word(4)) && !Odd(Word(2)) && Odd(One) && !Odd(Zero)
  {
  }

  /** The top bit takes fifteen halvings to come down. */
  lemma {:induction false} TopFalls(b: Word, n: nat, j: nat)
    requires j <= n < 15
    requires b == (if n == 14 then Word(0x8000) else if n == 13 then Word(0x4000) else if n == 12 then Word(0x2000)
                   else if n == 11 then Word(0x1000) else if n == 10 then Word(0x800) else if n == 9 then Word(0x400)
                   else if n == 8 then Word(0x200) else if n == 7 then Word(0x100) else if n == 6 then Word(0x80)
                   else if n == 5 then Word(0x40) else if n == 4 then Word(0x20) else if n == 3 then Word(0x10)
                   else if n == 2 then Word(8) else if n == 1 then Word(4) else Word(2))
    ensures !Odd(HalfBy(b, j))
    decreases j
  {
    hide Half, Odd;
    TopHalves();
    TopEven();
    if j > 0 { TopFalls(Half(b), n - 1, j - 1); }
  }

  lemma {:induction false} HalfByZero(n: nat)
    ensures HalfBy(Zero, n) == Zero
    decreases n
  {
    hide Half;
    assert Half(Zero) == Zero by { HalfOfZero(); }
    if n > 0 { HalfByZero(n - 1); }
  }

  lemma HalfOfZero() ensures Half(Zero) == Zero {}

  /** The bits below the top are not affected by it. */
  lemma BelowTop(b: Word, j: nat)
    requires j < 15
    ensures Odd(HalfBy(WithoutTop(b), j)) == Odd(HalfBy(b, j))
  {
    hide Half, Odd, Xor, HalfBy, WithoutTop, TopBit;
    TopSplit(b);
    var t := Pick(TopBit(b), Word(0x8000));
    HalfByXor(WithoutTop(b), t, j);
    OddXor(HalfBy(WithoutTop(b), j), HalfBy(t, j));
    TopFalls(Word(0x8000), 14, j);
    HalfByZero(j);
    TopEven();
  }

  lemma TopIsOdd(b: Word)
    ensures TopBit(b) == Odd(HalfBy(b, 15))
  {
    hide Half, Odd, Xor, HalfBy, WithoutTop, TopBit;
    TopSplit(b);
    var t := Pick(TopBit(b), Word(0x8000));
    HalfByXor(WithoutTop(b), t, 15);
    OddXor(HalfBy(WithoutTop(b), 15), HalfBy(t, 15));
    WithoutTopGone(b);
    TopDown();
    HalfByZero(15);
    TopEven();
  }

  lemma WithoutTopGone(b: Word)
    ensures HalfBy(WithoutTop(b), 15) == Zero
  {
    hide Half, HalfBy, Up, WithoutTop;
    UpThenHalf(b);
    HalfByAdd(Up(b), 1, 15);
    HalfBySixteen(Up(b));
    HalfByOne(Up(b));
  }

  lemma HalfByOne(b: Word)
    ensures HalfBy(b, 1) == Half(b)
  {
    hide Half;
  }

  lemma TopDown()
    ensures HalfBy(Word(0x8000), 15) == One
  {
    hide Half, HalfBy;
    TopHalves();
    HalfByFive(Word(0x8000), Word(0x4000), Word(0x2000), Word(0x1000), Word(0x800), Word(0x400));
    HalfByFive(Word(0x400), Word(0x200), Word(0x100), Word(0x80), Word(0x40), Word(0x20));
    HalfByFive(Word(0x20), Word(0x10), Word(8), Word(4), Word(2), One);
    HalfByAdd(Word(0x8000), 5, 10);
    HalfByAdd(Word(0x400), 5, 5);
  }

  lemma HalfByFive(a: Word, b: Word, c: Word, d: Word, e: Word, f: Word)
    requires Half(a) == b && Half(b) == c && Half(c) == d && Half(d) == e && Half(e) == f
    ensures HalfBy(a, 5) == f
  {
    hide Half;
    assert HalfBy(a, 5) == HalfBy(b, 4) == HalfBy(c, 3) == HalfBy(d, 2) == HalfBy(e, 1) == HalfBy(f, 0);
  }

  /** After n shifts the top bit is bit 15 - n of the coefficient. */
  lemma {:induction false} TopAfter(b: Word, n: nat)
    requires n <= 15
    ensures TopBit(UpBy(b, n)) == Odd(HalfBy(b, 15 - n))
    decreases n
  {
    hide Half, Odd, Up, WithoutTop, TopBit;
    if n == 0 {
      TopIsOdd(b);
    } else {
      TopAfter(Up(b), n - 1);
      UpThenHalf(b);
      assert HalfBy(Up(b), 16 - n) == HalfBy(WithoutTop(b), 15 - n);
      BelowTop(b, 15 - n);
    }
  }

  // The functions.

  /** -(coeff >> 15) & checksum, in the register's width. */
  function Select(c: Word, r: Register): (s: Register)
    ensures WidthOf(s) == WidthOf(r)
  {
    match r
    case Quad(p) => Quad(Reg(if TopBit(c) then p.bits else 0))
    case Pair(p) => Pair(Reg32(if TopBit(c) then p.bits else 0))
    case Single(w) => Single(Word(if TopBit(c) then w.bits else 0))
  }

  lemma SelectLane(c: Word, r: Register, k: nat)
    requires k < Stride(WidthOf(r))
    ensures LaneOf(Select(c, r), k) == Pick(TopBit(c), LaneOf(r, k))
  {
    hide TopBit;
    LaneOfZero();
  }

  lemma LaneOfZero()
    ensures Lane0(Reg(0)) == Lane1(Reg(0)) == Lane2(Reg(0)) == Lane3(Reg(0)) == Zero == Low(Reg32(0)) == High(Reg32(0))
  {
  }

  /** One more bit of the coefficient: what Horner's rule adds. */
  lemma OneMoreBit(c: Word, x: Word, j: nat)
    ensures Mul(HalfBy(c, j), x) == Xor(Double(Mul(HalfBy(c, j + 1), x)), Pick(Odd(HalfBy(c, j)), x))
  {
    hide Half, Odd, Xor, Double, Mul;
    var h := HalfBy(c, j);
    HalfByAdd(c, j, 1);
    OddHalf(h);
    MulLinear(Pick(Odd(h), One), Double(Half(h)), x);
    MulDouble(x, Half(h));
    MulComm(Double(Half(h)), x); MulComm(Half(h), x);
    MulComm(Pick(Odd(h), One), x);
    MulOne(x); MulZero(x);
    XorLaws(Pick(Odd(h), x), Double(Mul(Half(h), x)));
  }

  /** gf16_checksum_exp_generic: every word of the checksum is multiplied by the coefficient. */
  method ChecksumExp(checksum: Register, exp: Word) returns (res: Register)
    ensures WidthOf(res) == WidthOf(checksum)
    ensures forall k: nat :: k < Stride(WidthOf(checksum)) ==> LaneOf(res, k) == Mul(exp, LaneOf(checksum, k))
  {
    hide LaneOf, Select, XorOf, MultiMul2, Mul, Up, Half, Odd, TopBit, Double, Xor, HalfBy, Stride, WidthOf;
    var coeff := exp;
    res := Select(coeff, checksum);
    FirstBit(exp, checksum);
    var i := 0;
    while i < 15
      invariant 0 <= i <= 15 && coeff == UpBy(exp, i) && WidthOf(res) == WidthOf(checksum)
      invariant forall k: nat :: k < Stride(WidthOf(checksum)) ==> LaneOf(res, k) == Mul(HalfBy(exp, 15 - i), LaneOf(checksum, k))
    {
      ghost var before := res;
      res := MultiMul2(res);
      UpByNext(exp, i);
      coeff := Up(coeff);
      var selected := Select(coeff, checksum);
      TopAfter(exp, i + 1);
      forall k: nat | k < Stride(WidthOf(checksum))
        ensures LaneOf(XorOf(res, selected), k) == Mul(HalfBy(exp, 14 - i), LaneOf(checksum, k))
      {
        MultiMul2Lanes(before, k);
        SelectLane(coeff, checksum, k);
        XorLanes(res, selected, k);
        OneMoreBit(exp, LaneOf(checksum, k), 14 - i);
      }
      res := XorOf(res, selected);
      i := i + 1;
    }
    HalfByNone(exp);
  }

  lemma HalfByNone(c: Word)
    ensures HalfBy(c, 0) == c
  {
  }

  lemma FirstBit(c: Word, r: Register)
    ensures forall k: nat :: k < Stride(WidthOf(r)) ==> LaneOf(Select(c, r), k) == Mul(HalfBy(c, 15), LaneOf(r, k))
  {
    hide LaneOf, Select, Mul, Half, Odd, TopBit, Double, Xor, HalfBy, Stride, WidthOf;
    TopIsOdd(c);
    HalfBySixteen(c);
    forall k: nat | k < Stride(WidthOf(r)) ensures LaneOf(Select(c, r), k) == Mul(HalfBy(c, 15), LaneOf(r, k)) {
      var x := LaneOf(r, k);
      SelectLane(c, r, k);
      OneMoreBit(c, x, 15);
      MulZero(x);
      MulComm(Zero, x);
      DoubleConstants();
      XorLaws(Zero, Pick(Odd(HalfBy(c, 15)), x));
      XorLaws(Pick(Odd(HalfBy(c, 15)), x), Zero);
    }
  }

  /** gf16_checksum_block_generic: one step of the checksum, on every word. */
  lemma ChecksumBlock(checksum: Register, data: Register, k: nat)
    requires WidthOf(data) == WidthOf(checksum) && k < Stride(WidthOf(checksum))
    ensures LaneOf(XorOf(MultiMul2(checksum), data), k) == Xor(Double(LaneOf(checksum, k)), LaneOf(data, k))
  {
    hide LaneOf, XorOf, MultiMul2, Double, Xor, Stride, WidthOf;
    XorLanes(MultiMul2(checksum), data, k);
    MultiMul2Lanes(checksum, k);
  }

  // A whole block, which may be longer than the register.

  /** A register of the source from word w on, zero past its end. */
  function Read(m: Machine, src: seq<B.Byte>, w: nat): (r: Register)
    ensures WidthOf(r) == m
  {
    match m
    case Wide64 => Quad(Pack4(B.WordAt(src, w), B.WordAt(src, w + 1), B.WordAt(src, w + 2), B.WordAt(src, w + 3)))
    case Wide32 => Pair(Pack2(B.WordAt(src, w), B.WordAt(src, w + 1)))
    case Wide16 => Single(B.WordAt(src, w))
  }

  function Nothing(m: Machine): (r: Register)
    ensures WidthOf(r) == m
  {
    match m case Wide64 => Quad(Reg(0)) case Wide32 => Pair(Reg32(0)) case Wide16 => Single(Zero)
  }

  /** The first n of the words that fall to lane k of so many. */
  function Folded(src: seq<B.Byte>, stride: Positive, k: nat, n: nat): Word {
    if n == 0 then Zero
    else
      TimesOrder(0, n - 1, stride); TimesNext(0, stride);
      Xor(Folded(src, stride, k, n - 1), B.WordAt(src, Times(n - 1, stride) + k))
  }

  /**
   What folding is, with FoldedNone: changing one word changes its lane by as much, and no other lane.
   */
  lemma {:induction false} FoldedChange(src: seq<B.Byte>, src': seq<B.Byte>, stride: Positive, i: nat, j: nat, k: nat, n: nat)
    requires j < stride && k < stride && 0 <= Times(i, stride) + j
    requires forall w: nat :: w != Times(i, stride) + j ==> B.WordAt(src', w) == B.WordAt(src, w)
    ensures var w := Times(i, stride) + j;
            Folded(src', stride, k, n) ==
              if k == j && i < n then Xor(Folded(src, stride, k, n), Xor(B.WordAt(src, w), B.WordAt(src', w)))
              else Folded(src, stride, k, n)
    decreases n
  {
    hide Xor, B.WordAt, Times;
    if n > 0 {
      FoldedChange(src, src', stride, i, j, k, n - 1);
      TimesOrder(0, n - 1, stride);
      TimesNext(0, stride);
      TimesOrder(i, n - 1, stride);
      TimesOrder(n - 1, i, stride);
      var w := Times(n - 1, stride) + k;
      var before, change := Folded(src, stride, k, n - 1), Xor(B.WordAt(src, Times(i, stride) + j), B.WordAt(src', Times(i, stride) + j));
      XorAssoc(before, change, B.WordAt(src, w));
      XorAssoc(before, B.WordAt(src, w), change);
      XorLaws(change, B.WordAt(src, w));
      XorLaws(B.WordAt(src, w), B.WordAt(src', w));
    }
  }

  lemma {:induction false} FoldedNone(src: seq<B.Byte>, stride: Positive, k: nat, n: nat)
    requires forall w: nat :: B.WordAt(src, w) == Zero
    ensures Folded(src, stride, k, n) == Zero
    decreases n
  {
    hide Xor, B.WordAt, Times;
    XorLaws(Zero, Zero);
    if n > 0 {
      FoldedNone(src, stride, k, n - 1);
      TimesOrder(0, n - 1, stride);
      TimesNext(0, stride);
    }
  }

  lemma ReadLanes(m: Machine, src: seq<B.Byte>, w: nat, k: nat)
    requires k < Stride(m)
    ensures LaneOf(Read(m, src, w), k) == B.WordAt(src, w + k)
  {
    hide Lane0, Lane1, Lane2, Lane3, Low, High, Pack4, Pack2, B.WordAt;
    var a, b, c, d := B.WordAt(src, w), B.WordAt(src, w + 1), B.WordAt(src, w + 2), B.WordAt(src, w + 3);
    PackLane0(a, b, c, d); PackLane1(a, b, c, d); PackLane2(a, b, c, d); PackLane3(a, b, c, d);
    PackLow(a, b); PackHigh(a, b);
  }

  /** Every lane of a register holds what has been folded into it. */
  ghost predicate Holds(m: Machine, data: Register, src: seq<B.Byte>, n: nat) {
    WidthOf(data) == m && forall k: nat :: k < Stride(m) ==> LaneOf(data, k) == Folded(src, Stride(m), k, n)
  }

  /**
   gf16_checksum_blocku_generic: a block of any number of bytes is folded into the register, its
   last bytes as if zero-filled, and each lane makes one step.
   */
  method ChecksumBlocku(m: Machine, src: seq<B.Byte>, checksum: Register) returns (r: Register)
    requires WidthOf(checksum) == m
    ensures WidthOf(r) == m
    ensures forall k: nat :: k < Stride(m) ==>
              LaneOf(r, k) == Xor(Double(LaneOf(checksum, k)), Folded(src, Stride(m), k, Units(|src|, 2 * Stride(m))))
  {
    hide LaneOf, XorOf, MultiMul2, Double, Xor, Read, Folded, Holds, Stride, WidthOf, Times, Units;
    var stride := Stride(m);
    var data, w: int := Nothing(m), 0;
    HoldsNothing(m, src);
    var remaining := |src| % (2 * stride);
    var amount := |src| - remaining;
    ghost var q, n: int := |src| / (2 * stride), 0;
    WholeUnits(|src|, stride);
    while amount > 0
      invariant 0 <= n <= q && w == Times(n, stride) && amount == 2 * (Times(q, stride) - w) && 0 <= w
      invariant Holds(m, data, src, n) && WidthOf(data) == m
    {
      FoldNext(m, src, data, n);
      TimesNext(n, stride);
      data := XorOf(data, Read(m, src, w));
      amount := amount - 2 * stride;
      w := w + stride;
      n := n + 1;
      TimesOrder(n, q, stride);
    }
    TimesOrder(n + 1, q, stride);
    TimesNext(n, stride);
    if remaining > 0 {
      FoldNext(m, src, data, n);
      data := XorOf(data, Read(m, src, w));
      n := n + 1;
    }
    r := XorOf(MultiMul2(checksum), data);
    HoldsMeans(m, data, src, n);
    forall k: nat | k < Stride(m) ensures LaneOf(r, k) == Xor(Double(LaneOf(checksum, k)), Folded(src, Stride(m), k, n)) {
      ChecksumBlock(checksum, data, k);
    }
  }

  /** How many units of so many bytes it takes to hold len bytes. */
  function Units(len: nat, unit: Positive): nat {
    DivMod(len, unit);
    len / unit + if len % unit > 0 then 1 else 0
  }

  lemma WholeUnits(len: nat, stride: Positive)
    ensures var q, r := len / (2 * stride), len % (2 * stride);
            0 <= q && 0 <= r && len - r == 2 * Times(q, stride) && Times(0, stride) == 0 && 0 <= Times(q, stride)
    ensures Units(len, 2 * stride) == len / (2 * stride) + if len % (2 * stride) > 0 then 1 else 0
  {
    DivMod(len, 2 * stride);
    Assoc3(len / (2 * stride), 2, stride);
    MulLe(0, len / (2 * stride), stride);
  }

  lemma HoldsNothing(m: Machine, src: seq<B.Byte>)
    ensures Holds(m, Nothing(m), src, 0)
  {
    LaneOfZero();
  }

  lemma HoldsMeans(m: Machine, data: Register, src: seq<B.Byte>, n: nat)
    requires Holds(m, data, src, n)
    ensures WidthOf(data) == m && forall k: nat :: k < Stride(m) ==> LaneOf(data, k) == Folded(src, Stride(m), k, n)
  {
  }

  lemma FoldNext(m: Machine, src: seq<B.Byte>, data: Register, n: nat)
    requires Holds(m, data, src, n)
    ensures WidthOf(data) == m && 0 <= Times(n, Stride(m)) && Holds(m, XorOf(data, Read(m, src, Times(n, Stride(m)))), src, n + 1)
  {
    hide LaneOf, XorOf, Xor, Read, B.WordAt, Stride, Times, WidthOf;
    TimesOrder(0, n, Stride(m)); TimesNext(0, Stride(m));
    var next := Read(m, src, Times(n, Stride(m)));
    forall k: nat | k < Stride(m) ensures LaneOf(XorOf(data, next), k) == Folded(src, Stride(m), k, n + 1) {
      XorLanes(data, next, k);
      ReadLanes(m, src, Times(n, Stride(m)), k);
    }
  }
}
