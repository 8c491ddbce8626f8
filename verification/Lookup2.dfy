/**
 The packed kernel with two tables: sources have the bits of every pair of words rearranged, so that
 three lookups multiply both words at once.
 */
module Lookup2 {
  import opened Arith
  import opened Field
  import opened Swar
  import opened Lookup
  import opened Blocks
  import B = Bytes
  import C = ChecksumGeneric
  import K = Clmul

  // Fields of a register.

  /** The bits of a register from bit s up, as far as a word takes them. */
  function Window11(p: Reg32): Word { Word(((p.bits >> 11) & 0xFFFF) as bv16) }

  function Window22(p: Reg32): Word { Word((p.bits >> 22) as bv16) }

  /** data & 0x7ff */
  function Index1(p: Reg32): nat { Value(Low(p), 11) }

  /** data >> 22 */
  function Index2(p: Reg32): nat { Value(Window22(p), 10) }

  /** (data & 0x3ff800) >> 11 */
  function Index3(p: Reg32): nat { Value(Window11(p), 11) }

  /** gf16_lookup3_prepare_block on 32 bits: 0...10, 16...26, 11...15, 27...31 */
  function PrepareBits(p: Reg32): Reg32 {
    Reg32((p.bits & 0xF80007FF) | ((p.bits & 0x07FF0000) >> 5) | ((p.bits & 0xF800) << 11))
  }

  /** The 64-bit form works on both halves. */
  function PrepareBits64(p: Reg): Reg {
    Reg((p.bits & 0xF80007FFF80007FF) | ((p.bits & 0x07FF000007FF0000) >> 5) | ((p.bits & 0xF8000000F800) << 11))
  }

  function LowHalf(p: Reg): Reg32 { Reg32((p.bits & 0xFFFFFFFF) as bv32) }

  function HighHalf(p: Reg): Reg32 { Reg32((p.bits >> 32) as bv32) }

  lemma PrepareLow(p: Reg) ensures LowHalf(PrepareBits64(p)) == PrepareBits(LowHalf(p)) {}
  lemma PrepareHigh(p: Reg) ensures HighHalf(PrepareBits64(p)) == PrepareBits(HighHalf(p)) {}

  // Words cut by a mask.

  function Masked11(a: Word): Word { Word(a.bits & 0x7FF) }

  function Masked5(a: Word): Word { Word(a.bits & 0x1F) }

  function Right11(a: Word): Word { Word(a.bits >> 11) }

  lemma PreparedLow(p: Reg32) ensures Masked11(Low(PrepareBits(p))) == Masked11(Low(p)) {}
  lemma PreparedMiddle(p: Reg32) ensures Masked11(Window11(PrepareBits(p))) == Masked11(High(p)) {}
  lemma PreparedTop0(p: Reg32) ensures Masked5(Window22(PrepareBits(p))) == Right11(Low(p)) {}
  lemma PreparedTop1(p: Reg32) ensures Masked5(K.Right5(Window22(PrepareBits(p)))) == Right11(High(p)) {}

  lemma Masked11Linear(x: Word, y: Word) ensures Masked11(Xor(x, y)) == Xor(Masked11(x), Masked11(y)) {}
  lemma Masked5Linear(x: Word, y: Word) ensures Masked5(Xor(x, y)) == Xor(Masked5(x), Masked5(y)) {}

  lemma Masked11Values(i: nat)
    requires i < 16
    ensures Masked11(Exp(i)) == if i < 11 then Exp(i) else Zero
  {
    hide Shift;
    K.PowerValues();
  }

  lemma Masked5Values(i: nat)
    requires i < 16
    ensures Masked5(Exp(i)) == if i < 5 then Exp(i) else Zero
  {
    hide Shift;
    K.PowerValues();
  }

  lemma MaskedZero() ensures Masked11(Zero) == Zero == Masked5(Zero) {}

  lemma {:induction false} Masked11Prefix(w: Word, n: nat)
    requires n <= 16
    ensures Masked11(K.Prefix(w, n)) == K.Prefix(w, if n < 11 then n else 11)
    decreases n
  {
    hide Odd, HalfBy, Xor, Masked11, Shift;
    MaskedZero();
    if n > 0 {
      Masked11Prefix(w, n - 1);
      Masked11Linear(K.Prefix(w, n - 1), Pick(Odd(HalfBy(w, n - 1)), Exp(n - 1)));
      Masked11Values(n - 1);
      XorLaws(K.Prefix(w, 11), Zero);
    }
  }

  lemma {:induction false} Masked5Prefix(w: Word, n: nat)
    requires n <= 16
    ensures Masked5(K.Prefix(w, n)) == K.Prefix(w, if n < 5 then n else 5)
    decreases n
  {
    hide Odd, HalfBy, Xor, Masked5, Shift;
    MaskedZero();
    if n > 0 {
      Masked5Prefix(w, n - 1);
      Masked5Linear(K.Prefix(w, n - 1), Pick(Odd(HalfBy(w, n - 1)), Exp(n - 1)));
      Masked5Values(n - 1);
      XorLaws(K.Prefix(w, 5), Zero);
    }
  }

  /** Reading a field as a number and back gives the masked word. */
  lemma FieldValue(w: Word)
    ensures FromNat(Value(w, 11)) == Masked11(w) && FromNat(Value(w, 5)) == Masked5(w)
  {
    hide Odd, HalfBy, Xor, Masked11, Masked5, Shift, FromNat, Value, K.Prefix;
    K.PrefixAll(w);
    Masked11Prefix(w, 16);
    Masked5Prefix(w, 16);
    SamePrefix(w, 11);
    SamePrefix(w, 5);
  }

  lemma {:induction false} SamePrefix(w: Word, n: nat)
    ensures FromNat(Value(w, n)) == K.Prefix(w, n)
    decreases n
  {
    hide Odd, HalfBy, Xor, Shift, Double, PowerOfTwo;
    if n == 0 {
      FromNatZero();
    } else {
      SamePrefix(w, n - 1);
      ValueBound(w, n - 1);
      FromNatAdd(Value(w, n - 1), n - 1);
      XorLaws(K.Prefix(w, n - 1), Zero);
    }
  }

  lemma OneMore(w: Word, v: Word, n: nat)
    requires HalfBy(w, n) == v
    ensures HalfBy(w, n + 1) == Half(v)
  {
    hide Half, HalfBy;
    HalfByAdd(w, n, 1);
    C.HalfByOne(v);
  }

  function Right9(a: Word): Word { Word(a.bits >> 9) }
  function Right10(a: Word): Word { Word(a.bits >> 10) }

  lemma HalfOfFour(w: Word) ensures Half(K.Right4(w)) == K.Right5(w) {}
  lemma HalfOfEight(w: Word) ensures Half(K.Right8(w)) == Right9(w) {}
  lemma HalfOfNine(w: Word) ensures Half(Right9(w)) == Right10(w) {}
  lemma HalfOfTen(w: Word) ensures Half(Right10(w)) == Right11(w) {}

  lemma HalfByMore(w: Word)
    ensures HalfBy(w, 5) == K.Right5(w) && HalfBy(w, 11) == Right11(w)
  {
    hide Half, HalfBy, Right9, Right10, Right11, K.Right5, K.Right8;
    HalfByFour(w);
    OneMore(w, K.Right4(w), 4); HalfOfFour(w);
    K.HalfByEight(w);
    OneMore(w, K.Right8(w), 8); HalfOfEight(w);
    OneMore(w, Right9(w), 9); HalfOfNine(w);
    OneMore(w, Right10(w), 10); HalfOfTen(w);
  }

  lemma {:induction false} ValueParts(w: Word, m: nat, n: nat)
    ensures Value(w, m + n) == Value(w, m) + PowerOfTwo(m) * Value(HalfBy(w, m), n)
    decreases n
  {
    hide Odd, HalfBy, PowerOfTwo;
    if n > 0 {
      ValueParts(w, m, n - 1);
      HalfByAdd(w, m, n - 1);
      PowerSum(m, n - 1);
      Distribute(Value(HalfBy(w, m), n - 1), if Odd(HalfBy(w, m + n - 1)) then PowerOfTwo(n - 1) else 0, PowerOfTwo(m));
    }
  }

  // What the indices select.

  /** The first and third indices name the low eleven bits of the two words. */
  lemma OuterIndices(p: Reg32)
    ensures var q := PrepareBits(p);
            && Index1(q) < 2048 && Index3(q) < 2048
            && FromNat(Index1(q)) == Masked11(Low(p)) && FromNat(Index3(q)) == Masked11(High(p))
  {
    hide PrepareBits, Low, High, Window11, Masked11, Value, FromNat;
    var q := PrepareBits(p);
    PreparedLow(p);
    PreparedMiddle(p);
    FieldValue(Low(q));
    FieldValue(Window11(q));
    ValueBound(Low(q), 11);
    ValueBound(Window11(q), 11);
    TablePowers();
  }

  lemma TablePowers()
    ensures PowerOfTwo(5) == 32 && PowerOfTwo(9) == 512 && PowerOfTwo(10) == 1024 && PowerOfTwo(11) == 2048 && PowerOfTwo(4) == 16
  {
    PowerStep(0); PowerStep(2); PowerStep(4); PowerStep(6); PowerStep(8); PowerStep(9);
  }

  /** The second index names the top five bits of both. */
  lemma MiddleIndex(p: Reg32)
    ensures var j := Index2(PrepareBits(p));
            && j < 1024 && j / 32 < 32
            && FromNat(j % 32) == Right11(Low(p)) && FromNat(j / 32) == Right11(High(p))
  {
    hide PrepareBits, Low, High, Window22, Masked5, Value, FromNat, Right11, K.Right5;
    var x := Window22(PrepareBits(p));
    PreparedTop0(p);
    PreparedTop1(p);
    FieldValue(x);
    FieldValue(K.Right5(x));
    HalfByMore(x);
    ValueParts(x, 5, 5);
    ValueBound(x, 10);
    ValueBound(x, 5);
    ValueBound(K.Right5(x), 5);
    TablePowers();
    DivUnique(Value(x, 10), 32, Value(HalfBy(x, 5), 5), Value(x, 5));
  }

  /** A word is its low eleven bits and its top five. */
  lemma WordParts(w: Word)
    ensures w == Xor(Masked11(w), Shift(Right11(w), 11))
  {
    hide Value, FromNat, Right11, Masked11, Xor, Shift, HalfBy;
    FieldValue(w);
    HalfByMore(w);
    ValueSplit(w, 11);
  }

  // The tables.

  /** Entry i of the second table, for index i: a product for each of the two words. */
  predicate IsPair(p: Reg32, c11: Word, i: nat) { Low(p) == Entry(c11, i % 32) && High(p) == Entry(c11, i / 32) }

  ghost predicate Pairs(t: seq<Reg32>, c11: Word, n: nat) {
    n <= |t| && forall i: nat :: i < n ==> IsPair(t[i], c11, i)
  }

  ghost predicate AreTables(t1: seq<Word>, t2: seq<Reg32>, c: Word) {
    |t1| == 2048 && |t2| == 1024 && Filled(t1, 0, c, 2048) && Pairs(t2, Shift(c, 11), 1024)
  }

  /** table1[..] ^ table2[..] ^ (table1[..] << 16) */
  function Looked(t1: seq<Word>, t2: seq<Reg32>, q: Reg32): Reg32
    requires |t1| == 2048 && |t2| == 1024 && Index1(q) < 2048 && Index2(q) < 1024 && Index3(q) < 2048
  {
    Xor32(Xor32(Pack2(t1[Index1(q)], Zero), t2[Index2(q)]), Raised(t1[Index3(q)]))
  }

  /** Three lookups on prepared bits multiply both words. */
  lemma LookedMultiplies(t1: seq<Word>, t2: seq<Reg32>, c: Word, p: Reg32)
    requires AreTables(t1, t2, c)
    ensures var q := PrepareBits(p);
            && Index1(q) < 2048 && Index2(q) < 1024 && Index3(q) < 2048
            && Low(Looked(t1, t2, q)) == Mul(c, Low(p)) && High(Looked(t1, t2, q)) == Mul(c, High(p))
  {
    hide PrepareBits, Index1, Index2, Index3, Low, High, Masked11, Right11, Mul, Xor, Shift, FromNat, Pack2, Raised, Xor32;
    var q := PrepareBits(p);
    OuterIndices(p);
    MiddleIndex(p);
    var a, b, m := t1[Index1(q)], t1[Index3(q)], t2[Index2(q)];
    FilledAt(t1, 0, c, 2048, Index1(q));
    FilledAt(t1, 0, c, 2048, Index3(q));
    var x := Pack2(a, Zero);
    PackLow(a, Zero); PackHigh(a, Zero);
    RaisedLow(b); RaisedHigh(b);
    XorLow(x, m); XorHigh(x, m);
    XorLow(Xor32(x, m), Raised(b)); XorHigh(Xor32(x, m), Raised(b));
    ProductParts(c, Low(p));
    ProductParts(c, High(p));
    XorLaws(Xor(a, Low(m)), Zero);
    XorLaws(Zero, High(m)); XorLaws(High(m), b); XorLaws(High(m), Zero);
    assert IsPair(m, Shift(c, 11), Index2(q));
  }

  lemma ProductParts(c: Word, w: Word)
    ensures Mul(c, w) == Xor(Mul(c, Masked11(w)), Mul(Shift(c, 11), Right11(w)))
  {
    hide Mul, Xor, Shift, Masked11, Right11;
    WordParts(w);
    MulLinear(Masked11(w), Shift(Right11(w), 11), c);
    ShiftMul(c, Right11(w), 11);
  }

  // Building the tables.

  lemma LowHalf0(p: Reg) ensures Low(LowHalf(p)) == Lane0(p) {}
  lemma LowHalf1(p: Reg) ensures High(LowHalf(p)) == Lane1(p) {}
  lemma HighHalf0(p: Reg) ensures Low(HighHalf(p)) == Lane2(p) {}
  lemma HighHalf1(p: Reg) ensures High(HighHalf(p)) == Lane3(p) {}

  function OrReg(p: Reg, q: Reg): Reg { Reg(p.bits | q.bits) }

  function Or32(p: Reg32, q: Reg32): Reg32 { Reg32(p.bits | q.bits) }

  function OrWord(a: Word, b: Word): Word { Word(a.bits | b.bits) }

  lemma OrLane0(p: Reg, q: Reg) ensures Lane0(OrReg(p, q)) == OrWord(Lane0(p), Lane0(q)) {}
  lemma OrLane1(p: Reg, q: Reg) ensures Lane1(OrReg(p, q)) == OrWord(Lane1(p), Lane1(q)) {}
  lemma OrLane2(p: Reg, q: Reg) ensures Lane2(OrReg(p, q)) == OrWord(Lane2(p), Lane2(q)) {}
  lemma OrLane3(p: Reg, q: Reg) ensures Lane3(OrReg(p, q)) == OrWord(Lane3(p), Lane3(q)) {}
  lemma OrLow(p: Reg32, q: Reg32) ensures Low(Or32(p, q)) == OrWord(Low(p), Low(q)) {}
  lemma OrHigh(p: Reg32, q: Reg32) ensures High(Or32(p, q)) == OrWord(High(p), High(q)) {}
  lemma OrZero(a: Word) ensures OrWord(a, Zero) == a == OrWord(Zero, a) {}

  /** table2[j] * 0x0001000000010000 */
  function Spread(p: Reg32): Reg { Reg((p.bits as bv64) * 0x0001000000010000) }

  lemma Spread0(a: Word) ensures Lane0(Spread(Pack2(a, Zero))) == Zero {}
  lemma Spread1(a: Word) ensures Lane1(Spread(Pack2(a, Zero))) == a {}
  lemma Spread2(a: Word) ensures Lane2(Spread(Pack2(a, Zero))) == Zero {}
  lemma Spread3(a: Word) ensures Lane3(Spread(Pack2(a, Zero))) == a {}

  /** table2[j] << 16 */
  function Up16(p: Reg32): Reg32 { Reg32(p.bits << 16) }

  lemma Up16Low(p: Reg32) ensures Low(Up16(p)) == Zero {}
  lemma Up16High(p: Reg32) ensures High(Up16(p)) == Low(p) {}

  lemma KeepThird0(p: Reg) ensures Lane0(Keep(p, 0xFFFF00000000)) == Zero {}
  lemma KeepThird1(p: Reg) ensures Lane1(Keep(p, 0xFFFF00000000)) == Zero {}
  lemma KeepThird2(p: Reg) ensures Lane2(Keep(p, 0xFFFF00000000)) == Lane2(p) {}
  lemma KeepThird3(p: Reg) ensures Lane3(Keep(p, 0xFFFF00000000)) == Zero {}

  lemma KeepEven0(p: Reg) ensures Lane0(Keep(p, 0xFFFF0000FFFF)) == Lane0(p) {}
  lemma KeepEven1(p: Reg) ensures Lane1(Keep(p, 0xFFFF0000FFFF)) == Zero {}
  lemma KeepEven2(p: Reg) ensures Lane2(Keep(p, 0xFFFF0000FFFF)) == Lane2(p) {}
  lemma KeepEven3(p: Reg) ensures Lane3(Keep(p, 0xFFFF0000FFFF)) == Zero {}

  /** write64 into the table of pairs. */
  method WritePairs(t: array<Reg32>, at: nat, p: Reg, ghost c11: Word)
    requires at + 2 <= t.Length && Pairs(t[..], c11, at)
    requires Lane0(p) == Entry(c11, at % 32) && Lane1(p) == Entry(c11, at / 32)
    requires Lane2(p) == Entry(c11, (at + 1) % 32) && Lane3(p) == Entry(c11, (at + 1) / 32)
    modifies t
    ensures Pairs(t[..], c11, at + 2)
    ensures forall k :: 0 <= k < t.Length && !(at <= k < at + 2) ==> t[k] == old(t[k])
  {
    hide Lane0, Lane1, Lane2, Lane3, Entry, LowHalf, HighHalf, Low, High;
    LowHalf0(p); LowHalf1(p); HighHalf0(p); HighHalf1(p);
    t[at], t[at + 1] := LowHalf(p), HighHalf(p);
  }

  /** The lanes of two adjacent pairs with no second word. */
  lemma ReadPairs(t: seq<Reg32>, c11: Word, n: nat, at: nat)
    requires Pairs(t, c11, n) && at + 2 <= n && at + 2 <= 32
    ensures n <= |t|
    ensures var p := Wide(t[at], t[at + 1]);
            Lane0(p) == Entry(c11, at) && Lane1(p) == Zero && Lane2(p) == Entry(c11, at + 1) && Lane3(p) == Zero
  {
    hide Lane0, Lane1, Lane2, Lane3, Entry, Low, High, Wide;
    WideLane0(t[at], t[at + 1]); WideLane1(t[at], t[at + 1]); WideLane2(t[at], t[at + 1]); WideLane3(t[at], t[at + 1]);
    EntryStart(c11);
    assert IsPair(t[at], c11, at) && IsPair(t[at + 1], c11, at + 1);
  }

  /** Two more pairs below the thirty-second. */
  lemma GrowPairs(t: seq<Reg32>, c11: Word, n: nat, k: nat, p: Reg)
    requires n < 4 && k < PowerOfTwo(n) && PowerOfTwo(n) <= 8
    requires Pairs(t, c11, 2 * (PowerOfTwo(n) + k)) && Lower2(p, Shift(c11, n + 1))
    ensures 2 * k + 2 <= |t|
    ensures var q, e := XorReg(p, Wide(t[2 * k], t[2 * k + 1])), 2 * (PowerOfTwo(n) + k);
            Lane0(q) == Entry(c11, e) && Lane1(q) == Zero && Lane2(q) == Entry(c11, e + 1) && Lane3(q) == Zero
  {
    hide Lane0, Lane1, Lane2, Lane3, Shift, Entry, Xor, XorReg, PowerOfTwo, Low, High, Wide;
    PowerStep(n);
    ReadPairs(t, c11, 2 * (PowerOfTwo(n) + k), 2 * k);
    var r := Wide(t[2 * k], t[2 * k + 1]);
    XorLane0(p, r); XorLane1(p, r); XorLane2(p, r); XorLane3(p, r);
    EntryAdd(c11, 2 * k, n + 1);
    EntryAdd(c11, 2 * k + 1, n + 1);
    XorLaws(Zero, Zero);
  }

  /** The same with a second word put in. */
  lemma JoinPairs(t: seq<Reg32>, c11: Word, n: nat, j: nat, k: nat)
    requires Pairs(t, c11, n) && 1 <= j < 32 <= n && k < 16
    ensures n <= |t|
    ensures var q := OrReg(Spread(t[j]), Wide(t[2 * k], t[2 * k + 1]));
            && Lane0(q) == Entry(c11, 2 * k) && Lane1(q) == Entry(c11, j)
            && Lane2(q) == Entry(c11, 2 * k + 1) && Lane3(q) == Entry(c11, j)
  {
    hide Lane0, Lane1, Lane2, Lane3, Entry, OrReg, OrWord, Spread, Low, High, Wide, Pack2;
    ReadPairs(t, c11, n, 2 * k);
    EntryStart(c11);
    assert IsPair(t[j], c11, j);
    HalvesPack(t[j]);
    var a := Low(t[j]);
    Spread0(a); Spread1(a); Spread2(a); Spread3(a);
    var p, r := Spread(t[j]), Wide(t[2 * k], t[2 * k + 1]);
    OrLane0(p, r); OrLane1(p, r); OrLane2(p, r); OrLane3(p, r);
    OrZero(Entry(c11, 2 * k)); OrZero(Entry(c11, 2 * k + 1)); OrZero(a);
  }

  lemma FirstPairs(c11: Word, p: Reg)
    requires All4(p, c11)
    ensures var q := Keep(p, 0xFFFF00000000);
            Lane0(q) == Entry(c11, 0) && Lane1(q) == Entry(c11, 0) && Lane2(q) == Entry(c11, 1) && Lane3(q) == Entry(c11, 0)
  {
    hide Lane0, Lane1, Lane2, Lane3, Entry, Keep;
    KeepThird0(p); KeepThird1(p); KeepThird2(p); KeepThird3(p);
    EntryStart(c11);
  }

  lemma KeepsEven(p: Reg, a: Word)
    requires All4(p, a)
    ensures Lower2(Keep(p, 0xFFFF0000FFFF), a)
  {
    hide Lane0, Lane1, Lane2, Lane3, Keep;
    KeepEven0(p); KeepEven1(p); KeepEven2(p); KeepEven3(p);
  }

  /** Doubling the pairs without a second word, from two to thirty-two. */
  method LowPairs(t: array<Reg32>, ghost c11: Word, coefficient4: Reg)
    requires t.Length == 1024 && Pairs(t[..], c11, 2) && Lower2(coefficient4, Shift(c11, 1))
    modifies t
    ensures Pairs(t[..], c11, 32)
  {
    hide Lane0, Lane1, Lane2, Lane3, Shift, Entry, MultByTwoLowerX2, Double, PowerOfTwo, Pairs, XorReg, Wide, Lower2;
    var next := coefficient4;
    var n, j: int := 0, 1;
    PowerZero();
    TablePowers();
    while j < 16
      invariant 0 <= n <= 4 && j == PowerOfTwo(n) && 1 <= j <= 16
      invariant Lower2(next, Shift(c11, n + 1)) && Pairs(t[..], c11, 2 * j)
      decreases 4 - n
    {
      if n == 4 { assert false; }
      PowerStep(n);
      PowerOrder(n + 1, 4);
      PowerOrder(n, 3);
      PowerStep(3);
      var k: int := 0;
      while k < j
        invariant 0 <= k <= j && Pairs(t[..], c11, 2 * (j + k))
      {
        GrowPairs(t[..], c11, n, k, next);
        SmallPlace(c11, 2 * (j + k));
        SmallPlace(c11, 2 * (j + k) + 1);
        WritePairs(t, 2 * (k + j), XorReg(next, Wide(t[2 * k], t[2 * k + 1])), c11);
        k := k + 1;
      }
      DoubleLowerX2(next, Shift(c11, n + 1));
      ShiftNext(c11, n + 1);
      next := MultByTwoLowerX2(next);
      j := 2 * j;
      n := n + 1;
    }
  }

  lemma SmallPlace(c11: Word, i: nat)
    requires i < 32
    ensures i % 32 == i && i / 32 == 0 && Entry(c11, i / 32) == Zero
  {
    hide Entry;
    EntryStart(c11);
  }

  /** calc_2table on a 64-bit machine. */
  method CalcTables64(coefficient: Word, t1: array<Word>, t2: array<Reg32>)
    requires t1.Length == 2048 && t2.Length == 1024
    modifies t1, t2
    ensures AreTables(t1[..], t2[..], coefficient)
  {
    hide Lane0, Lane1, Lane2, Lane3, Shift, Entry, MultByTwoX4, MultByTwoLowerX2, Double, Keep, PowerOfTwo, Pairs, XorReg, Wide, Spread, OrReg, Low, High, Filled;
    var c := coefficient;
    var coefficient4 := Start64(c, t1);
    TablePowers();
    coefficient4 := Grow64(t1, 0, c, coefficient4, 9);
    var c11 := Shift(c, 11);
    ghost var first := t1[..];
    FirstPairs(c11, coefficient4);
    PairsNone(t2[..], c11);
    WritePairs(t2, 0, Keep(coefficient4, 0xFFFF00000000), c11);
    DoubleX4(coefficient4, c11);
    ShiftSmall(c11);
    coefficient4 := MultByTwoX4(coefficient4);
    KeepsEven(coefficient4, Shift(c11, 1));
    coefficient4 := Keep(coefficient4, 0xFFFF0000FFFF);
    LowPairs(t2, c11, coefficient4);
    var j: int := 1;
    while j < 32
      invariant 1 <= j <= 32 && t1[..] == first && Pairs(t2[..], c11, 32 * j)
    {
      var highVal := Spread(t2[j]);
      var k: int := 0;
      while k < 16
        invariant 0 <= k <= 16 && t1[..] == first && Pairs(t2[..], c11, 32 * j + 2 * k)
        invariant highVal == Spread(t2[j])
      {
        JoinPairs(t2[..], c11, 32 * j + 2 * k, j, k);
        PairPlace(j, 2 * k);
        PairPlace(j, 2 * k + 1);
        WritePairs(t2, 2 * (j * 16 + k), OrReg(highVal, Wide(t2[2 * k], t2[2 * k + 1])), c11);
        k := k + 1;
      }
      j := j + 1;
    }
  }

  lemma PairsNone(t: seq<Reg32>, c11: Word) ensures Pairs(t, c11, 0) {}

  lemma PairPlace(j: nat, b: nat)
    requires b < 32
    ensures (32 * j + b) % 32 == b && (32 * j + b) / 32 == j
  {
  }

  /** One more pair without a second word. */
  lemma GrowPair(t: seq<Reg32>, c11: Word, n: nat, k: nat)
    requires n < 5 && k < PowerOfTwo(n) && PowerOfTwo(n) <= 16 && Pairs(t, c11, PowerOfTwo(n) + k)
    ensures k < |t|
    ensures IsPair(Xor32(Pack2(Shift(c11, n), Zero), t[k]), c11, k + PowerOfTwo(n))
  {
    hide Shift, Entry, Xor, Xor32, PowerOfTwo, Low, High, Pack2;
    var v := Shift(c11, n);
    PackLow(v, Zero); PackHigh(v, Zero);
    XorLow(Pack2(v, Zero), t[k]); XorHigh(Pack2(v, Zero), t[k]);
    EntryAdd(c11, k, n);
    SmallPlace(c11, k);
    SmallPlace(c11, k + PowerOfTwo(n));
    assert IsPair(t[k], c11, k);
    XorLaws(Zero, Zero);
  }

  lemma JoinPair(t: seq<Reg32>, c11: Word, n: nat, j: nat, k: nat)
    requires Pairs(t, c11, n) && 1 <= j < 32 <= n && k < 32
    ensures n <= |t|
    ensures IsPair(Or32(t[k], Up16(t[j])), c11, j * 32 + k)
  {
    hide Entry, Or32, OrWord, Up16, Low, High;
    SmallPlace(c11, k);
    SmallPlace(c11, j);
    PairPlace(j, k);
    assert IsPair(t[j], c11, j) && IsPair(t[k], c11, k);
    Up16Low(t[j]); Up16High(t[j]);
    OrLow(t[k], Up16(t[j])); OrHigh(t[k], Up16(t[j]));
    OrZero(Entry(c11, k)); OrZero(Entry(c11, j));
  }

  lemma PairsNext(t: seq<Reg32>, c11: Word, n: nat, p: Reg32)
    requires Pairs(t, c11, n) && n < |t| && IsPair(p, c11, n)
    ensures Pairs(t[n := p], c11, n + 1)
  {
    hide IsPair;
  }

  /** calc_2table on a 32-bit machine. */
  method CalcTables32(coefficient: Word, t1: array<Word>, t2: array<Reg32>)
    requires t1.Length == 2048 && t2.Length == 1024
    modifies t1, t2
    ensures AreTables(t1[..], t2[..], coefficient)
  {
    hide Shift, Entry, PowerOfTwo, Pairs, IsPair, Xor32, Or32, Up16, Low, High, Filled, Pack2;
    var c := coefficient;
    var coefficient2 := Start32(c, t1);
    TablePowers();
    coefficient2 := Grow32(t1, 0, c, coefficient2, 10);
    var c11 := Low(coefficient2);
    ghost var first := t1[..];
    LowPairs32(t2, c11);
    var j: int := 1;
    while j < 32
      invariant 1 <= j <= 32 && t1[..] == first && Pairs(t2[..], c11, 32 * j)
    {
      var highVal := Up16(t2[j]);
      var k: int := 0;
      while k < 32
        invariant 0 <= k <= 32 && t1[..] == first && Pairs(t2[..], c11, 32 * j + k)
        invariant highVal == Up16(t2[j])
      {
        JoinPair(t2[..], c11, 32 * j + k, j, k);
        PairsNext(t2[..], c11, 32 * j + k, Or32(t2[k], highVal));
        t2[j * 32 + k] := Or32(t2[k], highVal);
        k := k + 1;
      }
      j := j + 1;
    }
  }

  /** The first thirty-two pairs, a coefficient at a time. */
  method LowPairs32(t: array<Reg32>, c11: Word)
    requires t.Length == 1024
    modifies t
    ensures Pairs(t[..], c11, 32)
  {
    hide Shift, Entry, PowerOfTwo, Pairs, IsPair, Xor32, Low, High, Pack2, Double;
    var val := c11;
    var n, j: int := 0, 1;
    PowerZero();
    TablePowers();
    ShiftSmall(c11);
    NoPair(c11);
    PairsNone(t[..], c11);
    PairsNext(t[..], c11, 0, Reg32(0));
    t[0] := Reg32(0);
    while j < 32
      invariant 0 <= n <= 5 && j == PowerOfTwo(n) && 1 <= j <= 32
      invariant val == Shift(c11, n) && Pairs(t[..], c11, j)
      decreases 5 - n
    {
      if n == 5 { assert false; }
      PowerStep(n);
      PowerOrder(n, 4);
      var k: int := 0;
      while k < j
        invariant 0 <= k <= j && Pairs(t[..], c11, j + k)
      {
        GrowPair(t[..], c11, n, k);
        PairsNext(t[..], c11, k + j, Xor32(Pack2(val, Zero), t[k]));
        t[k + j] := Xor32(Pack2(val, Zero), t[k]);
        k := k + 1;
      }
      ShiftNext(c11, n);
      val := Double(val);
      j := 2 * j;
      n := n + 1;
    }
  }

  lemma NoPair(c11: Word)
    ensures IsPair(Reg32(0), c11, 0)
  {
    hide Entry;
    SmallPlace(c11, 0);
    EntryStart(c11);
  }

  /** Both builders make the same tables. */
  lemma SameTables(t1: seq<Word>, t2: seq<Reg32>, u1: seq<Word>, u2: seq<Reg32>, c: Word)
    requires AreTables(t1, t2, c) && AreTables(u1, u2, c)
    ensures t1 == u1 && t2 == u2
  {
    hide Entry, Low, High, Shift;
    forall k | 0 <= k < 2048 ensures t1[k] == u1[k] { FilledAt(t1, 0, c, 2048, k); FilledAt(u1, 0, c, 2048, k); }
    forall k | 0 <= k < 1024 ensures t2[k] == u2[k] {
      assert IsPair(t2[k], Shift(c, 11), k) && IsPair(u2[k], Shift(c, 11), k);
      HalvesPack(t2[k]); HalvesPack(u2[k]);
    }
  }

  // Preparing and multiplying.

  /** The source's words after every pair went through the bit rearrangement. */
  function Prepared(src: seq<Word>): (r: seq<Word>)
    requires |src| % 2 == 0
    ensures |r| == |src|
  {
    seq(|src|, i requires 0 <= i < |src| =>
      var p := PrepareBits(Pack2(src[i - i % 2], src[i - i % 2 + 1])); if i % 2 == 0 then Low(p) else High(p))
  }

  lemma PreparedPair(src: seq<Word>, at: nat)
    requires |src| % 2 == 0 && at % 2 == 0 && at + 1 < |src|
    ensures Pack2(Prepared(src)[at], Prepared(src)[at + 1]) == PrepareBits(Pack2(src[at], src[at + 1]))
  {
    hide PrepareBits, Pack2, Low, High;
    HalvesPack(PrepareBits(Pack2(src[at], src[at + 1])));
    assert at + 1 - (at + 1) % 2 == at;
  }

  /** One 32-bit unit of the packed kernel. */
  method LookUnit(t1: array<Word>, t2: array<Reg32>, ghost c: Word, ghost src: seq<Word>, packed: seq<Word>, at: nat)
    returns (r: Reg32)
    requires t1.Length == 2048 && t2.Length == 1024 && AreTables(t1[..], t2[..], c)
    requires |src| % 2 == 0 && packed == Prepared(src) && at % 2 == 0 && at + 1 < |src|
    ensures Low(r) == Mul(c, src[at]) && High(r) == Mul(c, src[at + 1])
  {
    hide Prepared, PrepareBits, Index1, Index2, Index3, Looked, AreTables, Low, High, Pack2, Raised, Xor32, Mul;
    var data := Pack2(packed[at], packed[at + 1]);
    PreparedPair(src, at);
    LookedMultiplies(t1[..], t2[..], c, Pack2(src[at], src[at + 1]));
    PackLow(src[at], src[at + 1]); PackHigh(src[at], src[at + 1]);
    LookedMeans(t1[..], t2[..], data);
    r := Xor32(Xor32(Pack2(t1[Index1(data)], Zero), t2[Index2(data)]), Raised(t1[Index3(data)]));
  }

  lemma LookedMeans(t1: seq<Word>, t2: seq<Reg32>, q: Reg32)
    requires |t1| == 2048 && |t2| == 1024 && Index1(q) < 2048 && Index2(q) < 1024 && Index3(q) < 2048
    ensures Looked(t1, t2, q)
         == Xor32(Xor32(Pack2(t1[Index1(q)], Zero), t2[Index2(q)]), Raised(t1[Index3(q)]))
  {
  }

  lemma PreparedQuad(src: seq<Word>, at: nat)
    requires |src| % 2 == 0 && at % 2 == 0 && at + 4 <= |src|
    ensures var p := PrepareBits64(Pack4(src[at], src[at + 1], src[at + 2], src[at + 3])); var r := Prepared(src);
            Lane0(p) == r[at] && Lane1(p) == r[at + 1] && Lane2(p) == r[at + 2] && Lane3(p) == r[at + 3]
  {
    hide PrepareBits, PrepareBits64, Pack2, Pack4, Low, High, Lane0, Lane1, Lane2, Lane3, LowHalf, HighHalf;
    var d := Pack4(src[at], src[at + 1], src[at + 2], src[at + 3]);
    QuadHalves(src[at], src[at + 1], src[at + 2], src[at + 3]);
    PrepareLow(d); PrepareHigh(d);
    var p := PrepareBits64(d);
    LowHalf0(p); LowHalf1(p); HighHalf0(p); HighHalf1(p);
    assert (at + 1) % 2 == 1 && (at + 2) % 2 == 0 && (at + 3) % 2 == 1;
  }

  lemma QuadHalves(a: Word, b: Word, c: Word, d: Word)
    ensures LowHalf(Pack4(a, b, c, d)) == Pack2(a, b) && HighHalf(Pack4(a, b, c, d)) == Pack2(c, d)
  {
    hide Pack2, Pack4, Low, High, Lane0, Lane1, Lane2, Lane3, LowHalf, HighHalf;
    var p := Pack4(a, b, c, d);
    PackLane0(a, b, c, d); PackLane1(a, b, c, d); PackLane2(a, b, c, d); PackLane3(a, b, c, d);
    LowHalf0(p); LowHalf1(p); HighHalf0(p); HighHalf1(p);
    HalvesPack(LowHalf(p)); HalvesPack(HighHalf(p));
  }

  /** The first n words of a source of bytes, its end zero-filled, half a word included. */
  function WordsOf(src: seq<B.Byte>, n: nat): (r: seq<Word>)
    ensures |r| == n
  {
    seq(n, w requires 0 <= w < n => B.WordAt(src, w))
  }

  lemma PreparedTwo(src: seq<Word>, at: nat)
    requires |src| % 2 == 0 && at % 2 == 0 && at + 2 <= |src|
    ensures var p := PrepareBits(Pack2(src[at], src[at + 1])); Low(p) == Prepared(src)[at] && High(p) == Prepared(src)[at + 1]
  {
    hide PrepareBits, Pack2, Low, High;
    assert (at + 1) % 2 == 1 && at + 1 - 1 == at;
  }

  /** gf16_lookup3_prepare_block */
  method PrepareUnit(wide: bool, dst: array<Word>, at: nat, data: seq<Word>, ptr: nat)
    requires |data| % 2 == 0 && ptr % 2 == 0 && ptr + (if wide then 4 else 2) <= |data| && at + (if wide then 4 else 2) <= dst.Length
    modifies dst
    ensures forall k :: at <= k < at + (if wide then 4 else 2) ==> dst[k] == Prepared(data)[ptr + k - at]
    ensures forall k :: 0 <= k < dst.Length && !(at <= k < at + if wide then 4 else 2) ==> dst[k] == old(dst[k])
  {
    hide Prepared, PrepareBits, PrepareBits64, Pack2, Pack4, Low, High, Lane0, Lane1, Lane2, Lane3;
    if wide {
      PreparedQuad(data, ptr);
      Write64(dst, at, PrepareBits64(Pack4(data[ptr], data[ptr + 1], data[ptr + 2], data[ptr + 3])));
    } else {
      PreparedTwo(data, ptr);
      Write32(dst, at, PrepareBits(Pack2(data[ptr], data[ptr + 1])));
    }
  }

  /** gf16_lookup3_prepare_block over a region, and gf16_lookup3_prepare_blocku for what ends short of it, on either machine. */
  method PrepareRegion(wide: bool, dst: array<Word>, base: nat, src: seq<B.Byte>, len: nat)
    requires len % 2 == 0 && (wide ==> len % 4 == 0) && |src| <= 2 * len && base + len <= dst.Length
    modifies dst
    ensures dst[base..base + len] == Prepared(WordsOf(src, len))
    ensures forall k :: 0 <= k < dst.Length && !(base <= k < base + len) ==> dst[k] == old(dst[k])
  {
    hide Prepared;
    var data := WordsOf(src, len);
    var ptr: int := 0;
    while ptr < len
      invariant 0 <= ptr <= len && ptr % 2 == 0 && (wide ==> ptr % 4 == 0)
      invariant forall k :: base <= k < base + ptr ==> dst[k] == Prepared(data)[k - base]
      invariant forall k :: 0 <= k < dst.Length && !(base <= k < base + len) ==> dst[k] == old(dst[k])
    {
      PrepareUnit(wide, dst, base + ptr, data, ptr);
      ptr := ptr + if wide then 4 else 2;
    }
  }

  // Several sources into one destination.

  /** Word k of the first n sources. */
  function WordColumn(sources: seq<seq<Word>>, n: nat, k: nat): (ws: seq<Word>)
    requires n <= |sources| && forall i :: 0 <= i < n ==> k < |sources[i]|
    ensures |ws| == n
  {
    seq(n, i requires 0 <= i < n => sources[i][k])
  }

  /** What the first n coefficients and sources add to word k. */
  function Added(cs: seq<Word>, sources: seq<seq<Word>>, n: nat, k: nat): Word
    requires n <= |cs| && n <= |sources| && forall i :: 0 <= i < n ==> k < |sources[i]|
  {
    CombineWords(cs[..n], WordColumn(sources, n, k))
  }

  lemma AddedNext(cs: seq<Word>, sources: seq<seq<Word>>, n: nat, k: nat, w: Word)
    requires n < |cs| == |sources| && forall i :: 0 <= i < |sources| ==> k < |sources[i]|
    ensures Added(cs, sources, 0, k) == Zero
    ensures Xor(Added(cs, sources, n + 1, k), w) == Xor(Mul(cs[n], sources[n][k]), Xor(Added(cs, sources, n, k), w))
  {
    hide Xor, Mul;
    var c, ws := cs[..n + 1], WordColumn(sources, n + 1, k);
    assert c[..n] == cs[..n] && ws[..n] == WordColumn(sources, n, k);
    var a, m := Added(cs, sources, n, k), Mul(cs[n], sources[n][k]);
    assert Added(cs, sources, n + 1, k) == Xor(a, m);
    XorLaws(a, m);
    XorAssoc(m, a, w);
  }

  ghost predicate SameLength(sources: seq<seq<Word>>, len: nat) { forall i :: 0 <= i < |sources| ==> |sources[i]| == len }

  /** The sources were prepared one after the other. */
  ghost predicate PreparedAll(packed: seq<Word>, sources: seq<seq<Word>>, len: nat) {
    && SameLength(sources, len) && len % 2 == 0 && |packed| >= |sources| * len
    && forall i {:trigger sources[i]} :: 0 <= i < |sources| ==>
         0 <= i * len && i * len + len <= |packed| && packed[i * len..i * len + len] == Prepared(sources[i])
  }

  /** dst has received the first n products. */
  ghost predicate Received(now: seq<Word>, was: seq<Word>, cs: seq<Word>, sources: seq<seq<Word>>, n: nat, len: nat)
    requires n <= |cs| == |sources| && SameLength(sources, len)
  {
    && |now| == |was| >= len
    && (forall k: nat :: k < len ==> now[k] == Xor(Added(cs, sources, n, k), was[k]))
    && forall k :: len <= k < |was| ==> now[k] == was[k]
  }

  lemma ReceivedNone(was: seq<Word>, cs: seq<Word>, sources: seq<seq<Word>>, len: nat)
    requires |cs| == |sources| && SameLength(sources, len) && |was| >= len
    ensures Received(was, was, cs, sources, 0, len)
  {
    hide Xor, Mul;
    forall k: nat | k < len ensures was[k] == Xor(Added(cs, sources, 0, k), was[k]) { XorLaws(was[k], Zero); XorLaws(Zero, was[k]); }
  }

  lemma ReceivedNext(now: seq<Word>, mid: seq<Word>, was: seq<Word>, cs: seq<Word>, sources: seq<seq<Word>>, n: nat, len: nat)
    requires n < |cs| == |sources| && SameLength(sources, len) && Received(mid, was, cs, sources, n, len)
    requires |now| == |mid| && forall k :: len <= k < |mid| ==> now[k] == mid[k]
    requires forall k :: 0 <= k < len ==> now[k] == Xor(Mul(cs[n], sources[n][k]), mid[k])
    ensures Received(now, was, cs, sources, n + 1, len)
  {
    hide Xor, Mul, Added;
    forall k: nat | k < len ensures now[k] == Xor(Added(cs, sources, n + 1, k), was[k]) { AddedNext(cs, sources, n, k, was[k]); }
  }

  /** Four words of a region: both halves of a 64-bit register looked up and added at once. */
  method AddQuad64(dst: array<Word>, t1: array<Word>, t2: array<Reg32>, packed: seq<Word>, ghost src: seq<Word>, ghost c: Word, at: nat)
    requires t1.Length == 2048 && t2.Length == 1024 && AreTables(t1[..], t2[..], c)
    requires |src| % 2 == 0 && packed == Prepared(src) && at % 2 == 0 && at + 4 <= |src| <= dst.Length
    requires dst != t1
    modifies dst
    ensures forall k :: at <= k < at + 4 ==> dst[k] == Xor(Mul(c, src[k]), old(dst[k]))
    ensures forall k :: 0 <= k < dst.Length && !(at <= k < at + 4) ==> dst[k] == old(dst[k])
  {
    hide Mul, Xor, AreTables, Prepared, Lane0, Lane1, Lane2, Lane3, Low, High, Wide;
    var r0 := LookUnit(t1, t2, c, src, packed, at);
    var r1 := LookUnit(t1, t2, c, src, packed, at + 2);
    WideLane0(r0, r1); WideLane1(r0, r1); WideLane2(r0, r1); WideLane3(r0, r1);
    var v := Wide(r0, r1);
    WriteXor64(dst, at, v);
    assert dst[at + 0] == Xor(Lane(v, 0), old(dst[at])) && dst[at + 1] == Xor(Lane(v, 1), old(dst[at + 1]));
    assert dst[at + 2] == Xor(Lane(v, 2), old(dst[at + 2])) && dst[at + 3] == Xor(Lane(v, 3), old(dst[at + 3]));
  }

  /** One region of the packed kernel on a 64-bit machine. */
  method AddRegion64(dst: array<Word>, packed: seq<Word>, ghost src: seq<Word>, c: Word)
    requires |src| % 4 == 0 && |src| % 2 == 0 && |src| <= dst.Length && packed == Prepared(src)
    modifies dst
    ensures forall k :: 0 <= k < |src| ==> dst[k] == Xor(Mul(c, src[k]), old(dst[k]))
    ensures forall k :: |src| <= k < dst.Length ==> dst[k] == old(dst[k])
  {
    hide Mul, Xor, AreTables, Prepared;
    var t1, t2 := new Word[2048], new Reg32[1024];
    CalcTables64(c, t1, t2);
    ghost var u1, u2 := t1[..], t2[..];
    var ptr: int := 0;
    while ptr < |packed|
      invariant 0 <= ptr <= |packed| && ptr % 4 == 0 && ptr % 2 == 0 && t1[..] == u1 && t2[..] == u2
      invariant forall k :: 0 <= k < ptr ==> dst[k] == Xor(Mul(c, src[k]), old(dst[k]))
      invariant forall k :: ptr <= k < dst.Length ==> dst[k] == old(dst[k])
    {
      AddQuad64(dst, t1, t2, packed, src, c, ptr);
      assert t1[..] == u1 && t2[..] == u2;
      FourMore(ptr, |packed|);
      ptr := ptr + 4;
    }
  }

  lemma FourMore(ptr: nat, n: nat)
    requires ptr % 4 == 0 && n % 4 == 0 && ptr < n
    ensures (ptr + 4) % 4 == 0 && (ptr + 4) % 2 == 0 && ptr + 4 <= n
  {
    DivMod(ptr, 4); DivMod(n, 4);
    var a, b := ptr / 4, n / 4;
    DivUnique(ptr + 4, 4, a + 1, 0);
    DivUnique(ptr + 4, 2, 2 * (a + 1), 0);
    assert 4 * a < 4 * b;
  }

  /** The same on a 32-bit machine. */
  method AddRegion32(dst: array<Word>, packed: seq<Word>, ghost src: seq<Word>, c: Word)
    requires |src| % 2 == 0 && |src| <= dst.Length && packed == Prepared(src)
    modifies dst
    ensures forall k :: 0 <= k < |src| ==> dst[k] == Xor(Mul(c, src[k]), old(dst[k]))
    ensures forall k :: |src| <= k < dst.Length ==> dst[k] == old(dst[k])
  {
    hide Mul, Xor, AreTables, Prepared, Low, High;
    var t1, t2 := new Word[2048], new Reg32[1024];
    CalcTables32(c, t1, t2);
    ghost var u1, u2 := t1[..], t2[..];
    var ptr: int := 0;
    while ptr < |packed|
      invariant 0 <= ptr <= |packed| && ptr % 2 == 0 && t1[..] == u1 && t2[..] == u2
      invariant forall k :: 0 <= k < ptr ==> dst[k] == Xor(Mul(c, src[k]), old(dst[k]))
      invariant forall k :: ptr <= k < dst.Length ==> dst[k] == old(dst[k])
    {
      var r := LookUnit(t1, t2, c, src, packed, ptr);
      WriteXor32(dst, ptr, r);
      assert t1[..] == u1 && t2[..] == u2;
      ptr := ptr + 2;
    }
  }

  lemma RegionOf(packed: seq<Word>, sources: seq<seq<Word>>, len: nat, i: nat)
    requires PreparedAll(packed, sources, len) && i < |sources|
    ensures i * len + len <= |packed| && packed[i * len..i * len + len] == Prepared(sources[i])
    ensures |sources[i]| == len && len % 2 == 0
  {
    hide Prepared;
  }

  /** gf16_lookup3_muladd_multi_packed: any number of prepared regions, on either machine. */
  method MuladdMultiPacked(wide: bool, dst: array<Word>, packed: seq<Word>, ghost sources: seq<seq<Word>>, len: nat, coefficients: seq<Word>)
    requires |coefficients| == |sources| && PreparedAll(packed, sources, len) && len <= dst.Length
    requires wide ==> len % 4 == 0
    modifies dst
    ensures Received(dst[..], old(dst[..]), coefficients, sources, |sources|, len)
  {
    hide PreparedAll, Received, Mul, Xor, Prepared;
    ghost var was := dst[..];
    SameLengths(packed, sources, len);
    ReceivedNone(was, coefficients, sources, len);
    var region: int := 0;
    while region < |coefficients|
      invariant 0 <= region <= |coefficients|
      invariant Received(dst[..], was, coefficients, sources, region, len)
    {
      RegionOf(packed, sources, len, region);
      ghost var mid := dst[..];
      var part := packed[region * len..region * len + len];
      if wide {
        AddRegion64(dst, part, sources[region], coefficients[region]);
      } else {
        AddRegion32(dst, part, sources[region], coefficients[region]);
      }
      ReceivedNext(dst[..], mid, was, coefficients, sources, region, len);
      region := region + 1;
    }
  }

  lemma SameLengths(packed: seq<Word>, sources: seq<seq<Word>>, len: nat)
    requires PreparedAll(packed, sources, len)
    ensures SameLength(sources, len)
  {
  }

  /** The plain kernel, once per source, leaves the same destination, whatever the machine. */
  method RepeatedMuladd(m: Machine, dst: array<Word>, sources: seq<seq<Word>>, len: nat, coefficients: seq<Word>)
    requires |coefficients| == |sources| && SameLength(sources, len) && len % Stride(m) == 0 && len <= dst.Length
    modifies dst
    ensures Received(dst[..], old(dst[..]), coefficients, sources, |sources|, len)
  {
    hide Received, Mul, Xor;
    ghost var was := dst[..];
    ReceivedNone(was, coefficients, sources, len);
    var region: int := 0;
    while region < |sources|
      invariant 0 <= region <= |sources|
      invariant Received(dst[..], was, coefficients, sources, region, len)
    {
      ghost var mid := dst[..];
      LookupMuladd(m, dst, sources[region], coefficients[region]);
      ReceivedNext(dst[..], mid, was, coefficients, sources, region, len);
      region := region + 1;
    }
  }

  /** What was received is determined by the inputs. */
  lemma SameDestination(now: seq<Word>, now': seq<Word>, was: seq<Word>, cs: seq<Word>, sources: seq<seq<Word>>, len: nat)
    requires |cs| == |sources| && SameLength(sources, len)
    requires Received(now, was, cs, sources, |sources|, len) && Received(now', was, cs, sources, |sources|, len)
    ensures now == now'
  {
    hide Xor, Added;
    forall k | 0 <= k < |now| ensures now[k] == now'[k] {
    }
  }
}
