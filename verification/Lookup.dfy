/**
 Multiplication by table: the table builders for three register widths and the loops that use the
 table.  Buffers are taken a 16-bit word at a time, on a little-endian machine.
 */
module Lookup {
  import opened Arith
  import opened Field
  import opened Swar

  // Words and table indices.

  /** The word with bit pattern t. */
  function FromNat(t: nat): Word {
    if t == 0 then Zero else Xor(Double(FromNat(t / 2)), if t % 2 == 1 then One else Zero)
  }

  /** The number in the low n bits of a word. */
  function Value(w: Word, n: nat): nat
    decreases n
  {
    if n == 0 then 0 else Value(w, n - 1) + if Odd(HalfBy(w, n - 1)) then PowerOfTwo(n - 1) else 0
  }

  lemma {:induction false} FromNatAdd(t: nat, n: nat)
    requires t < PowerOfTwo(n)
    ensures FromNat(t + PowerOfTwo(n)) == Xor(FromNat(t), Exp(n))
    decreases n
  {
    hide Double, Xor, Shift;
    ExpStep(n);
    if n == 0 {
      DoubleConstants();
      assert FromNat(1) == Xor(Double(FromNat(0)), One);
    } else {
      ExpStep(n - 1);
      var p := if t % 2 == 1 then One else Zero;
      FromNatAdd(t / 2, n - 1);
      assert (t + PowerOfTwo(n)) / 2 == t / 2 + PowerOfTwo(n - 1) && (t + PowerOfTwo(n)) % 2 == t % 2;
      FromNatStep(t);
      FromNatStep(t + PowerOfTwo(n));
      DoubleLinear(FromNat(t / 2), Exp(n - 1));
      XorAssoc(Double(FromNat(t / 2)), Exp(n), p);
      XorLaws(Exp(n), p);
      XorAssoc(Double(FromNat(t / 2)), p, Exp(n));
    }
  }

  lemma FromNatStep(t: nat)
    ensures FromNat(t) == Xor(Double(FromNat(t / 2)), if t % 2 == 1 then One else Zero)
  {
    hide Xor, Double;
    DoubleConstants();
    XorLaws(Zero, Zero);
  }

  lemma {:induction false} ValueBound(w: Word, n: nat)
    ensures Value(w, n) < PowerOfTwo(n)
    decreases n
  {
    hide Odd, HalfBy;
    if n > 0 { ValueBound(w, n - 1); }
  }

  /** A word is its low n bits and the rest shifted back up. */
  lemma {:induction false} ValueSplit(w: Word, n: nat)
    ensures w == Xor(FromNat(Value(w, n)), Shift(HalfBy(w, n), n))
    decreases n
  {
    hide Odd, Double, Xor, Half;
    if n == 0 {
      XorLaws(w, Zero);
    } else {
      ValueSplit(w, n - 1);
      HalfByAdd(w, n - 1, 1);
      var h := HalfBy(w, n - 1);
      OddHalf(h);
      ShiftLinear(Pick(Odd(h), One), Double(Half(h)), n - 1);
      ShiftAdd(Half(h), 1, n - 1);
      ValueBound(w, n - 1);
      FromNatAdd(Value(w, n - 1), n - 1);
      ShiftOfZero(n - 1);
      XorLaws(FromNat(Value(w, n - 1)), Zero);
      XorLaws(Shift(HalfBy(w, n), n), Zero);
      XorAssoc(FromNat(Value(w, n - 1)), Exp(n - 1), Shift(HalfBy(w, n), n));
    }
  }

  /** The bytes of a word, as table indices. */
  function LowIndex(w: Word): nat { Value(w, 8) }

  function HighIndex(w: Word): nat { Value(HalfBy(w, 8), 8) }

  lemma ByteIndices(w: Word)
    ensures LowIndex(w) < 256 && HighIndex(w) < 256
    ensures w == Xor(FromNat(LowIndex(w)), Shift(FromNat(HighIndex(w)), 8))
  {
    hide Odd, Double, Xor, Half, FromNat, Value, HalfBy, Shift;
    assert PowerOfTwo(8) == 256;
    ValueBound(w, 8);
    ValueBound(HalfBy(w, 8), 8);
    ValueSplit(w, 8);
    HalfByAdd(w, 8, 8);
    HalfBySixteen(w);
    ValueSplit(HalfBy(w, 8), 8);
    ShiftOfZero(8);
    XorLaws(FromNat(HighIndex(w)), Zero);
  }

  // Table entries.

  /** What a table for coefficient c holds at index t. */
  function Entry(c: Word, t: nat): Word { Mul(c, FromNat(t)) }

  lemma EntryAdd(c: Word, t: nat, n: nat)
    requires t < PowerOfTwo(n)
    ensures Entry(c, t + PowerOfTwo(n)) == Xor(Shift(c, n), Entry(c, t))
  {
    hide Mul, Xor, FromNat, Shift;
    FromNatAdd(t, n);
    MulComm(c, FromNat(t + PowerOfTwo(n)));
    MulLinear(FromNat(t), Exp(n), c);
    MulExp(c, n);
    XorLaws(Mul(c, FromNat(t)), Shift(c, n));
  }

  lemma EntryStart(c: Word)
    ensures Entry(c, 0) == Zero && Entry(c, 1) == c
    ensures Entry(c, 2) == Double(c) && Entry(c, 3) == Xor(Double(c), c)
  {
    hide Mul, Xor, FromNat, Shift, Double;
    assert FromNat(0) == Zero by { FromNatZero(); }
    MulZero(c);
    assert PowerOfTwo(0) == 1 && PowerOfTwo(1) == 2;
    EntryAdd(c, 0, 0); EntryAdd(c, 0, 1); EntryAdd(c, 1, 1);
    ShiftSmall(c);
    XorLaws(c, Zero); XorLaws(Double(c), Zero);
  }

  lemma FromNatZero()
    ensures FromNat(0) == Zero
  {
  }

  lemma ShiftSmall(c: Word)
    ensures Shift(c, 0) == c && Shift(c, 1) == Double(c)
  {
    hide Double;
  }

  /** n entries for coefficient c, from base on. */
  ghost predicate Filled(t: seq<Word>, base: nat, c: Word, n: nat) {
    base + n <= |t| && forall k :: 0 <= k < n ==> t[base + k] == Entry(c, k)
  }

  lemma FilledAt(t: seq<Word>, base: nat, c: Word, n: nat, k: nat)
    requires Filled(t, base, c, n) && k < n
    ensures base + n <= |t| && t[base + k] == Entry(c, k)
  {
  }

  lemma FilledKept(t: seq<Word>, t': seq<Word>, base: nat, c: Word, n: nat)
    requires Filled(t, base, c, n) && |t| == |t'| && forall k :: base <= k < base + n ==> t[k] == t'[k]
    ensures Filled(t', base, c, n)
  {
    hide Entry;
  }

  /** The finished table: products with low bytes, then with high bytes. */
  ghost predicate IsTable(t: seq<Word>, c: Word) {
    Filled(t, 0, c, 256) && Filled(t, 256, Shift(c, 8), 256)
  }

  /** Two builders can only differ where the table does not reach. */
  lemma SameTable(t: seq<Word>, t': seq<Word>, c: Word)
    requires IsTable(t, c) && IsTable(t', c)
    ensures |t| >= 512 && |t'| >= 512 && t[..512] == t'[..512]
  {
    hide Entry, Filled, Shift;
    assert |t| >= 512 && |t'| >= 512 by { FilledAt(t, 256, Shift(c, 8), 256, 0); FilledAt(t', 256, Shift(c, 8), 256, 0); }
    forall k | 0 <= k < 512 ensures t[k] == t'[k] {
      if k < 256 {
        FilledAt(t, 0, c, 256, k); FilledAt(t', 0, c, 256, k);
      } else {
        FilledAt(t, 256, Shift(c, 8), 256, k - 256); FilledAt(t', 256, Shift(c, 8), 256, k - 256);
      }
    }
  }

  /** A word looked up byte by byte is multiplied. */
  lemma LookedUp(t: seq<Word>, c: Word, w: Word)
    requires IsTable(t, c)
    ensures LowIndex(w) < 256 && HighIndex(w) < 256 && |t| >= 512
    ensures Xor(t[LowIndex(w)], t[256 + HighIndex(w)]) == Mul(c, w)
  {
    hide Mul, Xor, FromNat, Shift, LowIndex, HighIndex;
    ByteIndices(w);
    var lo, hi := FromNat(LowIndex(w)), FromNat(HighIndex(w));
    FilledAt(t, 0, c, 256, LowIndex(w));
    FilledAt(t, 256, Shift(c, 8), 256, HighIndex(w));
    MulComm(c, w); MulComm(c, lo); MulComm(c, Shift(hi, 8));
    MulLinear(lo, Shift(hi, 8), c);
    ShiftMul(c, hi, 8);
  }

  // Builders.

  /** write64 into a table. */
  method Write64(t: array<Word>, at: nat, p: Reg)
    requires at + 4 <= t.Length
    modifies t
    ensures t[at] == Lane0(p) && t[at + 1] == Lane1(p) && t[at + 2] == Lane2(p) && t[at + 3] == Lane3(p)
    ensures forall k :: 0 <= k < t.Length && !(at <= k < at + 4) ==> t[k] == old(t[k])
  {
    hide Lane0, Lane1, Lane2, Lane3;
    t[at], t[at + 1], t[at + 2], t[at + 3] := Lane0(p), Lane1(p), Lane2(p), Lane3(p);
  }

  method Write32(t: array<Word>, at: nat, p: Reg32)
    requires at + 2 <= t.Length
    modifies t
    ensures t[at] == Low(p) && t[at + 1] == High(p)
    ensures forall k :: 0 <= k < t.Length && !(at <= k < at + 2) ==> t[k] == old(t[k])
  {
    hide Low, High;
    t[at], t[at + 1] := Low(p), High(p);
  }

  lemma PowerStep(n: nat)
    ensures PowerOfTwo(n + 1) == 2 * PowerOfTwo(n) && PowerOfTwo(n) >= 1
    ensures PowerOfTwo(n + 2) == 4 * PowerOfTwo(n)
  {
    if n > 0 { PowerStep(n - 1); }
  }

  lemma {:induction false} PowerOrder(m: nat, n: nat)
    requires m <= n
    ensures PowerOfTwo(m) <= PowerOfTwo(n) && (m < n ==> PowerOfTwo(m) < PowerOfTwo(n))
    decreases n
  {
    PowerStep(n);
    if m < n {
      PowerOrder(m, n - 1);
      PowerStep(n - 1);
    }
  }

  lemma {:induction false} PowerSum(m: nat, n: nat)
    ensures PowerOfTwo(m + n) == PowerOfTwo(m) * PowerOfTwo(n)
    decreases n
  {
    if n > 0 { PowerSum(m, n - 1); }
  }

  /** Doubling a table four entries at a time, up to 4 << m entries. */
  method Grow64(t: array<Word>, base: nat, ghost c: Word, coefficient4: Reg, m: nat) returns (next: Reg)
    requires base + 4 * PowerOfTwo(m) <= t.Length && All4(coefficient4, Shift(c, 2)) && Filled(t[..], base, c, 4)
    modifies t
    ensures Filled(t[..], base, c, 4 * PowerOfTwo(m)) && All4(next, Shift(c, m + 2))
    ensures forall k :: 0 <= k < t.Length && !(base <= k < base + 4 * PowerOfTwo(m)) ==> t[k] == old(t[k])
  {
    hide Lane0, Lane1, Lane2, Lane3, Shift, Entry, Xor, XorReg, Pack4, MultByTwoX4, PowerOfTwo, Double;
    next := coefficient4;
    var n, j := 0, 1;
    PowerStep(0);
    PowerZero();
    PowerOrder(0, m);
    while j < PowerOfTwo(m)
      invariant 0 <= n <= m && j == PowerOfTwo(n)
      invariant All4(next, Shift(c, n + 2)) && Filled(t[..], base, c, 4 * j)
      invariant forall k :: 0 <= k < t.Length && !(base <= k < base + 4 * PowerOfTwo(m)) ==> t[k] == old(t[k])
      decreases m - n
    {
      if n == m { assert false; }
      PowerStep(n);
      PowerOrder(n + 1, m);
      var k := 0;
      while k < j
        invariant 0 <= k <= j && Filled(t[..], base, c, 4 * (j + k))
        invariant forall h :: 0 <= h < t.Length && !(base <= h < base + 4 * PowerOfTwo(m)) ==> t[h] == old(t[h])
      {
        var at := base + 4 * k;
        var p := XorReg(next, Pack4(t[at], t[at + 1], t[at + 2], t[at + 3]));
        GrowLanes(t[..], base, c, n, k, next);
        Write64(t, base + 4 * (k + j), p);
        k := k + 1;
      }
      DoubleX4(next, Shift(c, n + 2));
      ShiftNext(c, n + 2);
      next := MultByTwoX4(next);
      j := 2 * j;
      n := n + 1;
    }
    if n < m { PowerOrder(n, m); }
  }

  lemma PowerZero()
    ensures PowerOfTwo(0) == 1
  {
  }

  lemma ShiftNext(c: Word, n: nat)
    ensures Shift(c, n + 1) == Double(Shift(c, n))
  {
    hide Double;
  }

  /** Four entries in one step. */
  lemma GrowLanes(t: seq<Word>, base: nat, c: Word, n: nat, k: nat, p: Reg)
    requires k < PowerOfTwo(n) && All4(p, Shift(c, n + 2)) && Filled(t, base, c, 4 * (PowerOfTwo(n) + k))
    ensures 4 * k + 4 <= 4 * (PowerOfTwo(n) + k)
    ensures var at := base + 4 * k; var q := XorReg(p, Pack4(t[at], t[at + 1], t[at + 2], t[at + 3]));
            var e := 4 * (PowerOfTwo(n) + k);
            Lane0(q) == Entry(c, e) && Lane1(q) == Entry(c, e + 1) && Lane2(q) == Entry(c, e + 2) && Lane3(q) == Entry(c, e + 3)
  {
    hide Lane0, Lane1, Lane2, Lane3, Shift, Entry, Xor, XorReg, Pack4, PowerOfTwo;
    PowerStep(n);
    var at := base + 4 * k;
    var r := Pack4(t[at], t[at + 1], t[at + 2], t[at + 3]);
    PackLane0(t[at], t[at + 1], t[at + 2], t[at + 3]); PackLane1(t[at], t[at + 1], t[at + 2], t[at + 3]);
    PackLane2(t[at], t[at + 1], t[at + 2], t[at + 3]); PackLane3(t[at], t[at + 1], t[at + 2], t[at + 3]);
    XorLane0(p, r); XorLane1(p, r); XorLane2(p, r); XorLane3(p, r);
    FilledAt(t, base, c, 4 * (PowerOfTwo(n) + k), 4 * k); FilledAt(t, base, c, 4 * (PowerOfTwo(n) + k), 4 * k + 1);
    FilledAt(t, base, c, 4 * (PowerOfTwo(n) + k), 4 * k + 2); FilledAt(t, base, c, 4 * (PowerOfTwo(n) + k), 4 * k + 3);
    EntryAdd(c, 4 * k, n + 2); EntryAdd(c, 4 * k + 1, n + 2);
    EntryAdd(c, 4 * k + 2, n + 2); EntryAdd(c, 4 * k + 3, n + 2);
  }

  /** The first four entries of a table, and the coefficient four times over, times four. */
  method Start64(c: Word, t: array<Word>) returns (coefficient4: Reg)
    requires t.Length >= 4
    modifies t
    ensures Filled(t[..], 0, c, 4) && All4(coefficient4, Shift(c, 2))
  {
    hide Lane0, Lane1, Lane2, Lane3, Low, High, Shift, Entry, Xor, XorReg, Xor32, Pack4, Pack2, MultByTwoX4, MultByTwoX2, Double, Wide, Raised;
    var coefficient2 := Raised(c);
    var tmp := Pack2(c, c);
    PackLow(c, c); PackHigh(c, c);
    DoubleX2(tmp, c);
    tmp := MultByTwoX2(tmp);
    StartLanes(c, coefficient2, tmp);
    Write64(t, 0, Wide(coefficient2, Xor32(tmp, coefficient2)));
    coefficient4 := Wide(tmp, tmp);
    WideLane0(tmp, tmp); WideLane1(tmp, tmp); WideLane2(tmp, tmp); WideLane3(tmp, tmp);
    DoubleX4(coefficient4, Double(c));
    ShiftSmall(c); ShiftNext(c, 1);
    coefficient4 := MultByTwoX4(coefficient4);
  }

  /** calc_table on a 64-bit machine. */
  method CalcTable64(coefficient: Word, t: array<Word>)
    requires t.Length == 512
    modifies t
    ensures IsTable(t[..], coefficient)
  {
    hide Lane0, Lane1, Lane2, Lane3, Shift, Entry, XorReg, MultByTwoX4, Double, Keep, UpByTwo;
    var c := coefficient;
    var coefficient4 := Start64(c, t);
    assert PowerOfTwo(6) == 64;
    coefficient4 := Grow64(t, 0, c, coefficient4, 6);
    var c8 := Shift(c, 8);
    var tmp2 := Keep(coefficient4, 0xFFFF0000FFFF0000);
    DoubleX4(coefficient4, c8);
    var before := coefficient4;
    coefficient4 := MultByTwoX4(coefficient4);
    SecondStart(c8, before, coefficient4);
    Write64(t, 256, XorReg(tmp2, UpByTwo(coefficient4)));
    DoubleX4(coefficient4, Double(c8));
    ShiftSmall(c8); ShiftNext(c8, 1);
    coefficient4 := MultByTwoX4(coefficient4);
    ghost var low := t[..];
    coefficient4 := Grow64(t, 256, c8, coefficient4, 6);
    FilledKept(low, t[..], 0, c, 256);
  }

  /** The first four entries. */
  lemma StartLanes(c: Word, coefficient2: Reg32, tmp: Reg32)
    requires coefficient2 == Raised(c) && All2(tmp, Double(c))
    ensures var p := Wide(coefficient2, Xor32(tmp, coefficient2));
            Lane0(p) == Entry(c, 0) && Lane1(p) == Entry(c, 1) && Lane2(p) == Entry(c, 2) && Lane3(p) == Entry(c, 3)
  {
    hide Lane0, Lane1, Lane2, Lane3, Low, High, Entry, Xor, Xor32, Wide, Raised, Double;
    var x := Xor32(tmp, coefficient2);
    RaisedLow(c); RaisedHigh(c);
    WideLane0(coefficient2, x); WideLane1(coefficient2, x); WideLane2(coefficient2, x); WideLane3(coefficient2, x);
    XorLow(tmp, coefficient2); XorHigh(tmp, coefficient2);
    EntryStart(c);
    XorLaws(Double(c), Zero);
  }

  /** The first four entries of the second half. */
  lemma SecondStart(c: Word, p: Reg, q: Reg)
    requires All4(p, c) && All4(q, Double(c))
    ensures var r := XorReg(Keep(p, 0xFFFF0000FFFF0000), UpByTwo(q));
            Lane0(r) == Entry(c, 0) && Lane1(r) == Entry(c, 1) && Lane2(r) == Entry(c, 2) && Lane3(r) == Entry(c, 3)
  {
    hide Lane0, Lane1, Lane2, Lane3, Entry, Xor, XorReg, Keep, UpByTwo, Double;
    var k, u := Keep(p, 0xFFFF0000FFFF0000), UpByTwo(q);
    KeepOdd0(p); KeepOdd1(p); KeepOdd2(p); KeepOdd3(p);
    UpLane0(q); UpLane1(q); UpLane2(q); UpLane3(q);
    XorLane0(k, u); XorLane1(k, u); XorLane2(k, u); XorLane3(k, u);
    EntryStart(c);
    XorLaws(Zero, Zero); XorLaws(c, Zero); XorLaws(Zero, Double(c)); XorLaws(c, Double(c)); XorLaws(Double(c), Zero);
  }

  /** Doubling a table two entries at a time, up to 2 << m entries. */
  method Grow32(t: array<Word>, base: nat, ghost c: Word, coefficient2: Reg32, m: nat) returns (next: Reg32)
    requires base + 2 * PowerOfTwo(m) <= t.Length && All2(coefficient2, Shift(c, 1)) && Filled(t[..], base, c, 2)
    modifies t
    ensures Filled(t[..], base, c, 2 * PowerOfTwo(m)) && All2(next, Shift(c, m + 1))
    ensures forall k :: 0 <= k < t.Length && !(base <= k < base + 2 * PowerOfTwo(m)) ==> t[k] == old(t[k])
  {
    hide Low, High, Shift, Entry, Xor, Xor32, Pack2, MultByTwoX2, PowerOfTwo, Double;
    next := coefficient2;
    var n, j := 0, 1;
    PowerZero();
    PowerOrder(0, m);
    while j < PowerOfTwo(m)
      invariant 0 <= n <= m && j == PowerOfTwo(n)
      invariant All2(next, Shift(c, n + 1)) && Filled(t[..], base, c, 2 * j)
      invariant forall k :: 0 <= k < t.Length && !(base <= k < base + 2 * PowerOfTwo(m)) ==> t[k] == old(t[k])
      decreases m - n
    {
      if n == m { assert false; }
      PowerStep(n);
      PowerOrder(n + 1, m);
      var k := 0;
      while k < j
        invariant 0 <= k <= j && Filled(t[..], base, c, 2 * (j + k))
        invariant forall h :: 0 <= h < t.Length && !(base <= h < base + 2 * PowerOfTwo(m)) ==> t[h] == old(t[h])
      {
        var at := base + 2 * k;
        var p := Xor32(next, Pack2(t[at], t[at + 1]));
        GrowHalves(t[..], base, c, n, k, next);
        Write32(t, base + 2 * (k + j), p);
        k := k + 1;
      }
      DoubleX2(next, Shift(c, n + 1));
      ShiftNext(c, n + 1);
      next := MultByTwoX2(next);
      j := 2 * j;
      n := n + 1;
    }
    if n < m { PowerOrder(n, m); }
  }

  lemma GrowHalves(t: seq<Word>, base: nat, c: Word, n: nat, k: nat, p: Reg32)
    requires k < PowerOfTwo(n) && All2(p, Shift(c, n + 1)) && Filled(t, base, c, 2 * (PowerOfTwo(n) + k))
    ensures 2 * k + 2 <= 2 * (PowerOfTwo(n) + k)
    ensures var at := base + 2 * k; var q := Xor32(p, Pack2(t[at], t[at + 1])); var e := 2 * (PowerOfTwo(n) + k);
            Low(q) == Entry(c, e) && High(q) == Entry(c, e + 1)
  {
    hide Low, High, Shift, Entry, Xor, Xor32, Pack2, PowerOfTwo;
    PowerStep(n);
    var at := base + 2 * k;
    var r := Pack2(t[at], t[at + 1]);
    PackLow(t[at], t[at + 1]); PackHigh(t[at], t[at + 1]);
    XorLow(p, r); XorHigh(p, r);
    FilledAt(t, base, c, 2 * (PowerOfTwo(n) + k), 2 * k); FilledAt(t, base, c, 2 * (PowerOfTwo(n) + k), 2 * k + 1);
    EntryAdd(c, 2 * k, n + 1); EntryAdd(c, 2 * k + 1, n + 1);
  }

  /** The first two entries, and the coefficient twice over, times two. */
  method Start32(c: Word, t: array<Word>) returns (coefficient2: Reg32)
    requires t.Length >= 2
    modifies t
    ensures Filled(t[..], 0, c, 2) && All2(coefficient2, Shift(c, 1))
  {
    hide Low, High, Shift, Entry, Xor, Pack2, MultByTwoX2, Double, Raised;
    EntryStart(c);
    RaisedLow(c); RaisedHigh(c);
    Write32(t, 0, Raised(c));
    coefficient2 := Pack2(c, c);
    PackLow(c, c); PackHigh(c, c);
    DoubleX2(coefficient2, c);
    ShiftSmall(c);
    coefficient2 := MultByTwoX2(coefficient2);
  }

  /** calc_table on a 32-bit machine. */
  method CalcTable32(coefficient: Word, t: array<Word>)
    requires t.Length == 512
    modifies t
    ensures IsTable(t[..], coefficient)
  {
    hide Low, High, Shift, Entry, Xor, MultByTwoX2, Double, KeepHigh;
    var c := coefficient;
    var coefficient2 := Start32(c, t);
    assert PowerOfTwo(7) == 128;
    coefficient2 := Grow32(t, 0, c, coefficient2, 7);
    var c8 := Shift(c, 8);
    ghost var low := t[..];
    EntryStart(c8);
    KeepHighLow(coefficient2); KeepHighHigh(coefficient2);
    Write32(t, 256, KeepHigh(coefficient2));
    DoubleX2(coefficient2, c8);
    ShiftSmall(c8);
    coefficient2 := MultByTwoX2(coefficient2);
    coefficient2 := Grow32(t, 256, c8, coefficient2, 7);
    FilledKept(low, t[..], 0, c, 256);
  }

  /** Doubling a table one entry at a time. */
  method Grow16(t: array<Word>, base: nat, c: Word, m: nat) returns (next: Word)
    requires base + PowerOfTwo(m) <= t.Length
    modifies t
    ensures Filled(t[..], base, c, PowerOfTwo(m)) && next == Shift(c, m)
    ensures forall k :: 0 <= k < t.Length && !(base <= k < base + PowerOfTwo(m)) ==> t[k] == old(t[k])
  {
    hide Shift, Entry, Xor, PowerOfTwo, Double;
    next := c;
    var n, j := 0, 1;
    PowerZero();
    PowerOrder(0, m);
    EntryStart(c);
    ShiftSmall(c);
    t[base] := Zero;
    while j < PowerOfTwo(m)
      invariant 0 <= n <= m && j == PowerOfTwo(n)
      invariant next == Shift(c, n) && Filled(t[..], base, c, j)
      invariant forall k :: 0 <= k < t.Length && !(base <= k < base + PowerOfTwo(m)) ==> t[k] == old(t[k])
      decreases m - n
    {
      if n == m { assert false; }
      PowerStep(n);
      PowerOrder(n + 1, m);
      var k := 0;
      while k < j
        invariant 0 <= k <= j && Filled(t[..], base, c, j + k)
        invariant forall h :: 0 <= h < t.Length && !(base <= h < base + PowerOfTwo(m)) ==> t[h] == old(t[h])
      {
        FilledAt(t[..], base, c, j + k, k);
        EntryAdd(c, k, n);
        t[base + (k + j)] := Xor(next, t[base + k]);
        k := k + 1;
      }
      ShiftNext(c, n);
      next := Double(next);
      j := 2 * j;
      n := n + 1;
    }
    if n < m { PowerOrder(n, m); }
  }

  /** calc_table with nothing wider than a word. */
  method CalcTable16(coefficient: Word, t: array<Word>)
    requires t.Length == 512
    modifies t
    ensures IsTable(t[..], coefficient)
  {
    hide Shift, Entry;
    assert PowerOfTwo(8) == 256;
    var c := Grow16(t, 0, coefficient, 8);
    ghost var low := t[..];
    c := Grow16(t, 256, c, 8);
    FilledKept(low, t[..], 0, coefficient, 256);
  }

  // Using the table.

  /** lhtable[low byte] ^ lhtable[256 + high byte] */
  method Look(t: array<Word>, ghost c: Word, w: Word) returns (r: Word)
    requires t.Length == 512 && IsTable(t[..], c)
    ensures r == Mul(c, w)
  {
    hide Mul, Xor, IsTable, LowIndex, HighIndex;
    LookedUp(t[..], c, w);
    r := Xor(t[LowIndex(w)], t[256 + HighIndex(w)]);
  }

  /** writeXor64: four words of a buffer changed by a register. */
  method WriteXor64(dst: array<Word>, at: nat, v: Reg)
    requires at + 4 <= dst.Length
    modifies dst
    ensures forall k :: 0 <= k < 4 ==> dst[at + k] == Xor(Lane(v, k), old(dst[at + k]))
    ensures forall k :: 0 <= k < dst.Length && !(at <= k < at + 4) ==> dst[k] == old(dst[k])
  {
    hide Lane0, Lane1, Lane2, Lane3, XorReg, Pack4, Xor;
    var p := Pack4(dst[at], dst[at + 1], dst[at + 2], dst[at + 3]);
    PackLane0(dst[at], dst[at + 1], dst[at + 2], dst[at + 3]); PackLane1(dst[at], dst[at + 1], dst[at + 2], dst[at + 3]);
    PackLane2(dst[at], dst[at + 1], dst[at + 2], dst[at + 3]); PackLane3(dst[at], dst[at + 1], dst[at + 2], dst[at + 3]);
    XorLane0(v, p); XorLane1(v, p); XorLane2(v, p); XorLane3(v, p);
    Write64(dst, at, XorReg(v, p));
  }

  /** writeXor32 */
  method WriteXor32(dst: array<Word>, at: nat, v: Reg32)
    requires at + 2 <= dst.Length
    modifies dst
    ensures dst[at] == Xor(Low(v), old(dst[at])) && dst[at + 1] == Xor(High(v), old(dst[at + 1]))
    ensures forall k :: 0 <= k < dst.Length && !(at <= k < at + 2) ==> dst[k] == old(dst[k])
  {
    hide Low, High, Xor32, Pack2, Xor;
    var p := Pack2(dst[at], dst[at + 1]);
    PackLow(dst[at], dst[at + 1]); PackHigh(dst[at], dst[at + 1]);
    XorLow(v, p); XorHigh(v, p);
    Write32(dst, at, Xor32(v, p));
  }

  /** The loop of gf16_lookup_muladd on a 64-bit machine. */
  method LookupMuladd64(dst: array<Word>, src: seq<Word>, t: array<Word>, ghost coefficient: Word)
    requires |src| % 4 == 0 && |src| <= dst.Length && t != dst && t.Length == 512 && IsTable(t[..], coefficient)
    modifies dst
    ensures forall k :: 0 <= k < |src| ==> dst[k] == Xor(Mul(coefficient, src[k]), old(dst[k]))
    ensures forall k :: |src| <= k < dst.Length ==> dst[k] == old(dst[k])
  {
    hide Mul, Xor, IsTable, Lane0, Lane1, Lane2, Lane3, Pack4;
    var ptr := 0;
    while ptr < |src|
      invariant 0 <= ptr <= |src| && ptr % 4 == 0 && IsTable(t[..], coefficient)
      invariant forall k :: 0 <= k < ptr ==> dst[k] == Xor(Mul(coefficient, src[k]), old(dst[k]))
      invariant forall k :: ptr <= k < dst.Length ==> dst[k] == old(dst[k])
    {
      var r0 := Look(t, coefficient, src[ptr]);
      var r1 := Look(t, coefficient, src[ptr + 1]);
      var r2 := Look(t, coefficient, src[ptr + 2]);
      var r3 := Look(t, coefficient, src[ptr + 3]);
      PackLane0(r0, r1, r2, r3); PackLane1(r0, r1, r2, r3); PackLane2(r0, r1, r2, r3); PackLane3(r0, r1, r2, r3);
      ghost var v := Pack4(r0, r1, r2, r3);
      assert Lane(v, 0) == r0 && Lane(v, 1) == r1 && Lane(v, 2) == r2 && Lane(v, 3) == r3;
      ghost var tab := t[..];
      WriteXor64(dst, ptr, Pack4(r0, r1, r2, r3));
      assert t[..] == tab;
      assert dst[ptr + 0] == Xor(r0, old(dst[ptr])) && dst[ptr + 3] == Xor(r3, old(dst[ptr + 3]));
      ptr := ptr + 4;
    }
  }

  method LookupMuladd32(dst: array<Word>, src: seq<Word>, t: array<Word>, ghost coefficient: Word)
    requires |src| % 2 == 0 && |src| <= dst.Length && t != dst && t.Length == 512 && IsTable(t[..], coefficient)
    modifies dst
    ensures forall k :: 0 <= k < |src| ==> dst[k] == Xor(Mul(coefficient, src[k]), old(dst[k]))
    ensures forall k :: |src| <= k < dst.Length ==> dst[k] == old(dst[k])
  {
    hide Mul, Xor, IsTable, Low, High, Pack2;
    ghost var tab := t[..];
    var ptr := 0;
    while ptr < |src|
      invariant 0 <= ptr <= |src| && ptr % 2 == 0 && t[..] == tab
      invariant forall k :: 0 <= k < ptr ==> dst[k] == Xor(Mul(coefficient, src[k]), old(dst[k]))
      invariant forall k :: ptr <= k < dst.Length ==> dst[k] == old(dst[k])
    {
      var r0 := Look(t, coefficient, src[ptr]);
      var r1 := Look(t, coefficient, src[ptr + 1]);
      PackLow(r0, r1); PackHigh(r0, r1);
      WriteXor32(dst, ptr, Pack2(r0, r1));
      assert t[..] == tab;
      ptr := ptr + 2;
    }
  }

  method LookupMuladd16(dst: array<Word>, src: seq<Word>, t: array<Word>, ghost coefficient: Word)
    requires |src| <= dst.Length && t != dst && t.Length == 512 && IsTable(t[..], coefficient)
    modifies dst
    ensures forall k :: 0 <= k < |src| ==> dst[k] == Xor(Mul(coefficient, src[k]), old(dst[k]))
    ensures forall k :: |src| <= k < dst.Length ==> dst[k] == old(dst[k])
  {
    hide Mul, Xor, IsTable;
    ghost var tab := t[..];
    var ptr := 0;
    while ptr < |src|
      invariant 0 <= ptr <= |src| && t[..] == tab
      invariant forall k :: 0 <= k < ptr ==> dst[k] == Xor(Mul(coefficient, src[k]), old(dst[k]))
      invariant forall k :: ptr <= k < dst.Length ==> dst[k] == old(dst[k])
    {
      var r := Look(t, coefficient, src[ptr]);
      dst[ptr] := Xor(r, dst[ptr]);
      assert t[..] == tab;
      ptr := ptr + 1;
    }
  }

  /** From a whole number of strides to the next. */
  lemma StrideNext(m: Machine, ptr: nat, len: nat)
    requires ptr % Stride(m) == 0 && len % Stride(m) == 0 && ptr < len
    ensures ptr + Stride(m) <= len && (ptr + Stride(m)) % Stride(m) == 0
  {
    var d := Stride(m);
    DivMod(ptr, d); DivMod(len, d);
    Distribute(ptr / d, 1, d);
    DivUnique(ptr + d, d, ptr / d + 1, 0);
    if ptr + d > len { MulLess(ptr / d, len / d, d); }
  }

  lemma StrideIs(m: Machine)
    ensures Stride(m) == if m.Wide64? then 4 else if m.Wide32? then 2 else 1
  {
  }

  /** calc_table */
  method CalcTable(m: Machine, coefficient: Word, t: array<Word>)
    requires t.Length == 512
    modifies t
    ensures IsTable(t[..], coefficient)
  {
    match m
    case Wide64 => CalcTable64(coefficient, t);
    case Wide32 => CalcTable32(coefficient, t);
    case Wide16 => CalcTable16(coefficient, t);
  }

  /** gf16_lookup_muladd: coefficient times source, added word by word, whatever the machine. */
  method LookupMuladd(m: Machine, dst: array<Word>, src: seq<Word>, coefficient: Word)
    requires |src| % Stride(m) == 0 && |src| <= dst.Length
    modifies dst
    ensures forall k :: 0 <= k < |src| ==> dst[k] == Xor(Mul(coefficient, src[k]), old(dst[k]))
    ensures forall k :: |src| <= k < dst.Length ==> dst[k] == old(dst[k])
  {
    hide Mul, Xor, IsTable;
    var t := new Word[512];
    CalcTable(m, coefficient, t);
    match m
    case Wide64 => LookupMuladd64(dst, src, t, coefficient);
    case Wide32 => LookupMuladd32(dst, src, t, coefficient);
    case Wide16 => LookupMuladd16(dst, src, t, coefficient);
  }

  // Consecutive powers of one coefficient.

  function Power(c: Word, n: nat): Word { if n == 0 then One else Mul(c, Power(c, n - 1)) }

  lemma PowerNext(c: Word, n: nat, w: Word)
    ensures Power(c, n + 1) == Mul(c, Power(c, n))
    ensures Mul(c, Mul(Power(c, n), w)) == Mul(Power(c, n + 1), w)
    ensures Mul(Power(c, 1), w) == Mul(c, w)
  {
    hide Mul;
    MulAssoc(c, Power(c, n), w);
    assert Power(c, 1) == Mul(c, Power(c, 0));
    MulOne(c);
  }

  /** Four words of one output changed by a register. */
  method WriteXorRow(dst: array2<Word>, row: nat, at: nat, r0: Word, r1: Word, r2: Word, r3: Word)
    requires row < dst.Length0 && at + 4 <= dst.Length1
    modifies dst
    ensures dst[row, at] == Xor(r0, old(dst[row, at])) && dst[row, at + 1] == Xor(r1, old(dst[row, at + 1]))
    ensures dst[row, at + 2] == Xor(r2, old(dst[row, at + 2])) && dst[row, at + 3] == Xor(r3, old(dst[row, at + 3]))
    ensures forall o, k :: 0 <= o < dst.Length0 && 0 <= k < dst.Length1 && !(o == row && at <= k < at + 4) ==> dst[o, k] == old(dst[o, k])
  {
    hide Lane0, Lane1, Lane2, Lane3, XorReg, Pack4, Xor;
    var p := Pack4(dst[row, at], dst[row, at + 1], dst[row, at + 2], dst[row, at + 3]);
    PackLane0(dst[row, at], dst[row, at + 1], dst[row, at + 2], dst[row, at + 3]);
    PackLane1(dst[row, at], dst[row, at + 1], dst[row, at + 2], dst[row, at + 3]);
    PackLane2(dst[row, at], dst[row, at + 1], dst[row, at + 2], dst[row, at + 3]);
    PackLane3(dst[row, at], dst[row, at + 1], dst[row, at + 2], dst[row, at + 3]);
    PackLane0(r0, r1, r2, r3); PackLane1(r0, r1, r2, r3); PackLane2(r0, r1, r2, r3); PackLane3(r0, r1, r2, r3);
    var v := Pack4(r0, r1, r2, r3);
    XorLane0(v, p); XorLane1(v, p); XorLane2(v, p); XorLane3(v, p);
    var q := XorReg(v, p);
    dst[row, at], dst[row, at + 1], dst[row, at + 2], dst[row, at + 3] := Lane0(q), Lane1(q), Lane2(q), Lane3(q);
  }

  /** gf16_lookup_powadd: output o receives coefficient^(o+1) times the source, whatever the machine. */
  method LookupPowadd(m: Machine, outputs: nat, offset: nat, dst: array2<Word>, src: seq<Word>, len: nat, coefficient: Word)
    requires 1 <= outputs == dst.Length0 && len % Stride(m) == 0 && offset + len <= |src| && offset + len <= dst.Length1
    modifies dst
    ensures forall o, k :: 0 <= o < outputs && offset <= k < offset + len ==>
              dst[o, k] == Xor(Mul(Power(coefficient, o + 1), src[k]), old(dst[o, k]))
    ensures forall o, k :: 0 <= o < outputs && 0 <= k < dst.Length1 && !(offset <= k < offset + len) ==> dst[o, k] == old(dst[o, k])
  {
    hide Mul, Xor, IsTable, Power, Stride;
    var c := coefficient;
    var t := new Word[512];
    CalcTable(m, c, t);
    var ptr := 0;
    StrideIs(m);
    while ptr < len
      invariant 0 <= ptr <= len && ptr % Stride(m) == 0 && IsTable(t[..], c)
      invariant forall o, k :: 0 <= o < outputs && offset <= k < offset + ptr ==>
                  dst[o, k] == Xor(Mul(Power(c, o + 1), src[k]), old(dst[o, k]))
      invariant forall o, k :: 0 <= o < outputs && 0 <= k < dst.Length1 && !(offset <= k < offset + ptr) ==>
                  dst[o, k] == old(dst[o, k])
    {
      StrideNext(m, ptr, len);
      StrideIs(m);
      match m {
        case Wide64 => PowaddStep(outputs, offset + ptr, dst, src, t, c);
        case Wide32 => PowaddStep32(outputs, offset + ptr, dst, src, t, c);
        case Wide16 => PowaddStep16(outputs, offset + ptr, dst, src, t, c);
      }
      ptr := ptr + Stride(m);
    }
  }

  /** Four words of the source, for every output. */
  method PowaddStep(outputs: nat, at: nat, dst: array2<Word>, src: seq<Word>, t: array<Word>, ghost c: Word)
    requires 1 <= outputs == dst.Length0 && at + 4 <= |src| && at + 4 <= dst.Length1
    requires t.Length == 512 && IsTable(t[..], c) && t as object != dst as object
    modifies dst
    ensures IsTable(t[..], c)
    ensures forall o, k :: 0 <= o < outputs && at <= k < at + 4 ==>
              dst[o, k] == Xor(Mul(Power(c, o + 1), src[k]), old(dst[o, k]))
    ensures forall o, k :: 0 <= o < outputs && 0 <= k < dst.Length1 && !(at <= k < at + 4) ==> dst[o, k] == old(dst[o, k])
  {
    hide Mul, Xor, IsTable, Power;
    ghost var tab := t[..];
    var r0 := Look(t, c, src[at]);
    var r1 := Look(t, c, src[at + 1]);
    var r2 := Look(t, c, src[at + 2]);
    var r3 := Look(t, c, src[at + 3]);
    PowerNext(c, 0, src[at]); PowerNext(c, 0, src[at + 1]); PowerNext(c, 0, src[at + 2]); PowerNext(c, 0, src[at + 3]);
    WriteXorRow(dst, 0, at, r0, r1, r2, r3);
    assert t[..] == tab;
    var output := 1;
    while output < outputs
      invariant 1 <= output <= outputs && t[..] == tab
      invariant r0 == Mul(Power(c, output), src[at]) && r1 == Mul(Power(c, output), src[at + 1])
      invariant r2 == Mul(Power(c, output), src[at + 2]) && r3 == Mul(Power(c, output), src[at + 3])
      invariant forall o, k :: 0 <= o < output && at <= k < at + 4 ==>
                  dst[o, k] == Xor(Mul(Power(c, o + 1), src[k]), old(dst[o, k]))
      invariant forall o, k :: 0 <= o < outputs && 0 <= k < dst.Length1 && !(o < output && at <= k < at + 4) ==>
                  dst[o, k] == old(dst[o, k])
    {
      r0 := Look(t, c, r0);
      r1 := Look(t, c, r1);
      r2 := Look(t, c, r2);
      r3 := Look(t, c, r3);
      PowerNext(c, output, src[at]); PowerNext(c, output, src[at + 1]);
      PowerNext(c, output, src[at + 2]); PowerNext(c, output, src[at + 3]);
      WriteXorRow(dst, output, at, r0, r1, r2, r3);
      assert t[..] == tab;
      output := output + 1;
    }
  }

  /** Two words of one output changed by a register. */
  method WriteXorRow32(dst: array2<Word>, row: nat, at: nat, r0: Word, r1: Word)
    requires row < dst.Length0 && at + 2 <= dst.Length1
    modifies dst
    ensures dst[row, at] == Xor(r0, old(dst[row, at])) && dst[row, at + 1] == Xor(r1, old(dst[row, at + 1]))
    ensures forall o, k :: 0 <= o < dst.Length0 && 0 <= k < dst.Length1 && !(o == row && at <= k < at + 2) ==> dst[o, k] == old(dst[o, k])
  {
    hide Low, High, Xor32, Pack2, Xor;
    var p, v := Pack2(dst[row, at], dst[row, at + 1]), Pack2(r0, r1);
    PackLow(dst[row, at], dst[row, at + 1]); PackHigh(dst[row, at], dst[row, at + 1]);
    PackLow(r0, r1); PackHigh(r0, r1);
    XorLow(v, p); XorHigh(v, p);
    dst[row, at], dst[row, at + 1] := Low(Xor32(v, p)), High(Xor32(v, p));
  }

  /** The same for two words. */
  method PowaddStep32(outputs: nat, at: nat, dst: array2<Word>, src: seq<Word>, t: array<Word>, ghost c: Word)
    requires 1 <= outputs == dst.Length0 && at + 2 <= |src| && at + 2 <= dst.Length1
    requires t.Length == 512 && IsTable(t[..], c) && t as object != dst as object
    modifies dst
    ensures IsTable(t[..], c)
    ensures forall o, k :: 0 <= o < outputs && at <= k < at + 2 ==>
              dst[o, k] == Xor(Mul(Power(c, o + 1), src[k]), old(dst[o, k]))
    ensures forall o, k :: 0 <= o < outputs && 0 <= k < dst.Length1 && !(at <= k < at + 2) ==> dst[o, k] == old(dst[o, k])
  {
    hide Mul, Xor, IsTable, Power;
    ghost var tab := t[..];
    var r0 := Look(t, c, src[at]);
    var r1 := Look(t, c, src[at + 1]);
    PowerNext(c, 0, src[at]); PowerNext(c, 0, src[at + 1]);
    WriteXorRow32(dst, 0, at, r0, r1);
    assert t[..] == tab;
    var output := 1;
    while output < outputs
      invariant 1 <= output <= outputs && t[..] == tab
      invariant r0 == Mul(Power(c, output), src[at]) && r1 == Mul(Power(c, output), src[at + 1])
      invariant forall o, k :: 0 <= o < output && at <= k < at + 2 ==>
                  dst[o, k] == Xor(Mul(Power(c, o + 1), src[k]), old(dst[o, k]))
      invariant forall o, k :: 0 <= o < outputs && 0 <= k < dst.Length1 && !(o < output && at <= k < at + 2) ==>
                  dst[o, k] == old(dst[o, k])
    {
      r0 := Look(t, c, r0);
      r1 := Look(t, c, r1);
      PowerNext(c, output, src[at]); PowerNext(c, output, src[at + 1]);
      WriteXorRow32(dst, output, at, r0, r1);
      assert t[..] == tab;
      output := output + 1;
    }
  }

  /** And for one. */
  method PowaddStep16(outputs: nat, at: nat, dst: array2<Word>, src: seq<Word>, t: array<Word>, ghost c: Word)
    requires 1 <= outputs == dst.Length0 && at < |src| && at < dst.Length1
    requires t.Length == 512 && IsTable(t[..], c) && t as object != dst as object
    modifies dst
    ensures IsTable(t[..], c)
    ensures forall o, k :: 0 <= o < outputs && at <= k < at + 1 ==>
              dst[o, k] == Xor(Mul(Power(c, o + 1), src[k]), old(dst[o, k]))
    ensures forall o, k :: 0 <= o < outputs && 0 <= k < dst.Length1 && !(at <= k < at + 1) ==> dst[o, k] == old(dst[o, k])
  {
    hide Mul, Xor, IsTable, Power;
    ghost var tab := t[..];
    var data := src[at];
    PowerNone(c, data);
    var output := 0;
    while output < outputs
      invariant 0 <= output <= outputs && t[..] == tab && data == Mul(Power(c, output), src[at])
      invariant forall o :: 0 <= o < output ==> dst[o, at] == Xor(Mul(Power(c, o + 1), src[at]), old(dst[o, at]))
      invariant forall o, k :: 0 <= o < outputs && 0 <= k < dst.Length1 && !(o < output && k == at) ==> dst[o, k] == old(dst[o, k])
    {
      data := Look(t, c, data);
      PowerNext(c, output, src[at]);
      dst[output, at] := Xor(data, dst[output, at]);
      assert t[..] == tab;
      output := output + 1;
    }
  }

  lemma PowerNone(c: Word, w: Word)
    ensures Mul(Power(c, 0), w) == w
  {
    hide Mul;
    MulOne(w);
  }
}
