/**
 The bit-dependency table of the XOR methods: for every nibble of a coefficient, the sixteen rows
 that say which input bits each output bit depends on.  Row and bit i stand for bit 15 - i of a word.
 */
module BitDep {
  import opened Arith
  import opened Field
  import C = ChecksumGeneric
  import K = Clmul
  import T = Lookup

  /** One bit of every kind: entry i is bit 15 - i. */
  type Bits = b: seq<bool> | |b| == 16 witness seq(16, _ => false)

  /** A 16 by 16 matrix: row i holds, in bit j, whether output i depends on input j. */
  type Rows = m: seq<Word> | |m| == 16 witness seq(16, _ => Zero)

  function XorBits(a: Bits, b: Bits): Bits { seq(16, i requires 0 <= i < 16 => a[i] != b[i]) }

  function NoBits(): Bits { seq(16, _ => false) }

  function XorRows(a: Rows, b: Rows): Rows { seq(16, i requires 0 <= i < 16 => Xor(a[i], b[i])) }

  function NoRows(): Rows { seq(16, _ => Zero) }

  /** addvals: the matrix that leaves a word as it is. */
  function Unit(): Rows { seq(16, i requires 0 <= i < 16 => Exp(i)) }

  // What a matrix does.

  /** The sum of those of the first n inputs that the row names. */
  function Dot(m: Word, x: Bits, n: nat): bool
    requires n <= 16
    decreases n
  {
    n > 0 && (Dot(m, x, n - 1) != (Odd(HalfBy(m, n - 1)) && x[n - 1]))
  }

  function Apply(m: Rows, x: Bits): Bits { seq(16, i requires 0 <= i < 16 => Dot(m[i], x, 16)) }

  lemma {:induction false} DotXor(a: Word, b: Word, x: Bits, n: nat)
    requires n <= 16
    ensures Dot(Xor(a, b), x, n) == (Dot(a, x, n) != Dot(b, x, n))
    decreases n
  {
    hide Xor, Odd, HalfBy;
    if n > 0 {
      DotXor(a, b, x, n - 1);
      C.HalfByXor(a, b, n - 1);
      OddXor(HalfBy(a, n - 1), HalfBy(b, n - 1));
    }
  }

  lemma {:induction false} DotZero(x: Bits, n: nat)
    requires n <= 16
    ensures !Dot(Zero, x, n)
    decreases n
  {
    hide Odd, HalfBy;
    if n > 0 {
      DotZero(x, n - 1);
      C.HalfByZero(n - 1);
      C.TopEven();
    }
  }

  lemma ApplyXor(a: Rows, b: Rows, x: Bits)
    ensures Apply(XorRows(a, b), x) == XorBits(Apply(a, x), Apply(b, x))
  {
    hide Xor, Dot;
    forall i | 0 <= i < 16 ensures Apply(XorRows(a, b), x)[i] == XorBits(Apply(a, x), Apply(b, x))[i] {
      DotXor(a[i], b[i], x, 16);
    }
  }

  lemma ApplyZero(x: Bits)
    ensures Apply(NoRows(), x) == NoBits()
  {
    hide Dot;
    DotZero(x, 16);
  }

  lemma HalfExp(n: nat)
    requires n < 15
    ensures Half(Exp(n + 1)) == Exp(n) && !Odd(Exp(n + 1))
  {
    hide Half, Odd, Shift;
    K.PowerValues();
    C.TopHalves();
    C.TopEven();
  }

  lemma {:induction false} UnitBit(i: nat, k: nat)
    requires i < 16
    ensures Odd(HalfBy(Exp(i), k)) == (k == i)
    decreases k
  {
    hide Half, Odd, Shift;
    C.TopEven();
    if i == 0 {
      ExpStep(0);
      K.OneHalves();
      if k > 0 { C.HalfByZero(k - 1); }
    } else {
      HalfExp(i - 1);
      if k > 0 { UnitBit(i - 1, k - 1); }
    }
  }

  lemma {:induction false} DotUnit(i: nat, x: Bits, n: nat)
    requires i < 16 && n <= 16
    ensures Dot(Exp(i), x, n) == (i < n && x[i])
    decreases n
  {
    hide Odd, HalfBy, Shift;
    if n > 0 {
      DotUnit(i, x, n - 1);
      UnitBit(i, n - 1);
    }
  }

  lemma ApplyUnit(x: Bits)
    ensures Apply(Unit(), x) == x
  {
    hide Dot, Shift;
    forall i | 0 <= i < 16 ensures Apply(Unit(), x)[i] == x[i] { DotUnit(i, x, 16); }
  }

  // Doubling, for any polynomial.

  /** Multiplying a word by two, bit by bit; poly says which bits the polynomial has. */
  function DoubleBits(poly: Bits, x: Bits): Bits {
    seq(16, i requires 0 <= i < 16 => (i < 15 && x[i + 1]) != (poly[i] && x[0]))
  }

  /** The rotate-and-XOR step of the table builder. */
  function DoubleRows(poly: Bits, m: Rows): Rows {
    seq(16, i requires 0 <= i < 16 => Xor(if i < 15 then m[i + 1] else Zero, Pick(poly[i], m[0])))
  }

  lemma ApplyDouble(poly: Bits, m: Rows, x: Bits)
    ensures Apply(DoubleRows(poly, m), x) == DoubleBits(poly, Apply(m, x))
  {
    hide Xor, Dot;
    DotZero(x, 16);
    forall i | 0 <= i < 16 ensures Apply(DoubleRows(poly, m), x)[i] == DoubleBits(poly, Apply(m, x))[i] {
      DotXor(if i < 15 then m[i + 1] else Zero, Pick(poly[i], m[0]), x, 16);
    }
  }

  lemma DoubleXor(poly: Bits, x: Bits, y: Bits)
    ensures DoubleBits(poly, XorBits(x, y)) == XorBits(DoubleBits(poly, x), DoubleBits(poly, y))
    ensures DoubleBits(poly, NoBits()) == NoBits()
  {
  }

  function DoubleBy(poly: Bits, x: Bits, n: nat): Bits
    decreases n
  {
    if n == 0 then x else DoubleBits(poly, DoubleBy(poly, x, n - 1))
  }

  lemma {:induction false} DoubleByXor(poly: Bits, x: Bits, y: Bits, n: nat)
    ensures DoubleBy(poly, XorBits(x, y), n) == XorBits(DoubleBy(poly, x, n), DoubleBy(poly, y, n))
    ensures DoubleBy(poly, NoBits(), n) == NoBits()
    decreases n
  {
    hide DoubleBits, XorBits;
    if n > 0 {
      DoubleByXor(poly, x, y, n - 1);
      DoubleXor(poly, DoubleBy(poly, x, n - 1), DoubleBy(poly, y, n - 1));
    }
  }

  lemma {:induction false} DoubleByAdd(poly: Bits, x: Bits, m: nat, n: nat)
    ensures DoubleBy(poly, x, m + n) == DoubleBy(poly, DoubleBy(poly, x, m), n)
    decreases n
  {
    hide DoubleBits;
    if n > 0 { DoubleByAdd(poly, x, m, n - 1); }
  }

  /** The product by the first n bits of a coefficient (lowest first). */
  function Product(poly: Bits, c: seq<bool>, x: Bits, n: nat): Bits
    requires n <= |c|
    decreases n
  {
    if n == 0 then NoBits()
    else XorBits(Product(poly, c, x, n - 1), if c[n - 1] then DoubleBy(poly, x, n - 1) else NoBits())
  }

  // The table.

  /** Bits of a nibble, lowest first. */
  function Nibble(val: nat): (c: seq<bool>)
    ensures |c| == 4
  {
    [val % 2 == 1, val / 2 % 2 == 1, val / 4 % 2 == 1, val / 8 % 2 == 1]
  }

  /** The four products by val, val * 16, val * 256 and val * 4096, as matrices. */
  ghost predicate IsEntry(poly: Bits, entry: Rows, val: nat, j: nat) {
    forall x: Bits :: Apply(entry, x) == DoubleBy(poly, Product(poly, Nibble(val), x, 4), 4 * j)
  }

  lemma XorBitsLaws(a: Bits, b: Bits, c: Bits)
    ensures XorBits(a, NoBits()) == a && XorBits(a, b) == XorBits(b, a)
    ensures XorBits(XorBits(a, b), c) == XorBits(a, XorBits(b, c))
  {
  }

  /** One step of Horner's rule on the rows. */
  function Horner(poly: Bits, m: Rows, bit: bool): Rows {
    XorRows(DoubleRows(poly, m), if bit then Unit() else NoRows())
  }

  lemma ApplyHorner(poly: Bits, m: Rows, bit: bool, x: Bits)
    ensures Apply(Horner(poly, m, bit), x) == XorBits(DoubleBits(poly, Apply(m, x)), if bit then x else NoBits())
  {
    hide Apply, XorRows, DoubleRows, XorBits, DoubleBits, Unit;
    ApplyXor(DoubleRows(poly, m), if bit then Unit() else NoRows(), x);
    ApplyDouble(poly, m, x);
    ApplyUnit(x);
    ApplyZero(x);
  }

  /** Horner's rule over four bits gives the nibble's product. */
  lemma HornerFour(poly: Bits, c: seq<bool>, x: Bits)
    requires |c| == 4
    ensures var a3 := if c[3] then x else NoBits();
            var a2 := XorBits(DoubleBits(poly, a3), if c[2] then x else NoBits());
            var a1 := XorBits(DoubleBits(poly, a2), if c[1] then x else NoBits());
            var a0 := XorBits(DoubleBits(poly, a1), if c[0] then x else NoBits());
            a0 == Product(poly, c, x, 4)
  {
    hide XorBits, DoubleBits, NoBits;
    var b3, b2 := if c[3] then x else NoBits(), if c[2] then x else NoBits();
    var b1, b0 := if c[1] then x else NoBits(), if c[0] then x else NoBits();
    var d3, d2, r := DoubleBits(poly, b3), DoubleBits(poly, b2), DoubleBits(poly, b1);
    var dd3, q := DoubleBits(poly, d3), DoubleBits(poly, d2);
    var p := DoubleBits(poly, dd3);
    DoubleXor(poly, d3, b2);
    DoubleXor(poly, XorBits(dd3, d2), b1);
    DoubleXor(poly, dd3, d2);
    ProductFour(poly, c, x);
    DoubleNothing(poly);
    XorBitsLaws(XorBits(p, q), r, b0);
    Reverse(p, q, r, b0);
  }

  lemma DoubleNothing(poly: Bits)
    ensures DoubleBits(poly, NoBits()) == NoBits()
  {
    DoubleXor(poly, NoBits(), NoBits());
  }

  lemma Reverse(p: Bits, q: Bits, r: Bits, s: Bits)
    ensures XorBits(XorBits(XorBits(p, q), r), s) == XorBits(XorBits(XorBits(XorBits(NoBits(), s), r), q), p)
  {
  }

  lemma ProductFour(poly: Bits, c: seq<bool>, x: Bits)
    requires |c| == 4
    ensures var b3, b2 := if c[3] then x else NoBits(), if c[2] then x else NoBits();
            var b1, b0 := if c[1] then x else NoBits(), if c[0] then x else NoBits();
            Product(poly, c, x, 4)
            == XorBits(XorBits(XorBits(XorBits(NoBits(), b0), DoubleBits(poly, b1)), DoubleBits(poly, DoubleBits(poly, b2))),
                       DoubleBits(poly, DoubleBits(poly, DoubleBits(poly, b3))))
  {
    hide XorBits, DoubleBits, NoBits;
    DoubleNothing(poly);
    assert DoubleBy(poly, x, 1) == DoubleBits(poly, DoubleBy(poly, x, 0));
    assert DoubleBy(poly, x, 2) == DoubleBits(poly, DoubleBy(poly, x, 1));
    assert DoubleBy(poly, x, 3) == DoubleBits(poly, DoubleBy(poly, x, 2));
    assert Product(poly, c, x, 1) == XorBits(Product(poly, c, x, 0), if c[0] then DoubleBy(poly, x, 0) else NoBits());
    assert Product(poly, c, x, 2) == XorBits(Product(poly, c, x, 1), if c[1] then DoubleBy(poly, x, 1) else NoBits());
    assert Product(poly, c, x, 3) == XorBits(Product(poly, c, x, 2), if c[2] then DoubleBy(poly, x, 2) else NoBits());
    assert Product(poly, c, x, 4) == XorBits(Product(poly, c, x, 3), if c[3] then DoubleBy(poly, x, 3) else NoBits());
  }

  // Building the table.

  /** dep computes the product by the nibble val, doubled n times. */
  ghost predicate Spans(poly: Bits, dep: Rows, val: nat, n: nat) {
    forall x: Bits :: Apply(dep, x) == DoubleBy(poly, Product(poly, Nibble(val), x, 4), n)
  }

  lemma SpansNext(poly: Bits, dep: Rows, val: nat, n: nat)
    requires Spans(poly, dep, val, n)
    ensures Spans(poly, DoubleRows(poly, dep), val, n + 1)
  {
    hide Apply, DoubleRows, DoubleBits, Product, Nibble;
    forall x: Bits ensures Apply(DoubleRows(poly, dep), x) == DoubleBy(poly, Product(poly, Nibble(val), x, 4), n + 1) {
      ApplyDouble(poly, dep, x);
    }
  }

  /** The rows after i rounds of Horner's rule over the bits of val. */
  ghost function Build(poly: Bits, val: nat, i: nat): Rows
    requires i <= 3
    decreases i
  {
    if i == 0 then (if Nibble(val)[3] then Unit() else NoRows())
    else Horner(poly, Build(poly, val, i - 1), Nibble(val)[3 - i])
  }

  lemma BuildSpans(poly: Bits, val: nat)
    ensures Spans(poly, Build(poly, val, 3), val, 0)
  {
    hide Apply, Horner, Unit, NoRows, XorBits, DoubleBits, NoBits;
    var c := Nibble(val);
    forall x: Bits ensures Apply(Build(poly, val, 3), x) == DoubleBy(poly, Product(poly, c, x, 4), 0) {
      ApplyUnit(x);
      ApplyZero(x);
      ApplyHorner(poly, Build(poly, val, 0), c[2], x);
      ApplyHorner(poly, Build(poly, val, 1), c[1], x);
      ApplyHorner(poly, Build(poly, val, 2), c[0], x);
      HornerFour(poly, c, x);
    }
  }

  /** valtest after i rounds: val moved up to the top of a 16-bit lane, then i more places. */
  function Test(val: nat, i: nat): nat { val * (if i == 0 then 4096 else if i == 1 then 8192 else if i == 2 then 16384 else 32768) % 65536 }

  /** The sign of valtest selects the bits of val from the top. */
  lemma TestBit(val: nat, i: nat)
    requires val < 16 && i < 4
    ensures (Test(val, i) >= 32768) == Nibble(val)[3 - i]
  {
  }

  lemma TestNext(val: nat, i: nat)
    requires val < 16 && i < 3
    ensures (Test(val, i) + Test(val, i)) % 65536 == Test(val, i + 1)
  {
  }

  lemma TestFirst(val: nat)
    requires val < 16
    ensures val * 4096 == Test(val, 0)
  {
  }

  lemma XorNothing(m: Rows)
    ensures XorRows(m, NoRows()) == m
  {
    forall i | 0 <= i < 16 ensures XorRows(m, NoRows())[i] == m[i] { XorLaws(m[i], Zero); }
  }

  method InitTable(dst: array<Rows>, poly: Bits)
    requires dst.Length == 64
    modifies dst
    ensures IsTable(poly, dst[..], 64)
  {
    hide Unit, NoRows, DoubleRows, XorRows, IsEntry, IsTable, Nibble, Spans;
    TableEmpty(poly, dst[..]);
    var val: int := 0;
    while val < 16
      invariant 0 <= val <= 16
      invariant IsTable(poly, dst[..], val * 4)
    {
      var dep := InitEntry(poly, val);
      SpansIsEntry(poly, dep, val, 0);
      TableNext(poly, dst[..], dep, val, 0);
      dst[val * 4] := dep;
      var j: int := 1;
      while j < 4
        invariant 1 <= j <= 4
        invariant Spans(poly, dep, val, 4 * (j - 1))
        invariant IsTable(poly, dst[..], val * 4 + j)
      {
        var i: int := 0;
        while i < 4
          invariant 0 <= i <= 4
          invariant Spans(poly, dep, val, 4 * (j - 1) + i)
          invariant IsTable(poly, dst[..], val * 4 + j)
        {
          SpansNext(poly, dep, val, 4 * (j - 1) + i);
          dep := DoubleRows(poly, dep);
          i := i + 1;
        }
        SpansIsEntry(poly, dep, val, j);
        TableNext(poly, dst[..], dep, val, j);
        dst[val * 4 + j] := dep;
        j := j + 1;
      }
      val := val + 1;
    }
  }

  /** The first n of the 64 entries, four to a nibble, are right. */
  ghost predicate IsTable(poly: Bits, table: seq<Rows>, n: nat) {
    n <= |table| == 64 && forall k: nat :: k < n ==> IsEntry(poly, table[k], k / 4, k % 4)
  }

  lemma TableEmpty(poly: Bits, table: seq<Rows>)
    requires |table| == 64
    ensures IsTable(poly, table, 0)
  {
  }

  lemma TableNext(poly: Bits, table: seq<Rows>, entry: Rows, val: nat, j: nat)
    requires |table| == 64 && val < 16 && j < 4
    requires IsTable(poly, table, val * 4 + j) && IsEntry(poly, entry, val, j)
    ensures IsTable(poly, table[val * 4 + j := entry], val * 4 + j + 1)
  {
    hide IsEntry;
    assert (val * 4 + j) / 4 == val && (val * 4 + j) % 4 == j;
  }

  lemma SpansIsEntry(poly: Bits, dep: Rows, val: nat, j: nat)
    requires Spans(poly, dep, val, 4 * j)
    ensures IsEntry(poly, dep, val, j)
  {
    hide Apply, DoubleBy, Product, Nibble;
  }

  /** The rounds that make the first of the four matrices of a nibble. */
  method InitEntry(poly: Bits, val: nat) returns (dep: Rows)
    requires val < 16
    ensures Spans(poly, dep, val, 0)
  {
    hide Unit, NoRows, DoubleRows, XorRows, Spans, Nibble, Test;
    TestFirst(val);
    TestBit(val, 0);
    var valtest: int := val * 4096;
    var addmask := valtest >= 32768;
    dep := if addmask then Unit() else NoRows();
    var i: int := 0;
    while i < 3
      invariant 0 <= i <= 3
      invariant valtest == Test(val, i)
      invariant dep == Build(poly, val, i)
    {
      TestNext(val, i);
      TestBit(val, i + 1);
      dep := DoubleRows(poly, dep);
      valtest := (valtest + valtest) % 65536;
      addmask := valtest >= 32768;
      XorNothing(dep);
      dep := XorRows(dep, if addmask then Unit() else NoRows());
      i := i + 1;
    }
    BuildSpans(poly, val);
  }

  // The matrix of a coefficient.

  /** The bits of a 16-bit coefficient, lowest first, taken a nibble at a time. */
  function CoefficientBits(val: nat): (c: seq<bool>)
    ensures |c| == 16
  {
    Nibble(val % 16) + Nibble(val / 16 % 16) + Nibble(val / 256 % 16) + Nibble(val / 4096 % 16)
  }

  /** The entries of the four nibbles, XORed as the code generator does. */
  function DepMask(table: seq<Rows>, val: nat): Rows
    requires |table| == 64 && val < 65536
  {
    XorRows(XorRows(XorRows(table[val % 16 * 4], table[val / 16 % 16 * 4 + 1]), table[val / 256 % 16 * 4 + 2]),
            table[val / 4096 % 16 * 4 + 3])
  }

  lemma {:induction false} ProductAppend(poly: Bits, c: seq<bool>, d: seq<bool>, x: Bits, n: nat)
    requires n <= |d|
    ensures Product(poly, c + d, x, |c| + n)
         == XorBits(Product(poly, c, x, |c|), DoubleBy(poly, Product(poly, d, x, n), |c|))
    decreases n
  {
    hide XorBits, DoubleBits, NoBits, DoubleBy;
    var p := Product(poly, c, x, |c|);
    DoubleByXor(poly, NoBits(), NoBits(), |c|);
    if n == 0 {
      ProductPrefix(poly, c, d, x, |c|);
      XorBitsLaws(p, p, p);
    } else {
      ProductAppend(poly, c, d, x, n - 1);
      var q, t := Product(poly, d, x, n - 1), if d[n - 1] then DoubleBy(poly, x, n - 1) else NoBits();
      DoubleByXor(poly, q, t, |c|);
      DoubleByAdd(poly, x, n - 1, |c|);
      assert (c + d)[|c| + n - 1] == d[n - 1];
      XorBitsLaws(p, DoubleBy(poly, q, |c|), DoubleBy(poly, t, |c|));
    }
  }

  lemma {:induction false} ProductPrefix(poly: Bits, c: seq<bool>, d: seq<bool>, x: Bits, n: nat)
    requires n <= |c|
    ensures Product(poly, c + d, x, n) == Product(poly, c, x, n)
    decreases n
  {
    hide XorBits, DoubleBy, NoBits;
    if n > 0 { ProductPrefix(poly, c, d, x, n - 1); }
  }

  lemma EntryMeans(poly: Bits, table: seq<Rows>, v: nat, j: nat, x: Bits)
    requires IsTable(poly, table, 64) && v < 16 && j < 4
    ensures Apply(table[v * 4 + j], x) == DoubleBy(poly, Product(poly, Nibble(v), x, 4), 4 * j)
  {
    hide Apply, DoubleBy, Product, Nibble;
    assert (v * 4 + j) / 4 == v && (v * 4 + j) % 4 == j;
  }

  /** For every polynomial: the four entries a coefficient selects make its multiplication matrix. */
  lemma DepMaskIsProduct(poly: Bits, table: seq<Rows>, val: nat, x: Bits)
    requires |table| == 64 && IsTable(poly, table, 64) && val < 65536
    ensures Apply(DepMask(table, val), x) == Product(poly, CoefficientBits(val), x, 16)
  {
    hide Apply, DoubleBy, Product, Nibble, XorBits, XorRows, IsTable;
    var n0, n1, n2, n3 := val % 16, val / 16 % 16, val / 256 % 16, val / 4096 % 16;
    var t0, t1, t2, t3 := table[n0 * 4], table[n1 * 4 + 1], table[n2 * 4 + 2], table[n3 * 4 + 3];
    EntryMeans(poly, table, n0, 0, x);
    EntryMeans(poly, table, n1, 1, x);
    EntryMeans(poly, table, n2, 2, x);
    EntryMeans(poly, table, n3, 3, x);
    ApplyXor(t0, t1, x);
    ApplyXor(XorRows(t0, t1), t2, x);
    ApplyXor(XorRows(XorRows(t0, t1), t2), t3, x);
    ProductAppend(poly, Nibble(n0), Nibble(n1), x, 4);
    ProductAppend(poly, Nibble(n0) + Nibble(n1), Nibble(n2), x, 4);
    ProductAppend(poly, Nibble(n0) + Nibble(n1) + Nibble(n2), Nibble(n3), x, 4);
    DoubleByNone(poly, Product(poly, Nibble(n0), x, 4));
  }

  lemma DoubleByNone(poly: Bits, x: Bits)
    ensures DoubleBy(poly, x, 0) == x
  {
  }

  // The field of the 0x1100B polynomial.

  /** The word with the first n bits of c, lowest first. */
  function SumBits(c: seq<bool>, n: nat): Word
    requires n <= |c|
    decreases n
  {
    if n == 0 then Zero else Xor(SumBits(c, n - 1), Pick(c[n - 1], Exp(n - 1)))
  }

  function Reversed(x: Bits): (c: Bits) { seq(16, i requires 0 <= i < 16 => x[15 - i]) }

  function WordOf(x: Bits): Word { SumBits(Reversed(x), 16) }

  function BitsOf(w: Word): Bits { seq(16, i requires 0 <= i < 16 => Odd(HalfBy(w, 15 - i))) }

  /** The bits of 0x100B, highest first. */
  function Polynomial(): Bits { seq(16, i requires 0 <= i < 16 => i == 3 || i == 12 || i == 14 || i == 15) }

  lemma {:induction false} SumBitsXor(a: Bits, b: Bits, n: nat)
    requires n <= 16
    ensures SumBits(XorBits(a, b), n) == Xor(SumBits(a, n), SumBits(b, n))
    decreases n
  {
    hide Xor, Shift;
    XorLaws(Zero, Zero);
    if n > 0 {
      SumBitsXor(a, b, n - 1);
      var e := Exp(n - 1);
      XorLaws(e, Zero);
      XorLaws(Zero, e);
      XorSwap(SumBits(a, n - 1), Pick(a[n - 1], e), SumBits(b, n - 1), Pick(b[n - 1], e));
    }
  }

  lemma WordOfXor(a: Bits, b: Bits)
    ensures WordOf(XorBits(a, b)) == Xor(WordOf(a), WordOf(b))
  {
    hide Xor, SumBits;
    assert Reversed(XorBits(a, b)) == XorBits(Reversed(a), Reversed(b));
    SumBitsXor(Reversed(a), Reversed(b), 16);
  }

  lemma {:induction false} SumNoBits(c: seq<bool>, n: nat)
    requires n <= |c| && forall i :: 0 <= i < n ==> !c[i]
    ensures SumBits(c, n) == Zero
    decreases n
  {
    hide Xor, Shift;
    XorLaws(Zero, Zero);
    if n > 0 { SumNoBits(c, n - 1); }
  }

  /** Doubling without the polynomial moves every bit up by one. */
  lemma {:induction false} SumUp(c: seq<bool>, d: seq<bool>, n: nat)
    requires n < |d| && n <= |c| && !d[0] && forall i :: 0 <= i < n ==> d[i + 1] == c[i]
    ensures SumBits(d, n + 1) == Double(SumBits(c, n))
    decreases n
  {
    hide Xor, Double, Shift;
    DoubleConstants();
    XorLaws(Zero, Zero);
    ExpStep(if n > 0 then n - 1 else 0);
    if n == 0 {
      assert SumBits(d, 1) == Xor(SumBits(d, 0), Pick(d[0], Exp(0)));
    } else {
      SumUp(c, d, n - 1);
      DoubleLinear(SumBits(c, n - 1), Pick(c[n - 1], Exp(n - 1)));
    }
  }

  lemma PolynomialWord()
    ensures SumBits(Reversed(Polynomial()), 16) == Exp(16)
  {
    hide Shift;
    K.PowerValues();
    var c := Reversed(Polynomial());
    assert SumBits(c, 1) == Xor(SumBits(c, 0), Pick(c[0], Exp(0)));
    assert SumBits(c, 1) == Word(0x1);
    assert SumBits(c, 2) == Word(0x3);
    assert SumBits(c, 3) == Word(0x3);
    assert SumBits(c, 4) == Word(0xB);
    assert SumBits(c, 5) == Word(0xB);
    assert SumBits(c, 6) == Word(0xB);
    assert SumBits(c, 7) == Word(0xB);
    assert SumBits(c, 8) == Word(0xB);
    assert SumBits(c, 9) == Word(0xB);
    assert SumBits(c, 10) == Word(0xB);
    assert SumBits(c, 11) == Word(0xB);
    assert SumBits(c, 12) == Word(0xB);
    assert SumBits(c, 13) == Word(0x100B);
    assert SumBits(c, 14) == Word(0x100B);
    assert SumBits(c, 15) == Word(0x100B);
  }

  /** Dropping the top bit before the move up, then adding the polynomial. */
  lemma WordOfDouble(x: Bits)
    ensures WordOf(DoubleBits(Polynomial(), x)) == Double(WordOf(x))
  {
    hide Xor, Double, Shift, SumBits;
    var c := Reversed(x);
    var d := seq(16, i requires 0 <= i < 16 => i > 0 && c[i - 1]);
    var p: Bits := if x[0] then Polynomial() else NoBits();
    assert Reversed(DoubleBits(Polynomial(), x)) == XorBits(d, Reversed(p));
    SumBitsXor(d, Reversed(p), 16);
    SumUp(c, d, 15);
    SumLast(c);
    ExpStep(15);
    DoubleLinear(SumBits(c, 15), Pick(c[15], Exp(15)));
    DoubleConstants();
    PolynomialWord();
    if !x[0] { SumNoBits(Reversed(p), 16); }
  }

  lemma SumLast(c: Bits)
    ensures SumBits(c, 16) == Xor(SumBits(c, 15), Pick(c[15], Exp(15)))
  {
    hide Xor, Shift;
  }

  lemma {:induction false} WordOfDoubleBy(x: Bits, n: nat)
    ensures WordOf(DoubleBy(Polynomial(), x, n)) == Shift(WordOf(x), n)
    decreases n
  {
    hide WordOf, DoubleBits, Double;
    if n > 0 {
      WordOfDoubleBy(x, n - 1);
      WordOfDouble(DoubleBy(Polynomial(), x, n - 1));
    }
  }

  lemma WordOfNone()
    ensures WordOf(NoBits()) == Zero
  {
    SumNoBits(Reversed(NoBits()), 16);
  }

  lemma {:induction false} WordOfProduct(c: seq<bool>, x: Bits, n: nat)
    requires n <= |c|
    ensures WordOf(Product(Polynomial(), c, x, n)) == Mul(SumBits(c, n), WordOf(x))
    decreases n
  {
    hide WordOf, DoubleBits, Double, Xor, Shift, Mul, XorBits, DoubleBy;
    var w := WordOf(x);
    WordOfNone();
    MulComm(Zero, w);
    MulZero(w);
    if n > 0 {
      WordOfProduct(c, x, n - 1);
      WordOfDoubleBy(x, n - 1);
      var t := if c[n - 1] then DoubleBy(Polynomial(), x, n - 1) else NoBits();
      WordOfXor(Product(Polynomial(), c, x, n - 1), t);
      MulLinear(SumBits(c, n - 1), Pick(c[n - 1], Exp(n - 1)), w);
      MulExp(w, n - 1);
      MulComm(w, Exp(n - 1));
    }
  }

  // Coefficients as words.

  /** The number in the first n bits. */
  function Number(c: seq<bool>, n: nat): nat
    requires n <= |c|
    decreases n
  {
    if n == 0 then 0 else Number(c, n - 1) + if c[n - 1] then PowerOfTwo(n - 1) else 0
  }

  lemma {:induction false} SumIsNumber(c: seq<bool>, n: nat)
    requires n <= |c|
    ensures Number(c, n) < PowerOfTwo(n) && SumBits(c, n) == T.FromNat(Number(c, n))
    decreases n
  {
    hide Xor, Shift, Double;
    if n > 0 {
      SumIsNumber(c, n - 1);
      T.FromNatAdd(Number(c, n - 1), n - 1);
      XorLaws(SumBits(c, n - 1), Zero);
    }
  }

  lemma {:induction false} NumberAppend(c: seq<bool>, d: seq<bool>, n: nat)
    requires n <= |d|
    ensures Number(c + d, |c| + n) == Number(c, |c|) + PowerOfTwo(|c|) * Number(d, n)
    decreases n
  {
    hide PowerOfTwo;
    if n == 0 {
      NumberPrefix(c, d, |c|);
    } else {
      NumberAppend(c, d, n - 1);
      T.PowerSum(|c|, n - 1);
      assert (c + d)[|c| + n - 1] == d[n - 1];
      Distribute(Number(d, n - 1), if d[n - 1] then PowerOfTwo(n - 1) else 0, PowerOfTwo(|c|));
    }
  }

  lemma {:induction false} NumberPrefix(c: seq<bool>, d: seq<bool>, n: nat)
    requires n <= |c|
    ensures Number(c + d, n) == Number(c, n)
    decreases n
  {
    if n > 0 { NumberPrefix(c, d, n - 1); }
  }

  lemma NibbleNumber(val: nat)
    requires val < 16
    ensures Number(Nibble(val), 4) == val
  {
    var c := Nibble(val);
    assert PowerOfTwo(0) == 1 && PowerOfTwo(1) == 2 && PowerOfTwo(2) == 4 && PowerOfTwo(3) == 8;
    assert Number(c, 1) == Number(c, 0) + if c[0] then 1 else 0;
    assert Number(c, 2) == Number(c, 1) + if c[1] then 2 else 0;
    assert Number(c, 3) == Number(c, 2) + if c[2] then 4 else 0;
  }

  lemma NibblePowers()
    ensures PowerOfTwo(4) == 16 && PowerOfTwo(8) == 256 && PowerOfTwo(12) == 4096
  {
  }

  lemma Digits(val: nat)
    requires val < 65536
    ensures val == val % 16 + 16 * (val / 16 % 16) + 256 * (val / 256 % 16) + 4096 * (val / 4096 % 16)
  {
  }

  lemma CoefficientWord(val: nat)
    requires val < 65536
    ensures SumBits(CoefficientBits(val), 16) == T.FromNat(val)
  {
    hide Nibble, Number, SumBits, T.FromNat, PowerOfTwo;
    var n0, n1, n2, n3 := val % 16, val / 16 % 16, val / 256 % 16, val / 4096 % 16;
    NibbleNumber(n0); NibbleNumber(n1); NibbleNumber(n2); NibbleNumber(n3);
    NumberAppend(Nibble(n0), Nibble(n1), 4);
    NumberAppend(Nibble(n0) + Nibble(n1), Nibble(n2), 4);
    NumberAppend(Nibble(n0) + Nibble(n1) + Nibble(n2), Nibble(n3), 4);
    NibblePowers();
    Digits(val);
    SumIsNumber(CoefficientBits(val), 16);
  }

  /** With the field's polynomial, the matrix of a coefficient multiplies words by it. */
  lemma DepMaskMultiplies(table: seq<Rows>, val: nat, x: Bits)
    requires |table| == 64 && IsTable(Polynomial(), table, 64) && val < 65536
    ensures WordOf(Apply(DepMask(table, val), x)) == Mul(T.FromNat(val), WordOf(x))
  {
    hide WordOf, Apply, DepMask, IsTable, Product, CoefficientBits, SumBits, Mul;
    DepMaskIsProduct(Polynomial(), table, val, x);
    WordOfProduct(CoefficientBits(val), x, 16);
    CoefficientWord(val);
  }

  // No row of a non-zero coefficient is empty.

  lemma {:induction false} BitOfSum(c: seq<bool>, n: nat, k: nat)
    requires n <= |c| && n <= 16
    ensures Odd(HalfBy(SumBits(c, n), k)) == (k < n && c[k])
    decreases n
  {
    hide Odd, HalfBy, Xor, Shift;
    C.HalfByZero(k);
    C.TopEven();
    if n > 0 {
      BitOfSum(c, n - 1, k);
      var p := Pick(c[n - 1], Exp(n - 1));
      C.HalfByXor(SumBits(c, n - 1), p, k);
      OddXor(HalfBy(SumBits(c, n - 1), k), HalfBy(p, k));
      UnitBit(n - 1, k);
    }
  }

  lemma CoefficientNotZero(val: nat)
    requires 0 < val < 65536
    ensures T.FromNat(val) != Zero
  {
    hide Nibble, SumBits, T.FromNat, Odd, HalfBy, Number;
    var c := CoefficientBits(val);
    CoefficientWord(val);
    if T.FromNat(val) == Zero {
      C.TopEven();
      forall k | 0 <= k < 16 ensures !c[k] {
        BitOfSum(c, 16, k);
        C.HalfByZero(k);
      }
      NoNibble(val % 16, c, 0); NoNibble(val / 16 % 16, c, 4); NoNibble(val / 256 % 16, c, 8); NoNibble(val / 4096 % 16, c, 12);
      Digits(val);
    }
  }

  lemma NoNibble(n: nat, c: seq<bool>, i: nat)
    requires n < 16 && i + 4 <= |c| && Nibble(n) == c[i..i + 4] && forall k :: 0 <= k < |c| ==> !c[k]
    ensures n == 0
  {
    var b := Nibble(n);
    assert b[0] == c[i] && b[1] == c[i + 1] && b[2] == c[i + 2] && b[3] == c[i + 3];
  }

  lemma {:induction false} SumIsPrefix(w: Word, n: nat)
    requires n <= 16
    ensures SumBits(Reversed(BitsOf(w)), n) == K.Prefix(w, n)
    decreases n
  {
    hide Odd, HalfBy, Xor, Shift;
    if n > 0 { SumIsPrefix(w, n - 1); }
  }

  lemma WordOfBits(w: Word)
    ensures WordOf(BitsOf(w)) == w
  {
    hide BitsOf;
    SumIsPrefix(w, 16);
    K.PrefixAll(w);
  }

  /** Multiplication by a non-zero coefficient reaches every word, so every output needs some input. */
  lemma RowsNotEmpty(table: seq<Rows>, val: nat, i: nat)
    requires |table| == 64 && IsTable(Polynomial(), table, 64) && val < 65536
    requires T.FromNat(val) != Zero && i < 16
    ensures DepMask(table, val)[i] != Zero
  {
    hide WordOf, DepMask, IsTable, Mul, Dot, Shift, BitsOf, HalfBy, Odd, SumBits, Inverse, T.FromNat;
    var m, c := DepMask(table, val), T.FromNat(val);
    var w := Mul(Inverse(c), Exp(15 - i));
    var x := BitsOf(w);
    WordOfBits(w);
    DepMaskMultiplies(table, val, x);
    InverseLaw(c);
    MulAssoc(c, Inverse(c), Exp(15 - i));
    MulOne(Exp(15 - i));
    var y := Apply(m, x);
    WordOfMeans(y);
    BitOfSum(Reversed(y), 16, 15 - i);
    UnitBit(15 - i, 15 - i);
    DotZero(x, 16);
  }

  lemma WordOfMeans(x: Bits)
    ensures WordOf(x) == SumBits(Reversed(x), 16)
  {
  }
}
