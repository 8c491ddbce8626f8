/**
 Facts about products, quotients and remainders, each small enough for the solver.
 */
module Arith {

  type Positive = n: int | n > 0 witness 1

  function Min(a: int, b: int): int { if a <= b then a else b }

  lemma MulLe(a: int, b: int, c: nat)
    requires a <= b
    ensures a * c <= b * c && c * a <= c * b
  {
  }

  lemma MulLess(a: int, b: int, c: Positive)
    requires a < b
    ensures a * c + c <= b * c
  {
    assert (a + 1) * c == a * c + c;
    MulLe(a + 1, b, c);
  }

  lemma Distribute(a: int, b: int, c: int)
    ensures (a + b) * c == a * c + b * c && c * (a + b) == c * a + c * b
  {
  }

  lemma Assoc3(a: int, b: int, c: int)
    ensures a * b * c == a * (b * c) == b * (a * c)
  {
  }

  lemma DivMod(a: nat, d: Positive)
    ensures a == (a / d) * d + a % d && 0 <= a % d < d && 0 <= a / d
  {
  }

  /** Quotient and remainder are determined. */
  lemma SameQuotient(d: Positive, q: int, r: int, q': int, r': int)
    requires 0 <= r < d && 0 <= r' < d && q * d + r == q' * d + r'
    ensures q == q' && r == r'
  {
    if q < q' { MulLess(q, q', d); }
    if q' < q { MulLess(q', q, d); }
  }

  lemma DivUnique(a: nat, d: Positive, q: int, r: int)
    requires 0 <= r < d && a == q * d + r
    ensures a / d == q && a % d == r
  {
    DivMod(a, d);
    SameQuotient(d, q, r, a / d, a % d);
  }

  /** The quotient by d is below q exactly when the number is below q * d. */
  lemma DivBelow(a: nat, d: Positive, q: int)
    ensures a / d < q <==> a < q * d
  {
    DivMod(a, d);
    if a / d < q { MulLess(a / d, q, d); } else { MulLe(q, a / d, d); }
  }

  lemma PositiveFactor(a: Positive, b: int)
    requires a * b > 0
    ensures b > 0
  {
  }

  lemma DivModScale(a: nat, m: Positive, b: Positive)
    ensures m * b > 0 && a * b >= 0
    ensures (a * b) / (m * b) == a / m && (a * b) % (m * b) == (a % m) * b
  {
    DivMod(a, m);
    var q, r := a / m, a % m;
    MulLess(0, m, b);
    MulLe(0, a, b);
    Distribute(q * m, r, b);
    Assoc3(q, m, b);
    MulLess(r, m, b);
    MulLe(0, r, b);
    DivUnique(a * b, m * b, q, r * b);
  }

  // The operations under names, so that a proof can hide the nonlinear arithmetic in them.

  function Times(a: int, b: int): int { a * b }

  function Quot(a: nat, d: Positive): (q: nat)
  {
    DivMod(a, d);
    a / d
  }

  function Rem(a: nat, d: Positive): (r: nat)
  {
    DivMod(a, d);
    a % d
  }

  lemma QuotRem(a: nat, d: Positive)
    ensures a == Times(Quot(a, d), d) + Rem(a, d) && 0 <= Rem(a, d) < d
  {
    DivMod(a, d);
  }

  lemma TimesNext(a: int, d: int)
    ensures Times(a + 1, d) == Times(a, d) + d && Times(0, d) == 0
  {
    Distribute(a, 1, d);
  }

  lemma TimesSum(a: int, b: int, d: int)
    ensures Times(a + b, d) == Times(a, d) + Times(b, d)
  {
    Distribute(a, b, d);
  }

  lemma TimesOrder(a: int, b: int, d: Positive)
    ensures a <= b ==> Times(a, d) <= Times(b, d)
    ensures a < b ==> Times(a, d) + d <= Times(b, d)
  {
    if a <= b { MulLe(a, b, d); }
    if a < b { MulLess(a, b, d); }
  }

  lemma QuotUnique(a: nat, d: Positive, q: int, r: int)
    requires 0 <= r < d && a == Times(q, d) + r
    ensures Quot(a, d) == q && Rem(a, d) == r
  {
    DivUnique(a, d, q, r);
  }
}
