/**
 Blocks: the unit in which slices are packed, one vector of 16-bit words.  The number of
 words is left open, so every result holds whatever the block length of a method whose checksum
 is as long as its block; folding a longer block into a shorter checksum is not covered.
 Arithmetic is word by word, which is what the vector kernels do.
 */
module Blocks {
  import opened Field
  import opened Arith

  /** Words per block. */
  const LANES: Positive

  /** Bytes per block: blockLen. */
  const BLOCK_LEN: Positive := 2 * LANES

  type Block = b: seq<Word> | |b| == LANES witness seq(LANES, _ => Zero)

  function ZeroBlock(): Block { seq(LANES, _ => Zero) }

  function Add(a: Block, b: Block): Block {
    seq(LANES, i requires 0 <= i < LANES => Xor(a[i], b[i]))
  }

  /** One step of the running checksum: every word doubled. */
  function Twice(a: Block): Block {
    seq(LANES, i requires 0 <= i < LANES => Double(a[i]))
  }

  /** Every word multiplied by a coefficient. */
  function Scale(c: Word, a: Block): Block {
    seq(LANES, i requires 0 <= i < LANES => Mul(c, a[i]))
  }

  lemma AddLaws(a: Block, b: Block)
    ensures Add(a, ZeroBlock()) == a == Add(ZeroBlock(), a)
    ensures Add(a, a) == ZeroBlock()
    ensures Add(a, b) == Add(b, a)
    ensures Add(a, Add(a, b)) == b
  {
    hide Xor;
    forall i | 0 <= i < LANES
      ensures Add(a, ZeroBlock())[i] == a[i] == Add(ZeroBlock(), a)[i]
      ensures Add(a, a)[i] == Zero && Add(a, b)[i] == Add(b, a)[i]
      ensures Add(a, Add(a, b))[i] == b[i]
    {
      XorLaws(a[i], b[i]);
    }
  }

  lemma AddAssoc(a: Block, b: Block, c: Block)
    ensures Add(Add(a, b), c) == Add(a, Add(b, c))
  {
    hide Xor;
    forall i | 0 <= i < LANES ensures Add(Add(a, b), c)[i] == Add(a, Add(b, c))[i] {
      XorAssoc(a[i], b[i], c[i]);
    }
  }

  lemma AddSwap(a: Block, b: Block, c: Block, d: Block)
    ensures Add(Add(a, b), Add(c, d)) == Add(Add(a, c), Add(b, d))
  {
    hide Xor;
    forall i | 0 <= i < LANES
      ensures Add(Add(a, b), Add(c, d))[i] == Add(Add(a, c), Add(b, d))[i]
    {
      XorSwap(a[i], b[i], c[i], d[i]);
    }
  }

  lemma AddZeroIff(a: Block, b: Block)
    ensures Add(a, b) == ZeroBlock() <==> a == b
  {
    hide Add;
    AddLaws(a, b);
    AddLaws(a, a);
  }

  lemma TwiceLinear(a: Block, b: Block)
    ensures Twice(Add(a, b)) == Add(Twice(a), Twice(b))
    ensures Twice(ZeroBlock()) == ZeroBlock()
  {
    hide Xor, Double;
    DoubleConstants();
    forall i | 0 <= i < LANES ensures Twice(Add(a, b))[i] == Add(Twice(a), Twice(b))[i] {
      DoubleLinear(a[i], b[i]);
    }
  }

  lemma ScaleLinear(c: Word, a: Block, b: Block)
    ensures Scale(c, Add(a, b)) == Add(Scale(c, a), Scale(c, b))
    ensures Scale(c, ZeroBlock()) == ZeroBlock()
  {
    hide Xor, Mul;
    MulZero(c);
    forall i | 0 <= i < LANES ensures Scale(c, Add(a, b))[i] == Add(Scale(c, a), Scale(c, b))[i] {
      MulLinear(a[i], b[i], c);
    }
  }

  lemma ScaleTwice(c: Word, a: Block)
    ensures Scale(c, Twice(a)) == Twice(Scale(c, a))
  {
    hide Double, Mul;
    forall i | 0 <= i < LANES ensures Scale(c, Twice(a))[i] == Twice(Scale(c, a))[i] {
      MulDouble(c, a[i]);
    }
  }

  /** Twice applied n times. */
  function Wind(a: Block, n: nat): Block {
    if n == 0 then a else Twice(Wind(a, n - 1))
  }

  lemma {:induction false} WindLane(a: Block, n: nat, i: nat)
    requires i < LANES
    ensures Wind(a, n)[i] == Shift(a[i], n)
  {
    hide Double;
    if n != 0 { WindLane(a, n - 1, i); }
  }

  lemma {:induction false} WindAdd(a: Block, m: nat, n: nat)
    ensures Wind(a, m + n) == Wind(Wind(a, m), n)
  {
    hide Twice;
    if n != 0 { WindAdd(a, m, n - 1); }
  }

  lemma {:induction false} WindLinear(a: Block, b: Block, n: nat)
    ensures Wind(Add(a, b), n) == Add(Wind(a, n), Wind(b, n))
    ensures Wind(ZeroBlock(), n) == ZeroBlock()
  {
    hide Twice, Add;
    if n != 0 {
      WindLinear(a, b, n - 1);
      TwiceLinear(Wind(a, n - 1), Wind(b, n - 1));
    }
  }

  /** checksumExp with gf16_exp(k % 65535) steps the checksum over k blocks of zeroes. */
  lemma ScaleExp(a: Block, k: nat)
    ensures Scale(Exp(k % 65535), a) == Wind(a, k)
  {
    hide Mul, Exp, Wind;
    forall i | 0 <= i < LANES ensures Scale(Exp(k % 65535), a)[i] == Wind(a, k)[i] {
      MulExp(a[i], k % 65535);
      ShiftModulo(a[i], k);
      WindLane(a, k, i);
    }
  }

  lemma WindPeriod(a: Block, k: nat)
    ensures Wind(a, 65535 * k) == a
  {
    hide Wind;
    forall i | 0 <= i < LANES ensures Wind(a, 65535 * k)[i] == a[i] {
      WindLane(a, 65535 * k, i);
      ShiftPeriod(a[i], k);
    }
  }

  /** Rewinding by gf16_exp(65535 - n % 65535) is undone by n further steps. */
  lemma RewindThenWind(a: Block, n: nat)
    ensures Wind(Scale(Exp(65535 - n % 65535), a), n) == a
  {
    hide Scale, Wind;
    var r := 65535 - n % 65535;
    assert Scale(Exp(r), a) == Wind(a, r) by {
      ScaleExp(a, r);
      if r == 65535 {
        ExpOrder();
        assert Exp(0) == One;
      }
    }
    WindAdd(a, r, n);
    assert r + n == 65535 * (n / 65535 + 1);
    WindPeriod(a, n / 65535 + 1);
  }

  lemma WindInjective(a: Block, b: Block, n: nat)
    requires Wind(a, n) == Wind(b, n)
    ensures a == b
  {
    hide Wind, Shift;
    forall i | 0 <= i < LANES ensures a[i] == b[i] {
      WindLane(a, n, i); WindLane(b, n, i);
      ShiftInjective(a[i], b[i], n);
    }
  }

  // The linear checksum.

  /** The checksum after more blocks bs, when it was c before. */
  function Checksum(c: Block, bs: seq<Block>): Block {
    if bs == [] then c
    else Add(Twice(Checksum(c, bs[..|bs| - 1])), bs[|bs| - 1])
  }

  lemma ChecksumSnoc(c: Block, bs: seq<Block>, b: Block)
    ensures Checksum(c, bs + [b]) == Add(Twice(Checksum(c, bs)), b)
  {
    hide Add, Twice;
    assert (bs + [b])[..|bs|] == bs;
  }

  lemma {:induction false} ChecksumAppend(c: Block, a: seq<Block>, b: seq<Block>)
    ensures Checksum(c, a + b) == Checksum(Checksum(c, a), b)
    decreases |b|
  {
    hide Add, Twice;
    if b == [] {
      assert a + b == a;
    } else {
      var m := |b| - 1;
      ChecksumAppend(c, a, b[..m]);
      assert (a + b)[..|a + b| - 1] == a + b[..m];
    }
  }

  /** A run of zero blocks only winds the checksum. */
  lemma {:induction false} ChecksumZeroes(c: Block, bs: seq<Block>)
    requires forall i :: 0 <= i < |bs| ==> bs[i] == ZeroBlock()
    ensures Checksum(c, bs) == Wind(c, |bs|)
  {
    hide Add, Twice;
    if bs != [] {
      ChecksumZeroes(c, bs[..|bs| - 1]);
      AddLaws(Twice(Wind(c, |bs| - 1)), ZeroBlock());
    }
  }

  /** The start value and the data contribute separately. */
  lemma {:induction false} ChecksumStart(c: Block, bs: seq<Block>)
    ensures Checksum(c, bs) == Add(Wind(c, |bs|), Checksum(ZeroBlock(), bs))
  {
    hide Add, Twice;
    if bs == [] {
      AddLaws(c, ZeroBlock());
    } else {
      var m := |bs| - 1;
      ChecksumStart(c, bs[..m]);
      TwiceLinear(Wind(c, m), Checksum(ZeroBlock(), bs[..m]));
      AddAssoc(Wind(c, |bs|), Twice(Checksum(ZeroBlock(), bs[..m])), bs[m]);
    }
  }

  /** The stored checksum s, rewound and run over the blocks, vanishes exactly when it is theirs. */
  lemma RewindVerdict(s: Block, bs: seq<Block>)
    ensures Checksum(Scale(Exp(65535 - |bs| % 65535), s), bs) == ZeroBlock()
            <==> s == Checksum(ZeroBlock(), bs)
  {
    hide Add, Scale, Wind, Checksum;
    var c := Scale(Exp(65535 - |bs| % 65535), s);
    ChecksumStart(c, bs);
    RewindThenWind(s, |bs|);
    AddZeroIff(s, Checksum(ZeroBlock(), bs));
  }

  // Linear combinations.

  /** What slices x contribute to one output block, coefficient by coefficient. */
  function Combine(cs: seq<Word>, x: seq<Block>): Block
    requires |cs| == |x|
  {
    if cs == [] then ZeroBlock()
    else Add(Combine(cs[..|cs| - 1], x[..|cs| - 1]), Scale(cs[|cs| - 1], x[|cs| - 1]))
  }

  /** Block j of every slice. */
  function Column(xs: seq<seq<Block>>, n: nat, j: nat): (col: seq<Block>)
    requires j < n && forall r :: 0 <= r < |xs| ==> |xs[r]| == n
    ensures |col| == |xs| && forall r :: 0 <= r < |xs| ==> col[r] == xs[r][j]
  {
    seq(|xs|, r requires 0 <= r < |xs| => xs[r][j])
  }

  /** Slices combined block by block. */
  function CombineSlices(cs: seq<Word>, xs: seq<seq<Block>>, n: nat): (ys: seq<Block>)
    requires |cs| == |xs| && forall r :: 0 <= r < |xs| ==> |xs[r]| == n
    ensures |ys| == n
  {
    seq(n, j requires 0 <= j < n => Combine(cs, Column(xs, n, j)))
  }

  function Checksums(xs: seq<seq<Block>>): (col: seq<Block>)
    ensures |col| == |xs|
  {
    seq(|xs|, r requires 0 <= r < |xs| => Checksum(ZeroBlock(), xs[r]))
  }

  // What it detects.

  /** The checksum of the first n blocks when only blocks i and j are not zero. */
  lemma {:induction false} SparseChecksum(ds: seq<Block>, i: nat, j: nat, n: nat)
    requires i < j < |ds| && n <= |ds| && forall k :: 0 <= k < |ds| && k != i && k != j ==> ds[k] == ZeroBlock()
    ensures Checksum(ZeroBlock(), ds[..n]) ==
              if n <= i then ZeroBlock()
              else if n <= j then Wind(ds[i], n - 1 - i)
              else Wind(Add(Wind(ds[i], j - i), ds[j]), n - 1 - j)
    decreases n
  {
    hide Add, Twice;
    if n > 0 {
      SparseChecksum(ds, i, j, n - 1);
      assert ds[..n] == ds[..n - 1] + [ds[n - 1]];
      ChecksumSnoc(ZeroBlock(), ds[..n - 1], ds[n - 1]);
      TwiceLinear(ZeroBlock(), ZeroBlock());
      AddLaws(Twice(Checksum(ZeroBlock(), ds[..n - 1])), ZeroBlock());
      AddLaws(ds[n - 1], ZeroBlock());
    }
  }

  /**
   Where two runs of blocks differ in blocks i and j at most, their checksums agree exactly when
   what changed in block i, wound from there to j, is what changed in block j.
   */
  lemma ChecksumMisses(c: Block, a: seq<Block>, b: seq<Block>, i: nat, j: nat)
    requires i < j < |a| == |b| && forall k :: 0 <= k < |a| && k != i && k != j ==> a[k] == b[k]
    ensures Checksum(c, a) == Checksum(c, b) <==> Wind(Add(a[i], b[i]), j - i) == Add(a[j], b[j])
  {
    hide Add, Wind, Checksum, Differences;
    var n, ds := |a|, Differences(a, b);
    forall k | 0 <= k < n && k != i && k != j ensures ds[k] == ZeroBlock() { AddLaws(a[k], a[k]); }
    SparseChecksum(ds, i, j, n);
    assert ds[..n] == ds;
    DifferenceChecksum(c, a, b);
    var x := Wind(ds[i], j - i);
    WindZero(Add(x, ds[j]), n - 1 - j);
    AddZeroIff(x, ds[j]);
  }

  /** Checksums agree exactly when that of the changes is zero. */
  lemma DifferenceChecksum(c: Block, a: seq<Block>, b: seq<Block>)
    requires |a| == |b|
    ensures Checksum(c, a) == Checksum(c, b) <==> Checksum(ZeroBlock(), Differences(a, b)) == ZeroBlock()
  {
    hide Add, Wind, Checksum, Differences;
    ChecksumSum(a, b, Differences(a, b));
    ChecksumStart(c, a);
    ChecksumStart(c, b);
    var sa, sb := Checksum(ZeroBlock(), a), Checksum(ZeroBlock(), b);
    SameAdded(Wind(c, |a|), sa, sb);
    AddZeroIff(sa, sb);
  }

  lemma WindZero(a: Block, n: nat)
    ensures Wind(a, n) == ZeroBlock() <==> a == ZeroBlock()
  {
    hide Add, Wind;
    WindLinear(a, a, n);
    if Wind(a, n) == ZeroBlock() { WindInjective(a, ZeroBlock(), n); }
  }

  function Differences(a: seq<Block>, b: seq<Block>): (ds: seq<Block>)
    requires |a| == |b|
    ensures |ds| == |a| && forall k :: 0 <= k < |a| ==> ds[k] == Add(a[k], b[k])
  {
    seq(|a|, k requires 0 <= k < |a| => Add(a[k], b[k]))
  }

  lemma SameAdded(c: Block, a: Block, b: Block)
    ensures Add(c, a) == Add(c, b) <==> a == b
  {
    hide Add;
    AddLaws(c, a);
    AddLaws(c, b);
  }

  /** A change in a single block is always noticed. */
  lemma ChecksumDetects(c: Block, a: seq<Block>, b: seq<Block>, j: nat)
    requires j < |a| == |b| && a[j] != b[j] && forall k :: 0 <= k < |a| && k != j ==> a[k] == b[k]
    ensures Checksum(c, a) != Checksum(c, b)
  {
    hide Add, Wind, Checksum;
    AddZeroIff(a[j], b[j]);
    if j > 0 {
      AddLaws(a[0], a[0]);
      WindZero(ZeroBlock(), j);
      ChecksumMisses(c, a, b, 0, j);
    } else if |a| > 1 {
      AddLaws(a[1], a[1]);
      WindZero(Add(a[0], b[0]), 1);
      ChecksumMisses(c, a, b, 0, 1);
    } else {
      assert a == [] + [a[0]] && b == [] + [b[0]];
      ChecksumSnoc(c, [], a[0]);
      ChecksumSnoc(c, [], b[0]);
      SameAdded(Twice(Checksum(c, [])), a[0], b[0]);
    }
  }

  lemma {:induction false} ChecksumScaled(c: Word, a: seq<Block>, b: seq<Block>)
    requires |a| == |b| && forall j :: 0 <= j < |a| ==> b[j] == Scale(c, a[j])
    ensures Checksum(ZeroBlock(), b) == Scale(c, Checksum(ZeroBlock(), a))
    decreases |a|
  {
    hide Add, Twice, Scale;
    ScaleLinear(c, ZeroBlock(), ZeroBlock());
    if a != [] {
      var m := |a| - 1;
      ChecksumScaled(c, a[..m], b[..m]);
      ScaleTwice(c, Checksum(ZeroBlock(), a[..m]));
      ScaleLinear(c, Twice(Checksum(ZeroBlock(), a[..m])), a[m]);
    }
  }

  lemma {:induction false} ChecksumSum(a: seq<Block>, b: seq<Block>, s: seq<Block>)
    requires |a| == |b| == |s| && forall j :: 0 <= j < |a| ==> s[j] == Add(a[j], b[j])
    ensures Checksum(ZeroBlock(), s) == Add(Checksum(ZeroBlock(), a), Checksum(ZeroBlock(), b))
    decreases |a|
  {
    hide Add, Twice;
    if a == [] {
      AddLaws(ZeroBlock(), ZeroBlock());
    } else {
      var m := |a| - 1;
      ChecksumSum(a[..m], b[..m], s[..m]);
      var p, q := Checksum(ZeroBlock(), a[..m]), Checksum(ZeroBlock(), b[..m]);
      TwiceLinear(p, q);
      AddSwap(Twice(p), Twice(q), a[m], b[m]);
    }
  }

  /** The checksum of a linear combination is that combination of the checksums. */
  lemma {:induction false} ChecksumCombination(cs: seq<Word>, xs: seq<seq<Block>>, n: nat)
    requires |cs| == |xs| && forall r :: 0 <= r < |xs| ==> |xs[r]| == n
    ensures Checksum(ZeroBlock(), CombineSlices(cs, xs, n)) == Combine(cs, Checksums(xs))
    decreases |cs|
  {
    hide Add, Scale, Twice, Wind, Checksum;
    if cs == [] {
      var ys := CombineSlices(cs, xs, n);
      ChecksumZeroes(ZeroBlock(), ys);
      WindLinear(ZeroBlock(), ZeroBlock(), n);
    } else {
      var m := |cs| - 1;
      ChecksumCombination(cs[..m], xs[..m], n);
      var rest := CombineSlices(cs[..m], xs[..m], n);
      var last := seq(n, j requires 0 <= j < n => Scale(cs[m], xs[m][j]));
      forall j | 0 <= j < n ensures CombineSlices(cs, xs, n)[j] == Add(rest[j], last[j]) {
        assert Column(xs, n, j)[..m] == Column(xs[..m], n, j);
      }
      ChecksumSum(rest, last, CombineSlices(cs, xs, n));
      ChecksumScaled(cs[m], xs[m], last);
      assert Checksums(xs)[..m] == Checksums(xs[..m]);
    }
  }

  // The same for single words.

  /** The reference: coefficients times words, added up in the field. */
  function CombineWords(cs: seq<Word>, ws: seq<Word>): Word
    requires |cs| == |ws|
  {
    if cs == [] then Zero
    else Xor(CombineWords(cs[..|cs| - 1], ws[..|cs| - 1]), Mul(cs[|cs| - 1], ws[|cs| - 1]))
  }

  /** It is the sum of the single products. */
  lemma CombineWordsOne(c: Word, w: Word)
    ensures CombineWords([c], [w]) == Mul(c, w)
  {
    hide Xor, Mul;
    XorLaws(Mul(c, w), Zero);
  }

  lemma {:induction false} CombineWordsAppend(cs: seq<Word>, ws: seq<Word>, ds: seq<Word>, vs: seq<Word>)
    requires |cs| == |ws| && |ds| == |vs|
    ensures CombineWords(cs + ds, ws + vs) == Xor(CombineWords(cs, ws), CombineWords(ds, vs))
    decreases |ds|
  {
    hide Xor, Mul;
    if ds == [] {
      assert cs + ds == cs && ws + vs == ws;
      XorLaws(CombineWords(cs, ws), Zero);
    } else {
      var n := |ds| - 1;
      CombineWordsAppend(cs, ws, ds[..n], vs[..n]);
      assert (cs + ds)[..|cs| + n] == cs + ds[..n] && (ws + vs)[..|cs| + n] == ws + vs[..n];
      XorAssoc(CombineWords(cs, ws), CombineWords(ds[..n], vs[..n]), Mul(ds[n], vs[n]));
    }
  }
}
