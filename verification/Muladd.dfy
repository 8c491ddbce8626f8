/**
 The packed multiply-add: gf16_muladd_multi_packed and its prefetching twin, which hand the
 regions of a chunk to a kernel a few at a time.
 */
module Muladd {
  import opened Arith
  import opened Field
  import opened Blocks
  import opened Layout

  /** Block p of a region whose pointer was moved to its end, for blocks spaced scale apart. */
  function FromEnd(end: int, len: nat, scale: int, p: int): int { end + (p - len) * scale }

  /** INTERLEAVE_INPUTS: the end pointer of the k-th region after region. */
  function InterleavedEnd(src: int, region: nat, len: nat, i: Positive, k: nat): int {
    src + region * len + len * i + len * i * (k / i) + k % i
  }

  /** CONSECUTIVE_INPUTS: the same within one group. */
  function ConsecutiveEnd(src: int, region: nat, len: nat, last: int, k: nat): int {
    src + region * len + len * last + k
  }

  /** Block p of regions lo to hi of a chunk at s0, as prepare laid them out. */
  function Cells(src: seq<Block>, s0: nat, n: nat, i: Positive, len: nat, p: nat, lo: nat, hi: nat): (c: seq<Block>)
    requires lo <= hi <= n && p < len && s0 + len * n <= |src|
    ensures |c| == hi - lo
  {
    seq(hi - lo, k requires 0 <= k < hi - lo =>
      InChunkBounds(n, i, len, lo + k, p);
      src[s0 + InChunk(n, i, len, lo + k, p)])
  }

  /** Regions lo to hi, times their coefficients, have been added to the len blocks at d0. */
  ghost predicate Accumulated(before: seq<Block>, after: seq<Block>, d0: nat, src: seq<Block>, s0: nat,
                              n: nat, i: Positive, len: nat, coeffs: seq<Word>, lo: nat, hi: nat)
    requires lo <= hi <= n && hi <= |coeffs| && s0 + len * n <= |src| && d0 + len <= |before|
  {
    && |after| == |before|
    && (forall p :: 0 <= p < len ==>
          after[d0 + p] == Add(before[d0 + p], Combine(coeffs[lo..hi], Cells(src, s0, n, i, len, p, lo, hi))))
    && (forall a :: 0 <= a < |before| && !(d0 <= a < d0 + len) ==> after[a] == before[a])
  }

  lemma {:induction false} CombineAppend(cs: seq<Word>, ds: seq<Word>, x: seq<Block>, y: seq<Block>)
    requires |cs| == |x| && |ds| == |y|
    ensures Combine(cs + ds, x + y) == Add(Combine(cs, x), Combine(ds, y))
    decreases |ds|
  {
    hide Add, Scale;
    if ds == [] {
      assert cs + ds == cs && x + y == x;
      AddLaws(Combine(cs, x), ZeroBlock());
    } else {
      var m := |ds| - 1;
      CombineAppend(cs, ds[..m], x, y[..m]);
      assert (cs + ds)[..|cs + ds| - 1] == cs + ds[..m] && (x + y)[..|x + y| - 1] == x + y[..m];
      AddAssoc(Combine(cs, x), Combine(ds[..m], y[..m]), Scale(ds[m], y[m]));
    }
  }

  lemma AccumulatedStep(b0: seq<Block>, b1: seq<Block>, b2: seq<Block>, d0: nat, src: seq<Block>, s0: nat,
                        n: nat, i: Positive, len: nat, coeffs: seq<Word>, lo: nat, mid: nat, hi: nat)
    requires lo <= mid <= hi <= n && hi <= |coeffs| && s0 + len * n <= |src| && d0 + len <= |b0| == |b1|
    requires Accumulated(b0, b1, d0, src, s0, n, i, len, coeffs, lo, mid)
    requires Accumulated(b1, b2, d0, src, s0, n, i, len, coeffs, mid, hi)
    ensures Accumulated(b0, b2, d0, src, s0, n, i, len, coeffs, lo, hi)
  {
    hide Add, Combine;
    forall p | 0 <= p < len
      ensures b2[d0 + p] == Add(b0[d0 + p], Combine(coeffs[lo..hi], Cells(src, s0, n, i, len, p, lo, hi)))
    {
      var x, y := Cells(src, s0, n, i, len, p, lo, mid), Cells(src, s0, n, i, len, p, mid, hi);
      assert coeffs[lo..hi] == coeffs[lo..mid] + coeffs[mid..hi];
      assert Cells(src, s0, n, i, len, p, lo, hi) == x + y;
      CombineAppend(coeffs[lo..mid], coeffs[mid..hi], x, y);
      AddAssoc(b0[d0 + p], Combine(coeffs[lo..mid], x), Combine(coeffs[mid..hi], y));
    }
  }

  lemma AccumulatedNone(b: seq<Block>, d0: nat, src: seq<Block>, s0: nat, n: nat, i: Positive, len: nat,
                        coeffs: seq<Word>, lo: nat)
    requires lo <= n && lo <= |coeffs| && s0 + len * n <= |src| && d0 + len <= |b|
    ensures Accumulated(b, b, d0, src, s0, n, i, len, coeffs, lo, lo)
  {
    hide Add;
    forall p | 0 <= p < len
      ensures b[d0 + p] == Add(b[d0 + p], Combine(coeffs[lo..lo], Cells(src, s0, n, i, len, p, lo, lo)))
    {
      AddLaws(b[d0 + p], ZeroBlock());
    }
  }

  // Addresses.

  /** Regions of whole groups are read where prepare put them. */
  lemma InterleavedAddress(src: int, n: nat, i: Positive, len: nat, region: nat, k: nat, p: nat)
    requires region % i == 0 && p < len && region + (k / i) * i + i <= n
    ensures FromEnd(InterleavedEnd(src, region, len, i, k), len, i, p) == src + InChunk(n, i, len, region + k, p)
  {
    hide Width;
    DivMod(region, i); DivMod(k, i); DivMod(n, i);
    var m, g, r := region / i, k / i, k % i;
    Distribute(m, g, i);
    DivUnique(region + k, i, m + g, r);
    WidthFull(n, i, region + k, m + g);
    var back: int := 0 - len;
    Distribute(p, back, i);
    assert region * len == m * (len * i) by { Assoc3(m, i, len); }
    assert len * i * g == g * (len * i);
    Distribute(m, g, len * i);
    Assoc3(m + g, len, i);
  }

  lemma WidthFull(n: nat, i: Positive, s: nat, g: nat)
    requires s / i == g && g * i + i <= n
    ensures Width(n, i, s) == i
  {
    DivMod(n, i); DivMod(s, i);
    Distribute(g, 1, i);
    if n / i <= g { MulLe(n / i, g, i); }
    MulLe(g + 1, n / i, i);
  }

  /** So are the regions of the last, possibly narrower group. */
  lemma ConsecutiveAddress(src: int, n: nat, i: Positive, len: nat, region: nat, k: nat, p: nat)
    requires region % i == 0 && p < len && region < n && k < i && region + k < n
    ensures var last := if n - region > i then i else n - region;
            FromEnd(ConsecutiveEnd(src, region, len, last, k), len, last, p) == src + InChunk(n, i, len, region + k, p)
  {
    hide Width;
    DivMod(region, i); DivMod(n, i);
    var m := region / i;
    var last := if n - region > i then i else n - region;
    DivUnique(region + k, i, m, k);
    if region + i <= n {
      WidthFull(n, i, region + k, m);
    } else {
      DivUnique(n, i, m, n - region);
      WidthLast(n, i, region + k);
    }
    var back: int := 0 - len;
    Distribute(p, back, last);
    Assoc3(m, i, len);
    Assoc3(m, len, i);
  }

  lemma WidthLast(n: nat, i: Positive, s: nat)
    requires s >= n - n % i
    ensures Width(n, i, s) == n % i
  {
  }

  // The kernel.

  /** What one position of the sources contributes. */
  function Gather(src: seq<Block>, ends: seq<int>, len: nat, scale: int, p: nat): (x: seq<Block>)
    requires forall k :: 0 <= k < |ends| ==> 0 <= FromEnd(ends[k], len, scale, p) < |src|
    ensures |x| == |ends|
  {
    seq(|ends|, k requires 0 <= k < |ends| => src[FromEnd(ends[k], len, scale, p)])
  }

  ghost predicate Readable(src: seq<Block>, ends: seq<int>, len: nat, scale: int) {
    forall k, p: nat :: 0 <= k < |ends| && p < len ==> 0 <= FromEnd(ends[k], len, scale, p) < |src|
  }

  /**
   The blkmac_pf contract, as the reference kernel meets it: several regions are multiplied and
   summed, then added to the destination once.  The prefetch arguments do not change the result.
   */
  method Blkmac(dst: array<Block>, dstEnd: nat, src: array<Block>, ends: seq<int>, scale: int, len: nat,
                coeffs: seq<Word>, doPrefetch: int, pf: int)
    requires dst != src && |coeffs| == |ends| && len <= dstEnd <= dst.Length
    requires Readable(src[..], ends, len, scale)
    modifies dst
    ensures forall p: nat :: p < len ==>
              dst[dstEnd - len + p] == Add(old(dst[dstEnd - len + p]), Combine(coeffs, Gather(src[..], ends, len, scale, p)))
    ensures forall a :: 0 <= a < dst.Length && !(dstEnd - len <= a < dstEnd) ==> dst[a] == old(dst[a])
  {
    hide Add, Scale, FromEnd;
    var ptr: int := 0 - len;
    while ptr != 0
      invariant 0 <= len + ptr <= len
      invariant forall p: nat :: p < len + ptr ==>
                  dst[dstEnd - len + p] == Add(old(dst[dstEnd - len + p]), Combine(coeffs, Gather(src[..], ends, len, scale, p)))
      invariant forall a :: 0 <= a < dst.Length && !(dstEnd - len <= a < dstEnd + ptr) ==> dst[a] == old(dst[a])
    {
      ghost var col := Gather(src[..], ends, len, scale, len + ptr);
      var sum, k := ZeroBlock(), 0;
      while k < |ends|
        invariant 0 <= k <= |ends| && sum == Combine(coeffs[..k], col[..k])
      {
        assert coeffs[..k + 1][..k] == coeffs[..k] && col[..k + 1][..k] == col[..k];
        sum := Add(sum, Scale(coeffs[k], src[FromEnd(ends[k], len, scale, len + ptr)]));
        k := k + 1;
      }
      assert coeffs[..k] == coeffs && col[..k] == col;
      dst[dstEnd + ptr] := Add(dst[dstEnd + ptr], sum);
      ptr := ptr + 1;
    }
  }

  // One call of the kernel, as the code sets it up.

  /** What a kernel call did, seen from outside. */
  ghost predicate Ran(before: seq<Block>, after: seq<Block>, dstEnd: nat, src: seq<Block>, ends: seq<int>,
                      scale: int, len: nat, coeffs: seq<Word>)
    requires |coeffs| == |ends| && len <= dstEnd <= |before| && Readable(src, ends, len, scale)
  {
    && |after| == |before|
    && (forall p: nat :: p < len ==>
          after[dstEnd - len + p] == Add(before[dstEnd - len + p], Combine(coeffs, Gather(src, ends, len, scale, p))))
    && (forall a :: 0 <= a < |before| && !(dstEnd - len <= a < dstEnd) ==> after[a] == before[a])
  }

  /** The end pointers ends read regions lo to hi where prepare put them. */
  ghost predicate Reads(ends: seq<int>, scale: int, s0: nat, n: nat, i: Positive, len: nat, lo: nat, hi: nat) {
    && |ends| == hi - lo
    && forall k: nat, p: nat :: k < |ends| && p < len ==>
         FromEnd(ends[k], len, scale, p) == s0 + InChunk(n, i, len, lo + k, p)
  }

  lemma ReadsReadable(ends: seq<int>, scale: int, src: seq<Block>, s0: nat, n: nat, i: Positive, len: nat, lo: nat, hi: nat)
    requires lo <= hi <= n && s0 + len * n <= |src| && Reads(ends, scale, s0, n, i, len, lo, hi)
    ensures Readable(src, ends, len, scale)
  {
    hide InChunk, FromEnd;
    forall k, p: nat | 0 <= k < |ends| && p < len ensures 0 <= FromEnd(ends[k], len, scale, p) < |src| {
      InChunkBounds(n, i, len, lo + k, p);
    }
  }

  lemma RanAccumulated(before: seq<Block>, after: seq<Block>, d0: nat, ends: seq<int>, scale: int, src: seq<Block>,
                       s0: nat, n: nat, i: Positive, len: nat, coeffs: seq<Word>, lo: nat, hi: nat)
    requires lo <= hi <= n && hi <= |coeffs| && s0 + len * n <= |src| && d0 + len <= |before|
    requires Reads(ends, scale, s0, n, i, len, lo, hi) && Readable(src, ends, len, scale)
    requires Ran(before, after, d0 + len, src, ends, scale, len, coeffs[lo..hi])
    ensures Accumulated(before, after, d0, src, s0, n, i, len, coeffs, lo, hi)
  {
    hide Add, Combine, InChunk, FromEnd;
    forall p: nat | p < len ensures Gather(src, ends, len, scale, p) == Cells(src, s0, n, i, len, p, lo, hi) {
    }
  }

  lemma MultipleSum(a: nat, b: nat, i: Positive)
    requires a % i == 0 && b % i == 0
    ensures (a + b) % i == 0 && (a < b ==> a + i <= b)
  {
    DivMod(a, i); DivMod(b, i);
    Distribute(a / i, b / i, i);
    DivUnique(a + b, i, a / i + b / i, 0);
    if a < b {
      if a / i >= b / i { MulLe(b / i, a / i, i); }
      MulLess(a / i, b / i, i);
    }
  }

  lemma WholeGroups(r: nat, i: Positive)
    ensures 0 <= r % i < i && 0 <= r - r % i && (r - r % i) % i == 0
    ensures r >= i ==> r - r % i >= i
  {
    DivMod(r, i);
    if r >= i { if r / i < 1 { MulLe(r / i, 0, i); } MulLe(1, r / i, i); }
    DivUnique(r - r % i, i, r / i, 0);
  }

  function InterleavedEnds(src: int, region: nat, len: nat, i: Positive, count: nat): seq<int> {
    seq(count, k requires 0 <= k < count => InterleavedEnd(src, region, len, i, k))
  }

  function ConsecutiveEnds(src: int, region: nat, len: nat, last: int, count: nat): seq<int> {
    seq(count, k requires 0 <= k < count => ConsecutiveEnd(src, region, len, last, k))
  }

  lemma InterleavedReads(s0: nat, n: nat, i: Positive, len: nat, region: nat, count: nat)
    requires region % i == 0 && count % i == 0 && region + count <= n
    ensures Reads(InterleavedEnds(s0, region, len, i, count), i, s0, n, i, len, region, region + count)
  {
    hide InChunk, FromEnd, InterleavedEnd;
    forall k: nat, p: nat | k < count && p < len
      ensures FromEnd(InterleavedEnd(s0, region, len, i, k), len, i, p) == s0 + InChunk(n, i, len, region + k, p)
    {
      DivMod(k, i);
      WholeGroups(k, i);
      MultipleSum(k - k % i, count, i);
      InterleavedAddress(s0, n, i, len, region, k, p);
    }
  }

  lemma ConsecutiveReads(s0: nat, n: nat, i: Positive, len: nat, region: nat, count: nat)
    requires region % i == 0 && count < i && region + count <= n && region < n
    ensures var last := if n - region > i then i else n - region;
            Reads(ConsecutiveEnds(s0, region, len, last, count), last, s0, n, i, len, region, region + count)
  {
    hide InChunk, FromEnd, ConsecutiveEnd;
    var last := if n - region > i then i else n - region;
    forall k: nat, p: nat | k < count && p < len
      ensures FromEnd(ConsecutiveEnd(s0, region, len, last, k), len, last, p) == s0 + InChunk(n, i, len, region + k, p)
    {
      ConsecutiveAddress(s0, n, i, len, region, k, p);
    }
  }

  /** What every entry point below requires. */
  ghost predicate Sized(dst: seq<Block>, d0: nat, src: seq<Block>, s0: nat, n: nat, len: nat, coeffs: seq<Word>, regions: nat) {
    regions <= n && regions <= |coeffs| && s0 + len * n <= |src| && d0 + len <= |dst|
  }

  /** blkmac_pf over whole groups, with INTERLEAVE_INPUTS. */
  method InterleavedRun(dst: array<Block>, d0: nat, src: array<Block>, s0: nat, n: nat, i: Positive, len: nat,
                        coeffs: seq<Word>, region: nat, count: nat, doPrefetch: int, pf: nat)
    requires dst != src && Sized(dst[..], d0, src[..], s0, n, len, coeffs, region + count)
    requires region % i == 0 && count % i == 0
    modifies dst
    ensures Accumulated(old(dst[..]), dst[..], d0, src[..], s0, n, i, len, coeffs, region, region + count)
  {
    hide Add, Combine, InChunk, FromEnd, Gather;
    var ends := InterleavedEnds(s0, region, len, i, count);
    InterleavedReads(s0, n, i, len, region, count);
    ReadsReadable(ends, i, src[..], s0, n, i, len, region, region + count);
    Blkmac(dst, d0 + len, src, ends, i, len, coeffs[region..region + count], doPrefetch, pf);
    RanAccumulated(old(dst[..]), dst[..], d0, ends, i, src[..], s0, n, i, len, coeffs, region, region + count);
  }

  /** blkmac_pf over what is left of the last group, with CONSECUTIVE_INPUTS. */
  method ConsecutiveRun(dst: array<Block>, d0: nat, src: array<Block>, s0: nat, n: nat, i: Positive, len: nat,
                        coeffs: seq<Word>, region: nat, remaining: nat, doPrefetch: int, pf: nat)
    requires dst != src && Sized(dst[..], d0, src[..], s0, n, len, coeffs, region + remaining)
    requires region % i == 0 && remaining < i
    modifies dst
    ensures Accumulated(old(dst[..]), dst[..], d0, src[..], s0, n, i, len, coeffs, region, region + remaining)
  {
    hide Add, Combine, InChunk, FromEnd, Gather;
    var last: int := if n - region > i then i else n - region;
    if remaining > 0 {
      var ends := ConsecutiveEnds(s0, region, len, last, remaining);
      ConsecutiveReads(s0, n, i, len, region, remaining);
      ReadsReadable(ends, last, src[..], s0, n, i, len, region, region + remaining);
      Blkmac(dst, d0 + len, src, ends, last, len, coeffs[region..region + remaining], doPrefetch, pf);
      RanAccumulated(old(dst[..]), dst[..], d0, ends, last, src[..], s0, n, i, len, coeffs, region, region + remaining);
    } else {
      AccumulatedNone(dst[..], d0, src[..], s0, n, i, len, coeffs, region);
    }
  }

  /** The two steps that end both functions: remaining whole groups, then the odd regions. */
  method Remainder(dst: array<Block>, d0: nat, src: array<Block>, s0: nat, n: nat, i: Positive, rpc: Positive,
                   len: nat, coeffs: seq<Word>, region0: nat, regions: nat, ghost orig: seq<Block>)
    requires dst != src && Sized(dst[..], d0, src[..], s0, n, len, coeffs, regions) && |orig| == dst.Length
    requires region0 <= regions < region0 + rpc && region0 % i == 0 && rpc % i == 0
    requires Accumulated(orig, dst[..], d0, src[..], s0, n, i, len, coeffs, 0, region0)
    modifies dst
    ensures Accumulated(orig, dst[..], d0, src[..], s0, n, i, len, coeffs, 0, regions)
  {
    hide Accumulated;
    var region, remaining := region0, regions - region0;
    WholeGroups(remaining, i);
    if rpc > i && remaining >= i {
      var count := remaining - remaining % i;
      MultipleSum(region, count, i);
      ghost var before := dst[..];
      InterleavedRun(dst, d0, src, s0, n, i, len, coeffs, region, count, 0, 0);
      AccumulatedStep(orig, before, dst[..], d0, src[..], s0, n, i, len, coeffs, 0, region, region + count);
      region := region + count;
      remaining := remaining % i;
    } else if rpc <= i {
      MultipleSum(0, rpc, i);
    }
    ghost var before := dst[..];
    ConsecutiveRun(dst, d0, src, s0, n, i, len, coeffs, region, remaining, 0, 0);
    AccumulatedStep(orig, before, dst[..], d0, src[..], s0, n, i, len, coeffs, 0, region, regions);
  }

  /** One full-size call, and what it adds to the total. */
  method FullRun(dst: array<Block>, d0: nat, src: array<Block>, s0: nat, n: nat, i: Positive, rpc: Positive,
                 len: nat, coeffs: seq<Word>, region: nat, regions: nat, doPrefetch: int, pf: nat,
                 ghost orig: seq<Block>)
    requires dst != src && Sized(dst[..], d0, src[..], s0, n, len, coeffs, regions) && |orig| == dst.Length
    requires region + rpc <= regions && region % i == 0 && rpc % i == 0
    requires Accumulated(orig, dst[..], d0, src[..], s0, n, i, len, coeffs, 0, region)
    modifies dst
    ensures (region + rpc) % i == 0
    ensures Accumulated(orig, dst[..], d0, src[..], s0, n, i, len, coeffs, 0, region + rpc)
  {
    hide Accumulated;
    MultipleSum(region, rpc, i);
    ghost var before := dst[..];
    InterleavedRun(dst, d0, src, s0, n, i, len, coeffs, region, rpc, doPrefetch, pf);
    AccumulatedStep(orig, before, dst[..], d0, src[..], s0, n, i, len, coeffs, 0, region, region + rpc);
  }

  /**
   gf16_muladd_multi_packed: every region below regions is multiplied by its coefficient and
   added once to every block of the destination, whatever inputPackSize and regionsPerCall are.
   */
  method MuladdMultiPacked(i: Positive, regionsPerCall: Positive, n: nat, regions: nat, dst: array<Block>, d0: nat,
                           src: array<Block>, s0: nat, len: nat, coeffs: seq<Word>)
    requires dst != src && Sized(dst[..], d0, src[..], s0, n, len, coeffs, regions)
    requires regionsPerCall % i == 0
    modifies dst
    ensures Accumulated(old(dst[..]), dst[..], d0, src[..], s0, n, i, len, coeffs, 0, regions)
  {
    hide Accumulated;
    ghost var orig := dst[..];
    var region := 0;
    AccumulatedNone(orig, d0, src[..], s0, n, i, len, coeffs, 0);
    var again := regions >= regionsPerCall;
    while again
      invariant region <= regions && region % i == 0 && (again <==> regionsPerCall <= regions - region)
      invariant Accumulated(orig, dst[..], d0, src[..], s0, n, i, len, coeffs, 0, region)
      decreases regions - region
    {
      FullRun(dst, d0, src, s0, n, i, regionsPerCall, len, coeffs, region, regions, 0, 0, orig);
      region := region + regionsPerCall;
      again := regionsPerCall <= regions - region;
    }
    Remainder(dst, d0, src, s0, n, i, regionsPerCall, len, coeffs, region, regions, orig);
  }

  /** An unsigned counter decremented, with its wrap-around. */
  function Decrement(x: nat): nat { if x == 0 then 0xFFFF_FFFF else x - 1 }

  /** The calls that also prefetch the next output; all regions may be done in them. */
  method PrefetchOutput(i: Positive, regionsPerCall: Positive, n: nat, regions: nat, dst: array<Block>, d0: nat,
                        src: array<Block>, s0: nat, len: nat, coeffs: seq<Word>, pfLen: nat, rounds: nat, pf0: nat)
    returns (region: nat, done: bool)
    requires dst != src && Sized(dst[..], d0, src[..], s0, n, len, coeffs, regions)
    requires regionsPerCall % i == 0
    modifies dst
    ensures if done then region == regions else region <= regions && region % i == 0
    ensures Accumulated(old(dst[..]), dst[..], d0, src[..], s0, n, i, len, coeffs, 0, region)
  {
    hide Accumulated;
    ghost var orig := dst[..];
    region, done := 0, false;
    var pf, outputPfRounds := pf0, rounds;
    AccumulatedNone(orig, d0, src[..], s0, n, i, len, coeffs, 0);
    if regions >= regionsPerCall {
      while true
        invariant region + regionsPerCall <= regions && region % i == 0 && pf >= 0
        invariant Accumulated(orig, dst[..], d0, src[..], s0, n, i, len, coeffs, 0, region)
        decreases regions - region
      {
        var stop := outputPfRounds == 0;
        outputPfRounds := Decrement(outputPfRounds);
        if stop { break; }
        FullRun(dst, d0, src, s0, n, i, regionsPerCall, len, coeffs, region, regions, 1, pf, orig);
        region := region + regionsPerCall;
        pf := if outputPfRounds != 0 then pf + pfLen else 0;
        if regionsPerCall > regions - region { break; }
      }
    }
    if pf != 0 && regionsPerCall > regions - region {
      region, done := PrefetchRemainder(dst, d0, src, s0, n, i, regionsPerCall, len, coeffs, region, regions,
                                  pfLen, outputPfRounds, pf, orig);
    }
  }

  /** The same for the regions after the last full call. */
  method PrefetchRemainder(dst: array<Block>, d0: nat, src: array<Block>, s0: nat, n: nat, i: Positive,
                           regionsPerCall: Positive, len: nat, coeffs: seq<Word>, region0: nat, regions: nat,
                           pfLen: nat, rounds: nat, pf0: nat, ghost orig: seq<Block>)
    returns (region: nat, done: bool)
    requires dst != src && Sized(dst[..], d0, src[..], s0, n, len, coeffs, regions) && |orig| == dst.Length
    requires region0 <= regions < region0 + regionsPerCall && region0 % i == 0 && regionsPerCall % i == 0
    requires Accumulated(orig, dst[..], d0, src[..], s0, n, i, len, coeffs, 0, region0)
    modifies dst
    ensures if done then region == regions else region <= regions && region % i == 0
    ensures Accumulated(orig, dst[..], d0, src[..], s0, n, i, len, coeffs, 0, region)
  {
    hide Accumulated;
    region, done := region0, false;
    var pf, outputPfRounds, remaining := pf0, rounds, regions - region;
    WholeGroups(remaining, i);
    if regionsPerCall > i && remaining >= i {
      var count := remaining - remaining % i;
      MultipleSum(region, count, i);
      ghost var before := dst[..];
      InterleavedRun(dst, d0, src, s0, n, i, len, coeffs, region, count, 1, pf);
      AccumulatedStep(orig, before, dst[..], d0, src[..], s0, n, i, len, coeffs, 0, region, region + count);
      region := region + count;
      remaining := remaining % i;
      outputPfRounds := Decrement(outputPfRounds);
      pf := if outputPfRounds != 0 then pf + pfLen else 0;
    } else if regionsPerCall <= i {
      MultipleSum(0, regionsPerCall, i);
    }
    if pf != 0 {
      ghost var before := dst[..];
      ConsecutiveRun(dst, d0, src, s0, n, i, len, coeffs, region, remaining, 1, pf);
      AccumulatedStep(orig, before, dst[..], d0, src[..], s0, n, i, len, coeffs, 0, region, regions);
      region, done := regions, true;
    }
  }

  /** 1 << pfFactor. */
  function Rounds(pfFactor: nat): Positive { if pfFactor == 0 then 1 else 2 * Rounds(pfFactor - 1) }

  /** len >> pfFactor. */
  function PrefetchLen(len: nat, pfFactor: nat): nat {
    TimesOrder(0, len, BLOCK_LEN);
    Quot(Times(len, BLOCK_LEN), Rounds(pfFactor))
  }

  /**
   gf16_muladd_multi_packpf: whatever is prefetched (a null pointer is 0), for however many
   rounds, the destination is the one gf16_muladd_multi_packed leaves.
   */
  method MuladdMultiPackpf(i: Positive, regionsPerCall: Positive, n: nat, regions: nat, dst: array<Block>, d0: nat,
                           src: array<Block>, s0: nat, len: nat, coeffs: seq<Word>,
                           pfFactor: nat, prefetchIn: nat, prefetchOut: nat)
    requires dst != src && Sized(dst[..], d0, src[..], s0, n, len, coeffs, regions)
    requires regionsPerCall % i == 0
    modifies dst
    ensures Accumulated(old(dst[..]), dst[..], d0, src[..], s0, n, i, len, coeffs, 0, regions)
  {
    hide Accumulated, PrefetchLen, Rounds;
    ghost var orig := dst[..];
    var pfLen := PrefetchLen(len, pfFactor);
    var region, done := PrefetchOutput(i, regionsPerCall, n, regions, dst, d0, src, s0, len, coeffs,
                                 pfLen, Rounds(pfFactor), prefetchOut + pfLen);
    if done { return; }
    var pf := prefetchIn + pfLen;
    while regionsPerCall <= regions - region
      invariant region <= regions && region % i == 0 && pf >= 0
      invariant Accumulated(orig, dst[..], d0, src[..], s0, n, i, len, coeffs, 0, region)
      decreases regions - region
    {
      FullRun(dst, d0, src, s0, n, i, regionsPerCall, len, coeffs, region, regions,
              if prefetchIn != 0 then 2 else 0, if prefetchIn != 0 then pf else 0, orig);
      region := region + regionsPerCall;
      pf := pf + pfLen;
    }
    Remainder(dst, d0, src, s0, n, i, regionsPerCall, len, coeffs, region, regions, orig);
  }
}
