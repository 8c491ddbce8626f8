/**
 The whole path of the data: slices packed, every chunk multiplied and added up for every output,
 outputs unpacked.  The bytes that come out are the linear combination of the zero-padded
 sources, and the checksum test says so.
 */
module EndToEnd {
  import opened Arith
  import opened Field
  import opened Blocks
  import opened Bytes
  import opened Layout
  import opened Packed
  import opened Prepare
  import opened PrepareParts
  import opened Muladd
  import opened Finish
  import opened FinishParts

  /** Outputs lie in their own buffer, chunk by chunk and not interleaved. */
  function Outputs(g: Geometry, m: nat): Geometry { Geometry(m, 1, g.l, g.d) }

  /** Block j of every packed slice. */
  function PackedColumn(g: Geometry, buf: seq<Block>, j: nat): (col: seq<Block>)
    requires Fits(g, buf) && j <= g.d
    ensures |col| == g.n
  {
    seq(g.n, r requires 0 <= r < g.n => Get(g, buf, r, j))
  }

  /** Block j of output o is what the coefficients make of block j of the slices. */
  ghost predicate Combined(g: Geometry, buf: seq<Block>, m: nat, coeffs: seq<Word>, out: seq<Block>, o: nat, j: nat)
    requires Fits(g, buf) && j <= g.d && |coeffs| == g.n && Fits(Outputs(g, m), out) && o < m
  {
    Get(Outputs(g, m), out, o, j) == Combine(coeffs, PackedColumn(g, buf, j))
  }

  // One chunk of one output.

  /** Where chunk q of the inputs starts. */
  lemma ChunkOfInputs(g: Geometry, q: nat, p: nat, s: nat)
    requires s < g.n && p < ChunkBlocks(g.l, g.d + 1, q)
    ensures var j := q * g.l + p; 0 <= j <= g.d && j / g.l == q && j % g.l == p
    ensures Cell(g, s, q * g.l + p) == q * (g.l * g.n) + InChunk(g.n, g.i, ChunkBlocks(g.l, g.d + 1, q), s, p)
  {
    hide InChunk;
    MulLe(0, q, g.l);
    Distribute(q, 1, g.l);
    DivUnique(q * g.l + p, g.l, q, p);
  }

  /** Block p of output o in a chunk of len blocks. */
  lemma OutputInChunk(m: nat, len: nat, o: nat, p: nat)
    requires o < m
    ensures InChunk(m, 1, len, o, p) == o * len + p
  {
    assert o / 1 == o && o % 1 == 0 && m % 1 == 0;
  }

  /** The kernel reads, block by block, the column of the packed slices. */
  lemma ChunkColumn(g: Geometry, buf: seq<Block>, q: nat, len: nat, p: nat)
    requires Fits(g, buf) && len == ChunkBlocks(g.l, g.d + 1, q) && p < len
    requires 0 <= q * (g.l * g.n) && q * (g.l * g.n) + len * g.n <= |buf|
    ensures 0 <= q * g.l + p <= g.d
    ensures Cells(buf, q * (g.l * g.n), g.n, g.i, len, p, 0, g.n) == PackedColumn(g, buf, q * g.l + p)
  {
    hide InChunk, ChunkBlocks, Cell;
    MulLe(0, q, g.l);
    ChunkEnd(g, q, len);
    var c := Cells(buf, q * (g.l * g.n), g.n, g.i, len, p, 0, g.n);
    forall r | 0 <= r < g.n ensures c[r] == PackedColumn(g, buf, q * g.l + p)[r] {
      InChunkBounds(g.n, g.i, len, r, p);
      ChunkOfInputs(g, q, p, r);
    }
  }

  lemma ChunkEnd(g: Geometry, q: nat, len: nat)
    requires len == ChunkBlocks(g.l, g.d + 1, q)
    ensures q * g.l + len <= g.d + 1
    ensures len <= g.l
  {
    Distribute(q, 1, g.l);
  }

  lemma ChunkBounds(g: Geometry, q: nat, n: nat)
    requires q * g.l <= g.d + 1
    ensures var len := ChunkBlocks(g.l, g.d + 1, q);
            && 0 <= len <= g.l && 0 <= q * (g.l * n) && 0 <= len * n
            && q * (g.l * n) + len * n <= n * (g.d + 1)
            && q * g.l + len <= g.d + 1
  {
    var len := ChunkBlocks(g.l, g.d + 1, q);
    Distribute(q, 1, g.l);
    MulLe(0, len, n);
    MulLe(0, g.l, n);
    MulLe(0, q, g.l * n);
    Assoc3(q, g.l, n);
    Distribute(q * g.l, len, n);
    MulLe(q * g.l + len, g.d + 1, n);
  }

  lemma RegionBounds(g: Geometry, q: nat, m: nat, o: nat)
    requires q * g.l <= g.d + 1 && o < m
    ensures var len := ChunkBlocks(g.l, g.d + 1, q); var d0 := q * (g.l * m) + o * len;
            && 0 <= len && 0 <= d0 && d0 + len <= m * (g.d + 1)
  {
    hide ChunkBlocks;
    ChunkBounds(g, q, m);
    var len := ChunkBlocks(g.l, g.d + 1, q);
    MulLess(o, m, if len == 0 then 1 else len);
    MulLe(0, o, len);
    Distribute(o, 1, len);
    MulLe(o + 1, m, len);
  }

  /** compute_worker clears an output's part of the chunk before the first batch is added. */
  method ZeroRegion(dst: array<Block>, d0: nat, len: nat)
    requires d0 + len <= dst.Length
    modifies dst
    ensures forall a :: d0 <= a < d0 + len ==> dst[a] == ZeroBlock()
    ensures forall a :: 0 <= a < dst.Length && !(d0 <= a < d0 + len) ==> dst[a] == old(dst[a])
  {
    var k := 0;
    while k < len
      invariant 0 <= k <= len
      invariant forall a :: d0 <= a < d0 + k ==> dst[a] == ZeroBlock()
      invariant forall a :: 0 <= a < dst.Length && !(d0 <= a < d0 + k) ==> dst[a] == old(dst[a])
    {
      dst[d0 + k] := ZeroBlock();
      k := k + 1;
    }
  }

  /** Whether output o's block j is done when the loops stand at chunk q, output o1. */
  predicate Before(g: Geometry, o: nat, j: nat, q: nat, o1: nat) { j / g.l < q || (j / g.l == q && o < o1) }

  ghost predicate Done(g: Geometry, buf: seq<Block>, m: nat, coeffs: seq<seq<Word>>, out: seq<Block>, q: nat, o1: nat)
    requires Fits(g, buf) && |coeffs| == m && (forall o :: 0 <= o < m ==> |coeffs[o]| == g.n) && Fits(Outputs(g, m), out)
  {
    forall o: nat, j: nat :: o < m && j <= g.d && Before(g, o, j, q, o1) ==> Combined(g, buf, m, coeffs[o], out, o, j)
  }

  /** A region of an output: block p of chunk q, and nobody else's. */
  lemma RegionCell(g: Geometry, m: nat, q: nat, o: nat, o': nat, j: nat)
    requires q * g.l <= g.d && o < m && o' < m && j <= g.d
    ensures var len := ChunkBlocks(g.l, g.d + 1, q); var d0 := q * (g.l * m) + o * len; var c := Cell(Outputs(g, m), o', j);
            d0 <= c < d0 + len <==> o' == o && j / g.l == q
    ensures j / g.l == q ==> Cell(Outputs(g, m), o, j) == q * (g.l * m) + o * ChunkBlocks(g.l, g.d + 1, q) + j % g.l
                             && 0 <= j % g.l < ChunkBlocks(g.l, g.d + 1, q) && j == q * g.l + j % g.l
  {
    hide ChunkBlocks, InChunk, Cell;
    var go, len := Outputs(g, m), ChunkBlocks(g.l, g.d + 1, q);
    var d0, c := q * (g.l * m) + o * len, Cell(go, o', j);
    if j / g.l == q {
      ChunkOfBlock(g.l, g.d + 1, j);
      ChunkOfInputs(go, q, j % g.l, o);
      OutputInChunk(m, len, o, j % g.l);
    }
    if d0 <= c < d0 + len {
      var p: nat := c - d0;
      ChunkOfInputs(go, q, p, o);
      OutputInChunk(m, len, o, p);
      CellInjective(go, o', j, o, q * g.l + p);
    }
  }

  /** One chunk of one output brings the loops one step further. */
  lemma DoneStep(g: Geometry, buf: seq<Block>, m: nat, coeffs: seq<seq<Word>>, b0: seq<Block>, b1: seq<Block>,
                 b2: seq<Block>, q: nat, o: nat, len: nat, s0: nat, d0: nat)
    requires Fits(g, buf) && |coeffs| == m && (forall h :: 0 <= h < m ==> |coeffs[h]| == g.n)
    requires |b0| == |b1| == |b2| && Fits(Outputs(g, m), b0)
    requires q * g.l <= g.d && o < m && len == ChunkBlocks(g.l, g.d + 1, q)
    requires s0 == q * (g.l * g.n) && s0 + len * g.n <= |buf| && d0 == q * (g.l * m) + o * len && d0 + len <= |b0|
    requires Done(g, buf, m, coeffs, b0, q, o)
    requires forall a :: d0 <= a < d0 + len ==> b1[a] == ZeroBlock()
    requires forall a :: 0 <= a < |b0| && !(d0 <= a < d0 + len) ==> b1[a] == b0[a]
    requires Accumulated(b1, b2, d0, buf, s0, g.n, g.i, len, coeffs[o], 0, g.n)
    ensures Done(g, buf, m, coeffs, b2, q, o + 1)
  {
    hide ChunkBlocks, InChunk, Cell, Combine, Add;
    var go := Outputs(g, m);
    forall o': nat, j: nat | o' < m && j <= g.d && Before(g, o', j, q, o + 1)
      ensures Combined(g, buf, m, coeffs[o'], b2, o', j)
    {
      RegionCell(g, m, q, o, o', j);
      CellBounds(go, o', j);
      if o' == o && j / g.l == q {
        var p: nat := j % g.l;
        ChunkColumn(g, buf, q, len, p);
        assert coeffs[o][0..g.n] == coeffs[o];
        AddLaws(Combine(coeffs[o], PackedColumn(g, buf, j)), ZeroBlock());
        assert b2[d0 + p] == Add(b1[d0 + p], Combine(coeffs[o][0..g.n], Cells(buf, s0, g.n, g.i, len, p, 0, g.n)));
      } else {
        assert Before(g, o', j, q, o);
        assert Combined(g, buf, m, coeffs[o'], b0, o', j);
      }
    }
  }

  lemma DoneNextChunk(g: Geometry, buf: seq<Block>, m: nat, coeffs: seq<seq<Word>>, out: seq<Block>, q: nat)
    requires Fits(g, buf) && |coeffs| == m && (forall o :: 0 <= o < m ==> |coeffs[o]| == g.n) && Fits(Outputs(g, m), out)
    requires Done(g, buf, m, coeffs, out, q, m)
    ensures Done(g, buf, m, coeffs, out, q + 1, 0)
  {
    hide Cell, Combine, Get;
    forall o: nat, j: nat | o < m && j <= g.d && Before(g, o, j, q + 1, 0)
      ensures Combined(g, buf, m, coeffs[o], out, o, j)
    {
      assert Before(g, o, j, q, m);
    }
  }

  /** Every chunk of every output, from cleared memory: the work of one batch. */
  method CombineAll(dst: array<Block>, src: array<Block>, g: Geometry, m: nat, coeffs: seq<seq<Word>>,
                    regionsPerCall: Positive)
    requires dst != src && Fits(g, src[..]) && Fits(Outputs(g, m), dst[..]) && regionsPerCall % g.i == 0
    requires |coeffs| == m && forall o :: 0 <= o < m ==> |coeffs[o]| == g.n
    modifies dst
    ensures forall o: nat, j: nat :: o < m && j <= g.d ==> Combined(g, src[..], m, coeffs[o], dst[..], o, j)
  {
    hide ChunkBlocks, Cell, Combine, Accumulated, Combined, Done, Get;
    var q := 0;
    DoneStart(g, src[..], m, coeffs, dst[..]);
    while q * g.l < g.d + 1
      invariant 0 <= q && Done(g, src[..], m, coeffs, dst[..], q, 0)
      decreases g.d + 1 - q * g.l
    {
      ChunkBounds(g, q, g.n);
      var len := ChunkBlocks(g.l, g.d + 1, q);
      var o := 0;
      while o < m
        invariant 0 <= o <= m && Done(g, src[..], m, coeffs, dst[..], q, o)
      {
        RegionBounds(g, q, m, o);
        var s0, d0 := q * (g.l * g.n), q * (g.l * m) + o * len;
        ghost var b0 := dst[..];
        ZeroRegion(dst, d0, len);
        ghost var b1 := dst[..];
        MuladdMultiPacked(g.i, regionsPerCall, g.n, g.n, dst, d0, src, s0, len, coeffs[o]);
        DoneStep(g, src[..], m, coeffs, b0, b1, dst[..], q, o, len, s0, d0);
        o := o + 1;
      }
      DoneNextChunk(g, src[..], m, coeffs, dst[..], q);
      Distribute(q, 1, g.l);
      q := q + 1;
    }
    AllDone(g, src[..], m, coeffs, dst[..], q);
  }

  lemma DoneStart(g: Geometry, buf: seq<Block>, m: nat, coeffs: seq<seq<Word>>, out: seq<Block>)
    requires Fits(g, buf) && |coeffs| == m && (forall o :: 0 <= o < m ==> |coeffs[o]| == g.n) && Fits(Outputs(g, m), out)
    ensures Done(g, buf, m, coeffs, out, 0, 0)
  {
    hide Combined;
    forall o: nat, j: nat ensures !Before(g, o, j, 0, 0) {
      DivMod(j, g.l);
    }
  }

  lemma AllDone(g: Geometry, buf: seq<Block>, m: nat, coeffs: seq<seq<Word>>, out: seq<Block>, q: nat)
    requires Fits(g, buf) && |coeffs| == m && (forall o :: 0 <= o < m ==> |coeffs[o]| == g.n) && Fits(Outputs(g, m), out)
    requires Done(g, buf, m, coeffs, out, q, 0) && q * g.l >= g.d + 1
    ensures forall o: nat, j: nat :: o < m && j <= g.d ==> Combined(g, buf, m, coeffs[o], out, o, j)
  {
    hide Combined;
    forall o: nat, j: nat | o < m && j <= g.d ensures Combined(g, buf, m, coeffs[o], out, o, j) {
      DivBelow(j, g.l, q);
      assert Before(g, o, j, q, 0);
    }
  }

  // Packing all slices.

  ghost predicate SlicePacked(g: Geometry, buf: seq<Block>, s: nat, src: seq<Byte>)
    requires Fits(g, buf) && s < g.n
  {
    forall j: nat :: j <= g.d ==> Get(g, buf, s, j) == SliceImage(src, g.d)[j]
  }

  lemma PackedKept(g: Geometry, buf: seq<Block>, s: nat, src: seq<Byte>, s': nat, src': seq<Byte>)
    requires Fits(g, buf) && s < g.n && s' < g.n && (s' == s ==> src' == src)
    requires s' != s ==> SlicePacked(g, buf, s', src')
    ensures SlicePacked(g, Put(g, buf, s, 0, SliceImage(src, g.d)), s', src')
  {
    hide Get, Put, SliceImage;
    var bs := SliceImage(src, g.d);
    forall j: nat | j <= g.d ensures Get(g, Put(g, buf, s, 0, bs), s', j) == SliceImage(src', g.d)[j] {
      GetPut(g, buf, s, 0, bs, s', j);
    }
  }

  method PrepareAll(dst: array<Block>, srcs: seq<seq<Byte>>, g: Geometry)
    requires |srcs| == g.n && Fits(g, dst[..]) && forall s :: 0 <= s < g.n ==> Packable(g, s, srcs[s])
    modifies dst
    ensures forall s: nat :: s < g.n ==> SlicePacked(g, dst[..], s, srcs[s])
  {
    hide Put, Get, SliceImage, Packable, SlicePacked;
    var s := 0;
    while s < g.n
      invariant 0 <= s <= g.n && forall s': nat :: s' < s ==> SlicePacked(g, dst[..], s', srcs[s'])
    {
      ghost var before := dst[..];
      PreparePackedCksum(dst, srcs[s], g, s);
      forall s': nat | s' < s + 1 ensures SlicePacked(g, dst[..], s', srcs[s']) {
        PackedKept(g, before, s, srcs[s], s', srcs[s']);
      }
      s := s + 1;
    }
  }

  // What comes out, word by word.

  /** Word w of every source, zero past its end. */
  function WordsAt(srcs: seq<seq<Byte>>, w: nat): (ws: seq<Word>)
    ensures |ws| == |srcs|
  {
    seq(|srcs|, r requires 0 <= r < |srcs| => WordAt(srcs[r], w))
  }

  lemma {:induction false} CombineLane(cs: seq<Word>, x: seq<Block>, ws: seq<Word>, i: nat)
    requires |cs| == |x| == |ws| && i < LANES && forall r :: 0 <= r < |x| ==> ws[r] == x[r][i]
    ensures Combine(cs, x)[i] == CombineWords(cs, ws)
    decreases |cs|
  {
    hide Xor, Mul;
    if cs != [] {
      var m := |cs| - 1;
      CombineLane(cs[..m], x[..m], ws[..m], i);
    }
  }

  lemma {:induction false} CombineWordsZero(cs: seq<Word>, ws: seq<Word>)
    requires |cs| == |ws| && forall r :: 0 <= r < |ws| ==> ws[r] == Zero
    ensures CombineWords(cs, ws) == Zero
    decreases |cs|
  {
    hide Xor, Mul;
    if cs != [] {
      CombineWordsZero(cs[..|cs| - 1], ws[..|cs| - 1]);
      MulZero(cs[|cs| - 1]);
      XorLaws(Zero, Zero);
    }
  }

  /** Lane i of block j of a source is its word j * LANES + i. */
  lemma PieceWord(s: seq<Byte>, j: nat, i: nat)
    requires i < LANES
    ensures 0 <= j * LANES + i && Load(Piece(s, j))[i] == WordAt(s, j * LANES + i)
  {
    hide WordOf, Times;
    PieceByte(s, j, 2 * i);
    PieceByte(s, j, 2 * i + 1);
    MulLe(0, j, LANES);
    TimesLanes(j);
  }

  lemma TimesLanes(j: nat)
    ensures Times(j, BLOCK_LEN) == 2 * (j * LANES)
  {
    Assoc3(2, j, LANES);
  }

  /** The data blocks of the padded sources, and what they combine to. */
  function PaddedAll(srcs: seq<seq<Byte>>, d: nat): (xs: seq<seq<Block>>)
    ensures |xs| == |srcs| && forall r :: 0 <= r < |xs| ==> |xs[r]| == d && xs[r] == Padded(srcs[r], d)
  {
    seq(|srcs|, r requires 0 <= r < |srcs| => Padded(srcs[r], d))
  }

  lemma CombinedWord(cs: seq<Word>, srcs: seq<seq<Byte>>, d: nat, j: nat, i: nat)
    requires |cs| == |srcs| && j < d && i < LANES
    ensures 0 <= j * LANES + i
    ensures CombineSlices(cs, PaddedAll(srcs, d), d)[j][i] == CombineWords(cs, WordsAt(srcs, j * LANES + i))
  {
    hide Combine, CombineWords, Load, Piece, WordAt;
    MulLe(0, j, LANES);
    var x, ws := Column(PaddedAll(srcs, d), d, j), WordsAt(srcs, j * LANES + i);
    forall r | 0 <= r < |x| ensures ws[r] == x[r][i] {
      PieceWord(srcs[r], j, i);
    }
    CombineLane(cs, x, ws, i);
  }

  /** The combined slice holds the combined data, and its checksum block their checksum. */
  lemma CombinedSlice(g: Geometry, buf: seq<Block>, srcs: seq<seq<Byte>>, m: nat, cs: seq<Word>, out: seq<Block>, o: nat)
    requires |srcs| == g.n == |cs| && Fits(g, buf) && Fits(Outputs(g, m), out) && o < m
    requires forall s: nat :: s < g.n ==> SlicePacked(g, buf, s, srcs[s])
    requires forall j: nat :: j <= g.d ==> Combined(g, buf, m, cs, out, o, j)
    ensures var ys := CombineSlices(cs, PaddedAll(srcs, g.d), g.d);
            && (forall j: nat :: j < g.d ==> Get(Outputs(g, m), out, o, j) == ys[j])
            && Get(Outputs(g, m), out, o, g.d) == Checksum(ZeroBlock(), ys)
  {
    hide Combine, Get, Checksum, Padded;
    var xs := PaddedAll(srcs, g.d);
    forall s: nat, j: nat | s < g.n && j <= g.d
      ensures Get(g, buf, s, j) == if j < g.d then xs[s][j] else Checksum(ZeroBlock(), xs[s])
    {
      assert SlicePacked(g, buf, s, srcs[s]);
    }
    forall j: nat | j < g.d ensures Get(Outputs(g, m), out, o, j) == CombineSlices(cs, xs, g.d)[j] {
      assert Combined(g, buf, m, cs, out, o, j);
      assert PackedColumn(g, buf, j) == Column(xs, g.d, j);
    }
    assert Combined(g, buf, m, cs, out, o, g.d);
    assert PackedColumn(g, buf, g.d) == Checksums(xs);
    ChecksumCombination(cs, xs, g.d);
  }

  // Unpacking an output.

  /** Blocks of a slice once its bytes past len are dropped. */
  lemma EmittedBlock(g: Geometry, buf: seq<Block>, s: nat, len: nat, j: nat)
    requires Fits(g, buf) && s < g.n && SlicesOf(g, len) && j < g.d
    ensures var b := Get(g, buf, s, j);
            Load(Piece(Output(g, buf, s, len), j)) == if j < Whole(len) then b else Load(Store(b)[..Tail(len)])
  {
    hide Load, Store, Get, Output, Piece, Quot, Rem, SlicesOf;
    SlicesMeans(g, len);
    if j < Whole(len) {
      OutputPiece(g, buf, s, len, j);
      LoadStore(Get(g, buf, s, j));
    } else {
      OutputTail(g, buf, s, len);
    }
  }

  /** Word i of a block cut off after t bytes, unless the cut goes through it. */
  lemma CutWord(b: Block, t: nat, i: nat)
    requires t <= BLOCK_LEN && i < LANES && 2 * i + 1 != t
    ensures Load(Store(b)[..t])[i] == if 2 * i + 1 < t then b[i] else Zero
  {
    hide WordOf, LowByte, HighByte, Store;
    ZeroBytes();
    StoredWord(b, i);
    WordBits(b[i]);
  }

  lemma StoredWord(b: Block, i: nat)
    requires i < LANES
    ensures 2 * i + 1 < BLOCK_LEN && Store(b)[2 * i] == LowByte(b[i]) && Store(b)[2 * i + 1] == HighByte(b[i])
  {
    hide LowByte, HighByte;
    assert (2 * i) / 2 == i && (2 * i + 1) / 2 == i && (2 * i) % 2 == 0 && (2 * i + 1) % 2 == 1;
  }

  /** A block cut off after t bytes keeps its words before t; it is unchanged when the rest is zero. */
  lemma CutShort(b: Block, t: nat)
    requires t <= BLOCK_LEN
    ensures forall i :: 0 <= i < LANES && 2 * i + 1 < t ==> Load(Store(b)[..t])[i] == b[i]
    ensures t % 2 == 0 && (forall i :: 0 <= i < LANES && t <= 2 * i ==> b[i] == Zero) ==> Load(Store(b)[..t]) == b
  {
    hide Load, Store;
    forall i | 0 <= i < LANES && 2 * i + 1 < t ensures Load(Store(b)[..t])[i] == b[i] { CutWord(b, t, i); }
    if t % 2 == 0 && forall i :: 0 <= i < LANES && t <= 2 * i ==> b[i] == Zero {
      forall i | 0 <= i < LANES ensures Load(Store(b)[..t])[i] == b[i] { CutWord(b, t, i); }
    }
  }

  /** Word w of an output is lane w % LANES of its block w / LANES. */
  lemma OutputWord(g: Geometry, buf: seq<Block>, s: nat, len: nat, w: nat)
    requires Fits(g, buf) && s < g.n && SlicesOf(g, len) && 2 * w + 1 < len
    ensures 0 <= w / LANES < g.d
    ensures WordAt(Output(g, buf, s, len), w) == Get(g, buf, s, w / LANES)[w % LANES]
  {
    hide Load, Store, Get, Output, Piece, SlicesOf, WordAt, Times, Quot, Rem;
    SlicesMeans(g, len);
    DivMod(w, LANES);
    var j, i := w / LANES, w % LANES;
    TimesLanes(j);
    BlocksInBound(len, g.d);
    TimesOrder(g.d, j, BLOCK_LEN);
    PieceWord(Output(g, buf, s, len), j, i);
    EmittedBlock(g, buf, s, len, j);
    if j >= Whole(len) {
      TimesOrder(Whole(len) + 1, j, BLOCK_LEN);
      TimesNext(Whole(len), BLOCK_LEN);
      WholeTail(len);
      CutShort(Get(g, buf, s, j), Tail(len));
    }
  }

  /** Checksums of slices that differ at most in their last block are equal only if that is. */
  lemma ChecksumLast(a: seq<Block>, b: seq<Block>)
    requires |a| == |b| > 0 && a[..|a| - 1] == b[..|a| - 1]
    ensures Checksum(ZeroBlock(), a) == Checksum(ZeroBlock(), b) <==> a[|a| - 1] == b[|a| - 1]
  {
    hide Add, Twice;
    var p := Twice(Checksum(ZeroBlock(), a[..|a| - 1]));
    AddLaws(p, a[|a| - 1]);
    AddLaws(p, b[|a| - 1]);
  }

  /** Whether dropping the bytes past len loses anything of the last block. */
  predicate NothingLost(b: Block, len: nat) { Tail(len) == 0 || Load(Store(b)[..Tail(len)]) == b }

  /** The verdict on a slice whose checksum is right: it holds exactly when nothing is lost at its end. */
  lemma VerdictExact(g: Geometry, buf: seq<Block>, s: nat, len: nat, ys: seq<Block>)
    requires Fits(g, buf) && s < g.n && SlicesOf(g, len) && |ys| == g.d
    requires forall j: nat :: j < g.d ==> Get(g, buf, s, j) == ys[j]
    ensures OutputChecksum(g, Output(g, buf, s, len)) == Checksum(ZeroBlock(), ys)
            <==> NothingLost(ys[g.d - 1], len)
  {
    hide Load, Store, Get, Output, Piece, SlicesOf, Quot, Rem, Checksum;
    SlicesMeans(g, len);
    WholeTail(len);
    var zs := Padded(Output(g, buf, s, len), g.d);
    forall j: nat | j < g.d ensures zs[j] == if j < Whole(len) then ys[j] else Load(Store(ys[j])[..Tail(len)]) {
      EmittedBlock(g, buf, s, len, j);
    }
    ChecksumLast(zs, ys);
  }

  /** Sources no longer than the output have nothing in its last block that could be lost. */
  lemma ShortSources(cs: seq<Word>, srcs: seq<seq<Byte>>, d: nat, len: nat)
    requires |cs| == |srcs| && d == BlocksIn(len) && 1 <= d && len % 2 == 0
    requires forall r :: 0 <= r < |srcs| ==> |srcs[r]| <= len
    ensures NothingLost(CombineSlices(cs, PaddedAll(srcs, d), d)[d - 1], len)
  {
    hide Load, Store, CombineSlices, WordAt, Times, Quot, Rem, CombineWords;
    var b := CombineSlices(cs, PaddedAll(srcs, d), d)[d - 1];
    var t := Tail(len);
    WholeTail(len);
    TimesLanes(Whole(len));
    if t != 0 {
      forall i | 0 <= i < LANES && t <= 2 * i ensures b[i] == Zero {
        CombinedWord(cs, srcs, d, d - 1, i);
        var w := (d - 1) * LANES + i;
        forall r | 0 <= r < |srcs| ensures WordsAt(srcs, w)[r] == Zero { WordBeyond(srcs[r], w); }
        CombineWordsZero(cs, WordsAt(srcs, w));
      }
      CutShort(b, t);
    }
  }

  lemma WordBeyond(s: seq<Byte>, w: nat)
    requires |s| <= 2 * w
    ensures WordAt(s, w) == Zero
  {
    hide WordOf;
    ZeroBytes();
  }

  /** The last byte of an output of odd length is the lower half of the word it begins. */
  lemma LastByte(g: Geometry, buf: seq<Block>, s: nat, len: nat)
    requires Fits(g, buf) && s < g.n && SlicesOf(g, len) && len % 2 == 1
    ensures var w := len / 2; 0 <= w / LANES < g.d && 0 <= w % LANES
    ensures var w := len / 2; Output(g, buf, s, len)[len - 1] == LowByte(Get(g, buf, s, w / LANES)[w % LANES])
  {
    hide Store, Get, LowByte, HighByte, SlicesOf, Times, Quot, Rem;
    var w := len / 2;
    DivMod(w, LANES);
    TimesLanes(w / LANES);
    QuotUnique(len - 1, BLOCK_LEN, w / LANES, 2 * (w % LANES));
    BlockOfByte(g, len, len - 1);
    StoredWord(Get(g, buf, s, w / LANES), w % LANES);
  }

  /** What one output looks like when everything went well. */
  ghost predicate IsCombination(out: seq<Byte>, len: nat, cs: seq<Word>, srcs: seq<seq<Byte>>)
    requires |cs| == |srcs|
  {
    && |out| == len && (forall w: nat :: 2 * w + 1 < len ==> WordAt(out, w) == CombineWords(cs, WordsAt(srcs, w)))
    && (len % 2 == 1 ==> out[len - 1] == LowByte(CombineWords(cs, WordsAt(srcs, len / 2))))
  }

  lemma OutputIsCombination(g: Geometry, out: seq<Block>, o: nat, len: nat, cs: seq<Word>, srcs: seq<seq<Byte>>)
    requires Fits(g, out) && o < g.n && SlicesOf(g, len) && |cs| == |srcs|
    requires forall j: nat :: j < g.d ==> Get(g, out, o, j) == CombineSlices(cs, PaddedAll(srcs, g.d), g.d)[j]
    ensures IsCombination(Output(g, out, o, len), len, cs, srcs)
  {
    hide Get, CombineSlices, WordAt, SlicesOf, CombineWords;
    forall w: nat | 2 * w + 1 < len
      ensures WordAt(Output(g, out, o, len), w) == CombineWords(cs, WordsAt(srcs, w))
    {
      OutputWord(g, out, o, len, w);
      DivMod(w, LANES);
      CombinedWord(cs, srcs, g.d, w / LANES, w % LANES);
    }
    if len % 2 == 1 {
      LastByte(g, out, o, len);
      DivMod(len / 2, LANES);
      CombinedWord(cs, srcs, g.d, (len / 2) / LANES, (len / 2) % LANES);
    }
  }

  /**
   Any number of slices, any chunk length and interleave, any coefficients: every output is the
   linear combination of the zero-padded sources.  Its checksum test succeeds exactly when the
   combination has nothing in its last block past the end of the output; in particular when no
   source is longer than the output.
   */
  method Recover(srcs: seq<seq<Byte>>, coeffs: seq<seq<Word>>, len: nat, g: Geometry, regionsPerCall: Positive)
    returns (outs: seq<seq<Byte>>, valid: seq<bool>)
    requires |srcs| == g.n && (forall s :: 0 <= s < g.n ==> Packable(g, s, srcs[s])) && SlicesOf(g, len)
    requires (forall o :: 0 <= o < |coeffs| ==> |coeffs[o]| == g.n) && regionsPerCall % g.i == 0
    ensures |outs| == |valid| == |coeffs|
    ensures forall o :: 0 <= o < |coeffs| ==> IsCombination(outs[o], len, coeffs[o], srcs)
    ensures forall o :: 0 <= o < |coeffs| ==>
              (valid[o] <==> NothingLost(CombineSlices(coeffs[o], PaddedAll(srcs, g.d), g.d)[g.d - 1], len))
    ensures len % 2 == 0 && (forall s :: 0 <= s < g.n ==> |srcs[s]| <= len) ==> forall o :: 0 <= o < |valid| ==> valid[o]
  {
    hide Get, Put, Combined, SlicePacked, Packable, SlicesOf, CombineSlices, PaddedAll, NothingLost, IsCombination, Output, OutputChecksum, Checksum;
    var m := |coeffs|;
    SlicesMeans(g, len);
    SizeBound(g.n, g.d); SizeBound(m, g.d);
    var staging := new Block[g.n * (g.d + 1)](_ => ZeroBlock());
    PrepareAll(staging, srcs, g);
    var memProcessing := new Block[m * (g.d + 1)](_ => ZeroBlock());
    CombineAll(memProcessing, staging, g, m, coeffs, regionsPerCall);
    var go := Outputs(g, m);
    SlicesMeans(go, len);
    outs, valid := [], [];
    ghost var packed, out := staging[..], memProcessing[..];
    var o := 0;
    while o < m
      invariant 0 <= o <= m && |outs| == |valid| == o && memProcessing[..] == out
      invariant forall o' :: 0 <= o' < o ==> IsCombination(outs[o'], len, coeffs[o'], srcs)
      invariant forall o' :: 0 <= o' < o ==>
                  (valid[o'] <==> NothingLost(CombineSlices(coeffs[o'], PaddedAll(srcs, g.d), g.d)[g.d - 1], len))
    {
      var bytes := new Byte[len](_ => 0);
      ghost var rest := bytes[..][len..];
      var verdict := FinishPackedCksum(bytes, memProcessing[..], go, o, len);
      OneOutput(g, packed, srcs, m, coeffs[o], out, o, len, bytes[..], rest);
      outs, valid := outs + [bytes[..]], valid + [verdict];
      o := o + 1;
    }
    if len % 2 == 0 && forall s :: 0 <= s < g.n ==> |srcs[s]| <= len {
      forall o' | 0 <= o' < m ensures valid[o'] { ShortSources(coeffs[o'], srcs, g.d, len); }
    }
  }

  lemma SizeBound(n: nat, d: nat)
    ensures 0 <= n * (d + 1)
  {
  }

  lemma OneOutput(g: Geometry, buf: seq<Block>, srcs: seq<seq<Byte>>, m: nat, cs: seq<Word>, out: seq<Block>, o: nat,
                  len: nat, bytes: seq<Byte>, rest: seq<Byte>)
    requires |srcs| == g.n == |cs| && Fits(g, buf) && Fits(Outputs(g, m), out) && o < m
    requires SlicesOf(g, len) && SlicesOf(Outputs(g, m), len) && |bytes| == len
    requires forall s: nat :: s < g.n ==> SlicePacked(g, buf, s, srcs[s])
    requires forall j: nat :: j <= g.d ==> Combined(g, buf, m, cs, out, o, j)
    requires bytes == Output(Outputs(g, m), out, o, len) + rest
    ensures IsCombination(bytes, len, cs, srcs)
    ensures var go := Outputs(g, m);
            Get(go, out, o, go.d) == OutputChecksum(go, Output(go, out, o, len))
            <==> NothingLost(CombineSlices(cs, PaddedAll(srcs, g.d), g.d)[g.d - 1], len)
  {
    hide Get, Combined, SlicePacked, CombineSlices, PaddedAll, NothingLost, IsCombination, OutputChecksum, Checksum, SlicesOf;
    SlicesMeans(g, len);
    var go := Outputs(g, m);
    var ys := CombineSlices(cs, PaddedAll(srcs, g.d), g.d);
    CombinedSlice(g, buf, srcs, m, cs, out, o);
    OutputIsCombination(go, out, o, len, cs, srcs);
    VerdictExact(go, out, o, len, ys);
    assert bytes == Output(go, out, o, len);
  }
}
