/**
 Packing a slice: gf16_prepare_packed and its whole and partial entry points, over a buffer of
 blocks.  Lengths the code requires to be whole blocks are counted in blocks.
 */
module Prepare {
  import opened Arith
  import opened Field
  import opened Blocks
  import opened Bytes
  import opened Layout
  import opened Packed

  /** The largest size_t, in blocks: the code's way of saying that a part completes its slice. */
  const UNLIMITED: nat := 0xFFFF_FFFF_FFFF_FFFF / BLOCK_LEN

  /** Blocks lo to hi of the padded source. */
  function Cut(src: seq<Byte>, d: nat, lo: int, hi: int): (bs: seq<Block>)
    requires 0 <= lo <= hi <= d
    ensures |bs| == hi - lo && forall k :: 0 <= k < hi - lo ==> bs[k] == Load(Piece(src, lo + k))
  {
    Padded(src, d)[lo..hi]
  }

  lemma CutJoin(src: seq<Byte>, d: nat, a: int, b: int, c: int)
    requires 0 <= a <= b <= c <= d
    ensures Cut(src, d, a, b) + Cut(src, d, b, c) == Cut(src, d, a, c)
  {
  }

  lemma CutSnoc(src: seq<Byte>, d: nat, a: int, b: int)
    requires 0 <= a <= b < d
    ensures Cut(src, d, a, b) + [Load(Piece(src, b))] == Cut(src, d, a, b + 1)
  {
  }

  /** The checksum over padding, taken in one multiplication. */
  lemma CutZeroes(src: seq<Byte>, d: nat, a: int, b: int, c: Block)
    requires BlocksIn(|src|) <= a <= b <= d
    ensures Scale(Exp((b - a) % 65535), c) == Checksum(c, Cut(src, d, a, b))
  {
    hide Checksum, Scale, Wind, Padded;
    var bs := Cut(src, d, a, b);
    forall k | 0 <= k < |bs| ensures bs[k] == ZeroBlock() { PieceBeyond(src, a + k); }
    ChecksumZeroes(c, bs);
    ScaleExp(c, b - a);
  }

  function Address(base: int, w: int, p: int): int { base + p * w }

  /** Where chunk q of slice s begins, when the chunk is len blocks long. */
  function ChunkBase(g: Geometry, s: nat, q: nat, len: int): int {
    (s / g.i) * len * g.i + s % g.i + g.l * g.n * q
  }

  /** Blocks lo to hi after block first of slice s lie at base, spaced w apart. */
  ghost predicate Addressed(g: Geometry, s: nat, base: int, w: int, first: nat, lo: nat, hi: int) {
    forall p: nat :: lo <= p < hi ==> Address(base, w, p) == Cell(g, s, first + p)
  }

  /** The addresses the code computes for chunk q agree with the layout. */
  lemma ChunkAddress(g: Geometry, s: nat, q: nat, len: int)
    requires len == ChunkBlocks(g.l, g.d + 1, q) && len <= g.l
    ensures Times(q, g.l) >= 0
    ensures Addressed(g, s, ChunkBase(g, s, q, len), Width(g.n, g.i, s), Times(q, g.l), 0, len)
  {
    hide ChunkBlocks, Width;
    MulLe(0, q, g.l);
    var base, w := ChunkBase(g, s, q, len), Width(g.n, g.i, s);
    forall p: nat | p < len ensures Address(base, w, p) == Cell(g, s, Times(q, g.l) + p) {
      DivUnique(q * g.l + p, g.l, q, p);
    }
  }

  /** The inner loop that copies blocks until the chunk or the part ends. */
  method PackBlocks(dst: array<Block>, src: seq<Byte>, base: int, w: int, first: nat, pos0: nat, limit: nat,
                    left0: nat, cks: Block, ghost g: Geometry, ghost s: nat)
    returns (pos: nat, left: nat, c: Block, stop: bool)
    requires Fits(g, dst[..]) && s < g.n && pos0 <= limit && first + limit <= g.d
    requires first + limit <= Whole(|src|)
    requires Addressed(g, s, base, w, first, pos0, limit)
    modifies dst
    ensures pos == pos0 + Min(limit - pos0, left0) && left == left0 - (pos - pos0) && (stop <==> pos < limit)
    ensures c == Checksum(cks, Cut(src, g.d, first + pos0, first + pos))
    ensures dst[..] == Put(g, old(dst[..]), s, first + pos0, Cut(src, g.d, first + pos0, first + pos))
  {
    hide Checksum, Put, Add, Twice, Load, Cell, Piece, Padded;
    pos, left, c := pos0, left0, cks;
    ChecksumNone(cks, Cut(src, g.d, first + pos0, first + pos0));
    PutNone(g, dst[..], s, first + pos0, Cut(src, g.d, first + pos0, first + pos0));
    while pos < limit
      invariant pos0 <= pos <= limit && left == left0 - (pos - pos0)
      invariant c == Checksum(cks, Cut(src, g.d, first + pos0, first + pos))
      invariant dst[..] == Put(g, old(dst[..]), s, first + pos0, Cut(src, g.d, first + pos0, first + pos))
    {
      if left == 0 { return pos, left, c, true; }
      PieceWhole(src, first + pos);
      var at := Times(first + pos, BLOCK_LEN);
      var b := Load(src[at..at + BLOCK_LEN]);
      ghost var done := Cut(src, g.d, first + pos0, first + pos);
      CutSnoc(src, g.d, first + pos0, first + pos);
      ChecksumSnoc(cks, done, b);
      PutSnoc(g, old(dst[..]), s, first + pos0, done, b);
      c := Add(Twice(c), b);
      dst[Address(base, w, pos)] := b;
      left := left - 1;
      pos := pos + 1;
    }
    stop := false;
  }

  lemma ChecksumNone(c: Block, bs: seq<Block>)
    requires bs == []
    ensures Checksum(c, bs) == c
  {
  }

  lemma PutNone(g: Geometry, buf: seq<Block>, s: nat, lo: nat, bs: seq<Block>)
    requires Fits(g, buf) && s < g.n && lo <= g.d + 1 && bs == []
    ensures Put(g, buf, s, lo, bs) == buf
  {
  }

  lemma PutSnoc(g: Geometry, buf: seq<Block>, s: nat, lo: nat, bs: seq<Block>, b: Block)
    requires Fits(g, buf) && s < g.n && lo + |bs| <= g.d
    ensures 0 <= Cell(g, s, lo + |bs|) < |buf|
    ensures Put(g, buf, s, lo, bs + [b]) == Put(g, buf, s, lo, bs)[Cell(g, s, lo + |bs|) := b]
  {
    hide Cell;
    CellBounds(g, s, lo + |bs|);
    assert (bs + [b])[..|bs|] == bs;
  }

  /** The inner loop that clears blocks; the checksum has already been moved on. */
  method ZeroBlocks(dst: array<Block>, ghost src: seq<Byte>, base: int, w: int, ghost first: nat, pos0: nat,
                    limit: nat, left0: nat, ghost g: Geometry, ghost s: nat)
    returns (pos: nat, left: nat, stop: bool)
    requires Fits(g, dst[..]) && s < g.n && pos0 <= limit && first + limit <= g.d
    requires BlocksIn(|src|) <= first + pos0
    requires Addressed(g, s, base, w, first, pos0, limit)
    modifies dst
    ensures pos == pos0 + Min(limit - pos0, left0) && left == left0 - (pos - pos0) && (stop <==> pos < limit)
    ensures dst[..] == Put(g, old(dst[..]), s, first + pos0, Cut(src, g.d, first + pos0, first + pos))
  {
    hide Put, Load, Cell, Piece, Padded;
    pos, left := pos0, left0;
    PutNone(g, dst[..], s, first + pos0, Cut(src, g.d, first + pos0, first + pos0));
    while pos < limit
      invariant pos0 <= pos <= limit && left == left0 - (pos - pos0)
      invariant dst[..] == Put(g, old(dst[..]), s, first + pos0, Cut(src, g.d, first + pos0, first + pos))
    {
      if left == 0 { return pos, left, true; }
      PieceBeyond(src, first + pos);
      CutSnoc(src, g.d, first + pos0, first + pos);
      PutSnoc(g, old(dst[..]), s, first + pos0, Cut(src, g.d, first + pos0, first + pos), ZeroBlock());
      dst[Address(base, w, pos)] := ZeroBlock();
      left := left - 1;
      pos := pos + 1;
    }
    stop := false;
  }

  // How the chunk lengths the code derives fit the layout.

  /** dataChunkLen: the whole slice when the chunk would take in the checksum too. */
  function DataChunk(l: Positive, d: nat): Positive
    requires 1 <= d
  {
    Min(l, d)
  }

  /** A chunk that lies wholly inside the data. */
  lemma FullChunk(l: Positive, d: nat, q: nat)
    requires 1 <= d && l <= d + 1 && Times(q + 1, DataChunk(l, d)) <= d
    ensures Times(q, DataChunk(l, d)) == Times(q, l) && ChunkBlocks(l, d + 1, q) == l
  {
    if l > d {
      if q > 0 { MulLess(1, q + 1, d); }
      assert q == 0;
    }
  }

  /** The slice's last data chunk, when its data does not fill a chunk. */
  lemma ShortChunk(l: Positive, d: nat)
    requires 1 <= d && l <= d + 1 && Rem(d, DataChunk(l, d)) > 0
    ensures l <= d
    ensures var q := Quot(d, DataChunk(l, d)); var rest := Rem(d + 1, l);
            && Times(q, DataChunk(l, d)) == Times(q, l)
            && ChunkBlocks(l, d + 1, q) == (if rest == 0 then l else rest) == Rem(d, DataChunk(l, d)) + 1
            && (rest == 0 <==> Times(Quot(d + 1, l), l) > d)
            && (rest != 0 ==> Quot(d + 1, l) == q)
  {
    hide Times, Quot, Rem, ChunkBlocks;
    if l > d {
      TimesNext(0, d);
      QuotUnique(d, d, 1, 0);
    }
    LastChunkNamed(l, d);
    QuotRem(d + 1, l);
    if Rem(d + 1, l) != 0 { QuotUnique(d, l, Quot(d + 1, l), Rem(d + 1, l) - 1); }
  }

  lemma LastChunkNamed(l: Positive, d: nat)
    ensures var rest := Rem(d + 1, l);
            ChunkBlocks(l, d + 1, Quot(d, l)) == (if rest == 0 then l else rest) == Rem(d, l) + 1
  {
    hide ChunkBlocks;
    LastChunk(l, d);
  }

  /** lastChunkLen and effectiveLastChunkLen for a source reaching into sb blocks. */
  function LastLen(l: Positive, d: nat, sb: nat): int
    requires 1 <= d
  {
    if sb > Times(Quot(d, DataChunk(l, d)), DataChunk(l, d)) then Rem(d, DataChunk(l, d)) else DataChunk(l, d)
  }

  function EffectiveLen(l: Positive, d: nat, sb: nat): int {
    if sb > Times(Quot(d + 1, l), l) then Rem(d + 1, l) else l
  }

  /** The chunk of the source's last bytes: data blocks in it and, with the checksum, its length. */
  lemma PartialChunk(l: Positive, d: nat, sb: nat, q: nat)
    requires 1 <= d && l <= d + 1 && sb <= d && Times(q, DataChunk(l, d)) < sb <= Times(q + 1, DataChunk(l, d))
    ensures var dl := DataChunk(l, d);
            && Times(q, dl) == Times(q, l) && EffectiveLen(l, d, sb) == ChunkBlocks(l, d + 1, q)
            && LastLen(l, d, sb) == Min(dl, d - Times(q, dl)) && LastLen(l, d, sb) <= EffectiveLen(l, d, sb) <= l
  {
    hide ChunkBlocks, Times, Quot, Rem;
    var dl := DataChunk(l, d);
    var m := Quot(d, dl);
    QuotRem(d, dl);
    QuotRem(d + 1, l);
    TimesOrder(q, m, dl);
    TimesOrder(q + 1, m, dl);
    TimesOrder(m, q, dl);
    TimesOrder(m + 1, q, dl);
    TimesNext(q, dl);
    TimesNext(m, dl);
    if sb > Times(m, dl) {
      assert q == m;
      ShortChunk(l, d);
    } else {
      assert q + 1 <= m;
      FullChunk(l, d, q);
      LastMultiple(l, d);
    }
  }

  lemma LastMultiple(l: Positive, d: nat)
    requires 1 <= d && l <= d + 1
    ensures Times(Quot(d, DataChunk(l, d)), DataChunk(l, d)) <= Times(Quot(d + 1, l), l)
  {
    hide Times, Quot, Rem;
    var dl := DataChunk(l, d);
    QuotRem(d, dl);
    if l > d {
      TimesNext(0, l);
      QuotUnique(d + 1, l, 1, 0);
    } else {
      QuotRem(d + 1, l);
      TimesOrder(Quot(d + 1, l) + 1, Quot(d, l), l);
      TimesNext(Quot(d + 1, l), l);
      TimesOrder(Quot(d, l), Quot(d + 1, l), l);
    }
  }

  // The whole function.

  /** What has been done when block j is the next one. */
  ghost predicate Reached(g: Geometry, s: nat, src: seq<Byte>, po: int, j: int, orig: seq<Block>, buf: seq<Block>,
                          cks: Block, c: Block)
    requires Fits(g, orig) && s < g.n
  {
    && 0 <= po <= j <= g.d
    && buf == Put(g, orig, s, po, Cut(src, g.d, po, j))
    && c == Checksum(cks, Cut(src, g.d, po, j))
  }

  lemma ReachedStep(g: Geometry, s: nat, src: seq<Byte>, po: int, j: int, j': int, orig: seq<Block>,
                    buf: seq<Block>, buf': seq<Block>, cks: Block, c: Block, c': Block)
    requires Fits(g, orig) && s < g.n && Reached(g, s, src, po, j, orig, buf, cks, c) && j <= j' <= g.d
    requires |buf| == |orig| && buf' == Put(g, buf, s, j, Cut(src, g.d, j, j'))
    requires c' == Checksum(c, Cut(src, g.d, j, j'))
    ensures Reached(g, s, src, po, j', orig, buf', cks, c')
  {
    hide Put, Checksum, Padded, Cut;
    CutSizes(src, g.d, po, j, j');
    CutJoin(src, g.d, po, j, j');
    PutAppend(g, orig, s, po, Cut(src, g.d, po, j), Cut(src, g.d, j, j'));
    ChecksumAppend(cks, Cut(src, g.d, po, j), Cut(src, g.d, j, j'));
  }

  lemma CutSizes(src: seq<Byte>, d: nat, a: int, b: int, c: int)
    requires 0 <= a <= b <= c <= d
    ensures |Cut(src, d, a, b)| == b - a && |Cut(src, d, b, c)| == c - b && |Cut(src, d, a, c)| == c - a
  {
  }

  /** Whether the part from block po reaches the end of the source. */
  predicate Completes(src: seq<Byte>, po: nat, partLen: nat) { Times(po, BLOCK_LEN) + partLen == |src| }

  /** The parts the callers may pass. */
  predicate PartOf(src: seq<Byte>, po: nat, partLen: nat) {
    && Times(po, BLOCK_LEN) + partLen <= |src|
    && (Completes(src, po, partLen) || Tail(partLen) == 0)
  }

  /** Slices the packing code accepts: not empty, and addressable. */
  predicate Packable(g: Geometry, s: nat, src: seq<Byte>) {
    s < g.n && 1 <= g.d < UNLIMITED && g.l <= g.d + 1 && |src| <= Times(g.d, BLOCK_LEN)
  }

  /** How far a part gets: to the end of the padded slice when it completes the source. */
  function PartEnd(g: Geometry, src: seq<Byte>, po: nat, partLen: nat): int {
    if Completes(src, po, partLen) then g.d else po + Whole(partLen)
  }

  /** A part that does not complete the source ends before the source's last bytes. */
  lemma PartEndBounds(g: Geometry, src: seq<Byte>, po: nat, partLen: nat)
    requires |src| <= Times(g.d, BLOCK_LEN) && PartOf(src, po, partLen)
    ensures po <= PartEnd(g, src, po, partLen) <= g.d && po <= Whole(|src|) && BlocksIn(|src|) <= g.d
    ensures !Completes(src, po, partLen) ==>
              PartEnd(g, src, po, partLen) <= Whole(|src|) && PartEnd(g, src, po, partLen) < BlocksIn(|src|)
  {
    hide Times, Quot, Rem;
    var f := Whole(|src|);
    QuotRem(|src|, BLOCK_LEN);
    TimesOrder(g.d + 1, f + 1, BLOCK_LEN);
    TimesOrder(g.d, f, BLOCK_LEN);
    TimesNext(g.d, BLOCK_LEN);
    TimesNext(f, BLOCK_LEN);
    TimesOrder(f + 1, po, BLOCK_LEN);
    if !Completes(src, po, partLen) {
      QuotRem(partLen, BLOCK_LEN);
      var hi := po + Whole(partLen);
      TimesSum(po, Whole(partLen), BLOCK_LEN);
      TimesOrder(f + 1, hi, BLOCK_LEN);
    }
  }

  /** The chunks that the source fills. */
  method PackFullChunks(dst: array<Block>, src: seq<Byte>, g: Geometry, s: nat, po: nat, left0: nat, cks: Block)
    returns (chunk: nat, pos: nat, left: nat, c: Block, stop: bool, ghost j: nat)
    requires Fits(g, dst[..]) && Packable(g, s, src) && po <= Whole(|src|) && BlocksIn(|src|) <= g.d
    modifies dst
    ensures Reached(g, s, src, po, j, old(dst[..]), dst[..], cks, c) && left == left0 - (j - po)
    ensures stop ==> left == 0 && j < Whole(|src|)
    ensures !stop ==> var dl := DataChunk(g.l, g.d); var whole := Whole(|src|);
                      && chunk == Quot(whole, dl) && j == Times(chunk, dl) + pos && pos <= Rem(whole, dl) && j <= whole
  {
    hide Checksum, Put, Add, Twice, Load, Cell, Piece, Padded, Cut, Width, ChunkBlocks, Scale, Exp, Times, Quot, Rem, Whole, Tail, ChunkBase;
    ghost var orig := dst[..];
    var dl := DataChunk(g.l, g.d);
    var interleaveBy := Width(g.n, g.i, s);
    var whole := Whole(|src|);
    var fullChunks := Quot(whole, dl);
    chunk, pos := Quot(po, dl), Rem(po, dl);
    c, left, stop, j := cks, left0, false, po;
    QuotRem(po, dl); QuotRem(whole, dl);
    TimesOrder(fullChunks, chunk, dl);
    ReachedStart(g, s, src, po, orig, cks);
    while chunk < fullChunks
      invariant Reached(g, s, src, po, j, orig, dst[..], cks, c) && left == left0 - (j - po)
      invariant chunk <= fullChunks && 0 <= pos < dl && j == Times(chunk, dl) + pos
      invariant chunk == fullChunks ==> pos <= Rem(whole, dl)
    {
      TimesOrder(chunk, fullChunks, dl);
      TimesNext(chunk, dl);
      FullChunk(g.l, g.d, chunk);
      ChunkAddress(g, s, chunk, g.l);
      ghost var buf, c0, p0 := dst[..], c, pos;
      pos, left, c, stop := PackBlocks(dst, src, ChunkBase(g, s, chunk, g.l), interleaveBy, Times(chunk, dl), pos, dl,
                                       left, c, g, s);
      ReachedStep(g, s, src, po, j, Times(chunk, dl) + pos, orig, buf, dst[..], cks, c0, c);
      j := Times(chunk, dl) + pos;
      if stop { return; }
      pos := 0;
      chunk := chunk + 1;
    }
  }

  lemma ReachedStart(g: Geometry, s: nat, src: seq<Byte>, po: nat, orig: seq<Block>, cks: Block)
    requires Fits(g, orig) && s < g.n && po <= g.d
    ensures Reached(g, s, src, po, po, orig, orig, cks, cks)
  {
  }

  /** The misaligned end of the source: one block, zero padded. */
  method PackTail(dst: array<Block>, src: seq<Byte>, base: int, w: int, first: nat, len: nat, cks: Block,
                  ghost g: Geometry, ghost s: nat)
    returns (c: Block)
    requires Fits(g, dst[..]) && s < g.n && first + len == Whole(|src|) < g.d
    requires Address(base, w, len) == Cell(g, s, first + len)
    modifies dst
    ensures c == Checksum(cks, Cut(src, g.d, first + len, first + len + 1))
    ensures dst[..] == Put(g, old(dst[..]), s, first + len, Cut(src, g.d, first + len, first + len + 1))
  {
    hide Checksum, Put, Add, Twice, Load, Cell, Piece, Padded, Cut, Times, Whole, Tail;
    PieceTail(src);
    var b := Load(src[Times(first + len, BLOCK_LEN)..]);
    OneMore(g, s, src, first + len, dst[..], cks);
    c := Add(Twice(cks), b);
    dst[Address(base, w, len)] := b;
  }

  /** The rest of that chunk: the misaligned end of the source, then zeroes. */
  method PackChunkEnd(dst: array<Block>, src: seq<Byte>, g: Geometry, s: nat, base: int, w: int, first: nat, lastChunkLen: nat,
                      left0: nat, c0: Block, ghost orig: seq<Block>, ghost j0: nat, ghost cks: Block, ghost completing: bool)
    returns (pos: nat, left: nat, c: Block, stop: bool)
    requires Fits(g, dst[..]) && Fits(g, orig) && |orig| == dst.Length && Packable(g, s, src)
    requires first <= Whole(|src|) && BlocksIn(|src|) <= first + lastChunkLen <= g.d
    requires Addressed(g, s, base, w, first, Whole(|src|) - first, lastChunkLen)
    requires Reached(g, s, src, j0, Whole(|src|), orig, dst[..], cks, c0)
    requires if completing then left0 > g.d - Whole(|src|) else left0 == 0 && Tail(|src|) > 0
    modifies dst
    ensures first + pos <= g.d && Reached(g, s, src, j0, first + pos, orig, dst[..], cks, c)
    ensures var whole := Whole(|src|); whole <= first + pos && left == left0 - (first + pos - whole)
    ensures stop == !completing && if stop then left == 0 else pos == lastChunkLen
  {
    hide Checksum, Put, Cell, Cut, Scale, Exp, Times, Whole, Tail, Reached, Address;
    pos, left, c, stop := Whole(|src|) - first, left0, c0, false;
    BlocksInMeans(|src|);
    if Tail(|src|) > 0 {
      if left == 0 { stop := true; return; }
      ghost var buf, j := dst[..], first + pos;
      c := PackTail(dst, src, base, w, first, pos, c, g, s);
      pos, left := pos + 1, left - 1;
      ReachedStep(g, s, src, j0, j, j + 1, orig, buf, dst[..], cks, c0, c);
    }
    ghost var buf, c1, j := dst[..], c, first + pos;
    c := Scale(Exp(Min(lastChunkLen - pos, left) % 65535), c);
    CutZeroes(src, g.d, j, first + lastChunkLen, c1);
    pos, left, stop := ZeroBlocks(dst, src, base, w, first, pos, lastChunkLen, left, g, s);
    ReachedStep(g, s, src, j0, j, first + lastChunkLen, orig, buf, dst[..], cks, c1, c);
  }

  /** The chunk holding the source's last bytes, cleared to the end of its data. */
  method PackPartialChunk(dst: array<Block>, src: seq<Byte>, g: Geometry, s: nat, pos0: nat, left0: nat, cks: Block,
                          ghost completing: bool)
    returns (pos: nat, left: nat, c: Block, stop: bool, ghost j: nat)
    requires Fits(g, dst[..]) && Packable(g, s, src) && BlocksIn(|src|) <= g.d
    requires var dl := DataChunk(g.l, g.d); var whole := Whole(|src|); var j0 := Times(Quot(whole, dl), dl) + pos0;
             && pos0 <= Rem(whole, dl) && (Rem(whole, dl) > 0 || Tail(|src|) > 0)
             && (if completing then left0 > g.d - j0 else left0 + j0 <= whole && left0 + j0 < BlocksIn(|src|))
    modifies dst
    ensures var dl := DataChunk(g.l, g.d); var q := Quot(Whole(|src|), dl); var j0 := Times(q, dl) + pos0;
            && 0 <= j0 <= j <= g.d && left == left0 - (j - j0) && stop == !completing
            && c == Checksum(cks, Cut(src, g.d, j0, j))
            && dst[..] == Put(g, old(dst[..]), s, j0, Cut(src, g.d, j0, j))
            && (stop ==> left == 0)
            && (!stop ==> j == Times(q, dl) + Min(dl, g.d - Times(q, dl)))
  {
    hide Checksum, Put, Add, Twice, Load, Cell, Piece, Padded, Cut, Width, ChunkBlocks, Scale, Exp, Times, Quot, Rem, Whole, Tail, ChunkBase, DataChunk, BlocksIn, Reached, Address;
    ghost var orig := dst[..];
    var dl := DataChunk(g.l, g.d);
    var interleaveBy := Width(g.n, g.i, s);
    var whole, tail := Whole(|src|), Tail(|src|);
    var fullChunks := Quot(whole, dl);
    var len := Rem(whole, dl);
    var reach := BlocksIn(|src|);
    QuotRem(whole, dl);
    BlocksInMeans(|src|);
    TimesNext(fullChunks, dl);
    PartialChunk(g.l, g.d, reach, fullChunks);
    var lastChunkLen, effectiveLastChunkLen := dl, g.l;
    if reach > Times(Quot(g.d, dl), dl) { lastChunkLen := Rem(g.d, dl); }
    if reach > Times(Quot(g.d + 1, g.l), g.l) { effectiveLastChunkLen := Rem(g.d + 1, g.l); }
    var first := Times(fullChunks, dl);
    var base := ChunkBase(g, s, fullChunks, effectiveLastChunkLen);
    ChunkAddress(g, s, fullChunks, effectiveLastChunkLen);
    ghost var j0 := first + pos0;
    ReachedStart(g, s, src, j0, orig, cks);
    pos, left, c, stop := PackBlocks(dst, src, base, interleaveBy, first, pos0, len, left0, cks, g, s);
    j := first + pos;
    ReachedStep(g, s, src, j0, j0, j, orig, orig, dst[..], cks, cks, c);
    ReachedMeans(g, s, src, j0, j, orig, dst[..], cks, c);
    if stop { return; }
    pos, left, c, stop := PackChunkEnd(dst, src, g, s, base, interleaveBy, first, lastChunkLen, left, c, orig, j0, cks, completing);
    j := first + pos;
    ReachedMeans(g, s, src, j0, j, orig, dst[..], cks, c);
  }

  /** One block more, as a cut of length one. */
  lemma OneMore(g: Geometry, s: nat, src: seq<Byte>, j: nat, buf: seq<Block>, c: Block)
    requires Fits(g, buf) && s < g.n && j < g.d
    ensures var b := Load(Piece(src, j));
            && 0 <= Cell(g, s, j) < |buf|
            && Put(g, buf, s, j, Cut(src, g.d, j, j + 1)) == buf[Cell(g, s, j) := b]
            && Checksum(c, Cut(src, g.d, j, j + 1)) == Add(Twice(c), b)
  {
    hide Cell, Load, Piece, Padded, Put, Checksum;
    var b := Load(Piece(src, j));
    assert Cut(src, g.d, j, j + 1) == [b];
    assert [] + [b] == [b];
    PutOne(g, buf, s, j, b);
    ChecksumSnoc(c, [], b);
    ChecksumNone(c, []);
  }

  /** The chunks after the source, cleared. */
  method ZeroRest(dst: array<Block>, ghost src: seq<Byte>, g: Geometry, s: nat, chunk0: nat, left0: nat)
    requires Fits(g, dst[..]) && Packable(g, s, src) && 0 <= Times(chunk0, DataChunk(g.l, g.d)) < g.d
    requires BlocksIn(|src|) <= Times(chunk0, DataChunk(g.l, g.d))
    requires left0 > g.d - Times(chunk0, DataChunk(g.l, g.d))
    modifies dst
    ensures var j0 := Times(chunk0, DataChunk(g.l, g.d));
            dst[..] == Put(g, old(dst[..]), s, j0, Cut(src, g.d, j0, g.d))
  {
    hide Checksum, Put, Add, Twice, Load, Cell, Piece, Padded, Cut, Width, ChunkBlocks, Scale, Exp, Times, Quot, Rem, Whole, Tail, ChunkBase, BlocksIn;
    ghost var orig := dst[..];
    var dl := DataChunk(g.l, g.d);
    var interleaveBy := Width(g.n, g.i, s);
    ghost var j0 := Times(chunk0, dl);
    var fullChunks := Quot(g.d, dl);
    var chunk, pos, left, stop := chunk0, 0, left0, false;
    QuotRem(g.d, dl);
    TimesOrder(Quot(g.d, dl) + 1, chunk0, dl);
    TimesNext(Quot(g.d, dl), dl);
    PutNone(g, orig, s, j0, Cut(src, g.d, j0, j0));
    while chunk < fullChunks
      invariant chunk <= fullChunks && pos == 0 && j0 <= Times(chunk, dl) <= g.d
      invariant left == left0 - (Times(chunk, dl) - j0)
      invariant dst[..] == Put(g, orig, s, j0, Cut(src, g.d, j0, Times(chunk, dl)))
    {
      TimesOrder(chunk + 1, fullChunks, dl);
      TimesNext(chunk, dl);
      FullChunk(g.l, g.d, chunk);
      ChunkAddress(g, s, chunk, g.l);
      pos, left, stop := ZeroBlocks(dst, src, ChunkBase(g, s, chunk, g.l), interleaveBy, Times(chunk, dl), pos, dl, left, g, s);
      PutCut(g, s, src, j0, Times(chunk, dl), Times(chunk + 1, dl), orig);
      pos := 0;
      chunk := chunk + 1;
    }
    var remaining := Rem(g.d, dl);
    if remaining > 0 {
      var rest := Rem(g.d + 1, g.l);
      var effectiveLastChunkLen := if rest == 0 then g.l else rest;
      ShortChunk(g.l, g.d);
      ChunkAddress(g, s, fullChunks, effectiveLastChunkLen);
      pos, left, stop := ZeroBlocks(dst, src, ChunkBase(g, s, fullChunks, effectiveLastChunkLen), interleaveBy,
                                    Times(fullChunks, dl), pos, remaining, left, g, s);
      PutCut(g, s, src, j0, Times(fullChunks, dl), g.d, orig);
    }
  }

  lemma PutCut(g: Geometry, s: nat, src: seq<Byte>, a: int, b: int, c: int, buf: seq<Block>)
    requires Fits(g, buf) && s < g.n && 0 <= a <= b <= c <= g.d
    ensures Put(g, Put(g, buf, s, a, Cut(src, g.d, a, b)), s, b, Cut(src, g.d, b, c))
            == Put(g, buf, s, a, Cut(src, g.d, a, c))
  {
    hide Put, Padded, Cut;
    CutSizes(src, g.d, a, b, c);
    CutJoin(src, g.d, a, b, c);
    PutAppend(g, buf, s, a, Cut(src, g.d, a, b), Cut(src, g.d, b, c));
  }

  /** gf16_prepare_packed.  src is the source as seen after its pointer is moved back by partOffset. */
  method PreparePacked(dst: array<Block>, src: seq<Byte>, g: Geometry, s: nat, po: nat, partLen: nat, cks: Block)
    returns (c: Block)
    requires Fits(g, dst[..]) && Packable(g, s, src) && PartOf(src, po, partLen)
    modifies dst
    ensures var hi := PartEnd(g, src, po, partLen);
            && po <= hi <= g.d
            && c == Checksum(cks, Cut(src, g.d, po, hi))
            && dst[..] == Put(g, old(dst[..]), s, po,
                              Cut(src, g.d, po, hi) + if Completes(src, po, partLen) then [c] else [])
  {
    hide Checksum, Put, Add, Twice, Load, Cell, Piece, Padded, Cut, Width, ChunkBlocks, Scale, Exp, Times, Quot, Rem, Whole, Tail, ChunkBase, Reached, BlocksIn, DataChunk;
    ghost var orig := dst[..];
    PartEndBounds(g, src, po, partLen);
    var completing := Times(po, BLOCK_LEN) + partLen == |src|;
    var partLeft := if completing then UNLIMITED else Whole(partLen);
    var dl := DataChunk(g.l, g.d);
    var chunk, pos, stop;
    ghost var j: nat;
    chunk, pos, partLeft, c, stop, j := PackFullChunks(dst, src, g, s, po, partLeft, cks);
    ReachedMeans(g, s, src, po, j, orig, dst[..], cks, c);
    BlocksInMeans(|src|);
    QuotRem(Whole(|src|), dl);
    TimesNext(Quot(Whole(|src|), dl), dl);
    if stop {
      AppendNothing(Cut(src, g.d, po, j));
      return;
    }
    if Rem(Whole(|src|), dl) > 0 || Tail(|src|) > 0 {
      ghost var buf, c0, j0 := dst[..], c, j;
      pos, partLeft, c, stop, j := PackPartialChunk(dst, src, g, s, pos, partLeft, c, completing);
      ReachedStep(g, s, src, po, j0, j, orig, buf, dst[..], cks, c0, c);
      ReachedMeans(g, s, src, po, j, orig, dst[..], cks, c);
      if stop {
        AppendNothing(Cut(src, g.d, po, j));
        return;
      }
      chunk := chunk + 1;
    }
    assert completing;
    if Times(chunk, dl) < g.d {
      ghost var buf, c0 := dst[..], c;
      var sliceLeft := g.d - Times(chunk, dl);
      c := Scale(Exp(Min(sliceLeft, partLeft) % 65535), c);
      CutZeroes(src, g.d, j, g.d, c0);
      ZeroRest(dst, src, g, s, chunk, partLeft);
      ReachedStep(g, s, src, po, j, g.d, orig, buf, dst[..], cks, c0, c);
    }
    ReachedMeans(g, s, src, po, g.d, orig, dst[..], cks, c);
    ChecksumPtrIsOffset(g.d, g.n, s, g.l, g.i);
    CutSizes(src, g.d, po, po, g.d);
    PutSnoc(g, orig, s, po, Cut(src, g.d, po, g.d), c);
    WriteChecksum(dst, g, s, c);
  }

  /** Storing the checksum where gf16_checksum_ptr points. */
  method WriteChecksum(dst: array<Block>, g: Geometry, s: nat, c: Block)
    requires Fits(g, dst[..]) && s < g.n
    modifies dst
    ensures 0 <= Cell(g, s, g.d) < dst.Length && dst[..] == old(dst[..])[Cell(g, s, g.d) := c]
  {
    hide Offset, ChecksumPtr;
    CellBounds(g, s, g.d);
    ChecksumPtrIsOffset(g.d, g.n, s, g.l, g.i);
    dst[ChecksumPtr(g.d, g.n, s, g.l, g.i)] := c;
  }

  lemma ReachedMeans(g: Geometry, s: nat, src: seq<Byte>, po: int, j: int, orig: seq<Block>, buf: seq<Block>,
                     cks: Block, c: Block)
    requires Fits(g, orig) && s < g.n && Reached(g, s, src, po, j, orig, buf, cks, c)
    ensures 0 <= po <= j <= g.d && buf == Put(g, orig, s, po, Cut(src, g.d, po, j))
    ensures c == Checksum(cks, Cut(src, g.d, po, j))
  {
  }

  lemma BlocksInMeans(len: nat)
    ensures BlocksIn(len) == Whole(len) + if Tail(len) != 0 then 1 else 0
  {
  }

  lemma AppendNothing(bs: seq<Block>)
    ensures bs + [] == bs
  {
  }
}
