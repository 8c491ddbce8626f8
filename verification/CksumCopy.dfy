/**
 Unpacked slices with a checksum block behind them: gf16_cksum_copy, gf16_cksum_copy_check and the
 pairwise interleaved gf16_grp2_finish.  CKSUM_SIZE is the block length.
 */
module CksumCopy {
  import opened Arith
  import opened Field
  import opened Blocks
  import opened Bytes
  import opened Prepare
  import opened Finish
  import opened FinishParts
  import E = EndToEnd

  /** What gf16_cksum_copy leaves: the source, zeroes up to sliceLen, and the checksum of both. */
  function Image(src: seq<Byte>, sliceLen: nat): (s: seq<Byte>)
    requires |src| <= sliceLen
    ensures |s| == sliceLen + BLOCK_LEN
  {
    ZeroFilled(src, sliceLen) + Store(Checksum(ZeroBlock(), Padded(src, BlocksIn(sliceLen))))
  }

  function ZeroFilled(src: seq<Byte>, len: nat): (s: seq<Byte>)
    requires |src| <= len
    ensures |s| == len
  {
    src + seq(len - |src|, _ => 0)
  }

  /** The checksum that len bytes should have. */
  function Sum(s: seq<Byte>): Block { Checksum(ZeroBlock(), Padded(s, BlocksIn(|s|))) }

  /** CEIL_DIV by the block length, as these functions write it. */
  lemma CeilBlocks(len: nat)
    ensures (len + BLOCK_LEN - 1) / BLOCK_LEN == BlocksIn(len)
  {
    DivMod(len, BLOCK_LEN);
    var q, r := len / BLOCK_LEN, len % BLOCK_LEN;
    Distribute(q, 1, BLOCK_LEN);
    if r == 0 { DivUnique(len + BLOCK_LEN - 1, BLOCK_LEN, q, BLOCK_LEN - 1); }
    else { DivUnique(len + BLOCK_LEN - 1, BLOCK_LEN, q + 1, r - 1); }
  }

  /** The first n blocks are copied and in the checksum. */
  ghost predicate Copied(orig: seq<Byte>, dst: seq<Byte>, src: seq<Byte>, n: nat, cks: Block, c: Block) {
    && |src| <= |orig| && n <= BlocksIn(|src|)
    && dst == Patch(orig, src, 0, n)
    && c == Checksum(cks, Cut(src, BlocksIn(|src|), 0, n))
  }

  lemma CopiedStart(orig: seq<Byte>, src: seq<Byte>, cks: Block)
    requires |src| <= |orig|
    ensures Copied(orig, orig, src, 0, cks, cks)
  {
    hide Checksum, Patch;
    PatchNone(orig, src, 0);
    ChecksumNone(cks, Cut(src, BlocksIn(|src|), 0, 0));
  }

  lemma CopiedStep(orig: seq<Byte>, dst: seq<Byte>, dst': seq<Byte>, src: seq<Byte>, n: nat, cks: Block, c: Block)
    requires Copied(orig, dst, src, n, cks, c) && n < BlocksIn(|src|)
    requires Edge(src, n) + |Piece(src, n)| <= |dst|
    requires dst' == dst[..Edge(src, n)] + Piece(src, n) + dst[Edge(src, n) + |Piece(src, n)|..]
    ensures Copied(orig, dst', src, n + 1, cks, Add(Twice(c), Load(Piece(src, n))))
  {
    hide Checksum, Patch, Padded, Load, Piece, Add, Twice, Edge;
    PatchPiece(dst, src, n);
    PatchJoin(orig, src, 0, n, n + 1);
    CutSnoc(src, BlocksIn(|src|), 0, n);
    ChecksumSnoc(cks, Cut(src, BlocksIn(|src|), 0, n), Load(Piece(src, n)));
  }

  lemma CopiedAll(orig: seq<Byte>, dst: seq<Byte>, src: seq<Byte>, n: nat, cks: Block, c: Block)
    requires Copied(orig, dst, src, n, cks, c) && n == BlocksIn(|src|)
    ensures dst == src + orig[|src|..] && c == Checksum(cks, Padded(src, BlocksIn(|src|)))
  {
    hide Checksum, Patch, Padded;
    PatchWhole(orig, src, n);
    CutEnds(src, n);
  }

  lemma CopiedSize(orig: seq<Byte>, dst: seq<Byte>, src: seq<Byte>, n: nat, cks: Block, c: Block)
    requires Copied(orig, dst, src, n, cks, c)
    ensures |dst| == |orig|
  {
  }

  /** One piece copied and added to the checksum. */
  method CopyPiece(dst: array<Byte>, src: seq<Byte>, pos: nat, amount: nat, c: Block,
                   ghost n: nat, ghost orig: seq<Byte>, ghost cks: Block)
    returns (c': Block)
    requires Copied(orig, dst[..], src, n, cks, c) && n < BlocksIn(|src|)
    requires pos == Edge(src, n) && amount == |Piece(src, n)| && pos + amount <= |src| && src[pos..pos + amount] == Piece(src, n)
    modifies dst
    ensures Copied(orig, dst[..], src, n + 1, cks, c')
  {
    hide Copied, Edge, Piece, Add, Twice, Load;
    ghost var before := dst[..];
    CopiedSize(orig, before, src, n, cks, c);
    CopiedFits(orig, before, src, n, cks, c);
    var data := src[pos..pos + amount];
    c' := Add(Twice(c), Load(data));
    WriteBytes(dst, pos, data);
    CopiedStep(orig, before, dst[..], src, n, cks, c);
  }

  lemma CopiedFits(orig: seq<Byte>, dst: seq<Byte>, src: seq<Byte>, n: nat, cks: Block, c: Block)
    requires Copied(orig, dst, src, n, cks, c)
    ensures |src| <= |dst|
  {
  }

  /** gf16_cksum_docopy: the bytes are copied and run through the checksum, block by block. */
  method DoCopy(dst: array<Byte>, src: seq<Byte>, cks: Block) returns (c: Block)
    requires |src| <= dst.Length
    modifies dst
    ensures dst[..] == src + old(dst[..])[|src|..]
    ensures c == Checksum(cks, Padded(src, BlocksIn(|src|)))
  {
    hide Copied, Edge, Piece, Checksum, Padded, Times, Whole, Tail, BlocksIn;
    c := cks;
    WholeTail(|src|);
    BlocksInMeans(|src|);
    TimesNext(0, BLOCK_LEN);
    TimesOrder(0, Whole(|src|), BLOCK_LEN);
    ghost var orig := dst[..];
    ghost var n := 0;
    CopiedStart(orig, src, cks);
    if |src| >= BLOCK_LEN {
      var pos := 0;
      while pos < |src| - BLOCK_LEN + 1
        invariant 0 <= n <= Whole(|src|) && pos == Times(n, BLOCK_LEN) <= |src|
        invariant Copied(orig, dst[..], src, n, cks, c)
        decreases |src| - pos
      {
        TimesNext(n, BLOCK_LEN);
        TimesOrder(Whole(|src|), n, BLOCK_LEN);
        PieceWhole(src, n);
        FullPiece(src, n);
        c := CopyPiece(dst, src, pos, BLOCK_LEN, c, n, orig, cks);
        pos := pos + BLOCK_LEN;
        n := n + 1;
      }
      TimesOrder(n + 1, Whole(|src|), BLOCK_LEN);
      TimesNext(n, BLOCK_LEN);
    } else {
      TimesOrder(1, Whole(|src|), BLOCK_LEN);
    }
    var remaining := Tail(|src|);
    var lenAligned := |src| - remaining;
    if remaining > 0 {
      PieceTail(src);
      LastPiece(src);
      c := CopyPiece(dst, src, lenAligned, remaining, c, n, orig, cks);
      n := n + 1;
    }
    CopiedAll(orig, dst[..], src, n, cks, c);
  }

  lemma CutEnds(src: seq<Byte>, d: nat)
    ensures Cut(src, d, 0, d) == Padded(src, d) && Cut(src, d, 0, 0) == []
  {
  }

  /** CEIL_DIV(len, block length) */
  function CeilDivBlocks(len: nat): (n: nat)
    ensures n == BlocksIn(len)
  {
    CeilBlocks(len);
    (len + BLOCK_LEN - 1) / BLOCK_LEN
  }

  /** How the checksum goes on over the padding. */
  method PaddingChecksum(cksum: Block, ghost src: seq<Byte>, srcLen: nat, sliceLen: nat) returns (c: Block)
    requires srcLen == |src| < sliceLen && cksum == Checksum(ZeroBlock(), Padded(src, BlocksIn(srcLen)))
    ensures c == Checksum(ZeroBlock(), Padded(src, BlocksIn(sliceLen)))
  {
    hide Checksum, Padded, Times, Scale, Exp, BlocksIn, CeilDivBlocks;
    c := cksum;
    DonePart(srcLen, sliceLen);
    ZeroRun(src, sliceLen);
    var cksumDone := Times(CeilDivBlocks(srcLen), BLOCK_LEN);
    if cksumDone < sliceLen {
      c := Scale(Exp(CeilDivBlocks(sliceLen - cksumDone) % 65535), c);
    }
  }

  /** The three stretches that are written. */
  lemma ImageIs(orig: seq<Byte>, copied: seq<Byte>, zeroed: seq<Byte>, done: seq<Byte>, src: seq<Byte>, sliceLen: nat, sum: seq<Byte>)
    requires |src| <= sliceLen && |sum| == BLOCK_LEN && sliceLen + BLOCK_LEN <= |orig|
    requires copied == src + orig[|src|..]
    requires zeroed == copied[..|src|] + seq(sliceLen - |src|, _ => 0) + copied[sliceLen..]
    requires done == zeroed[..sliceLen] + sum + zeroed[sliceLen + BLOCK_LEN..]
    ensures done == ZeroFilled(src, sliceLen) + sum + orig[sliceLen + BLOCK_LEN..]
  {
    assert copied[..|src|] == src;
    assert zeroed[..sliceLen] == ZeroFilled(src, sliceLen);
    assert zeroed[sliceLen + BLOCK_LEN..] == copied[sliceLen + BLOCK_LEN..] == orig[sliceLen + BLOCK_LEN..];
  }

  /** gf16_cksum_copy: any source, any length of slice. */
  method Copy(dst: array<Byte>, src: seq<Byte>, sliceLen: nat)
    requires |src| <= sliceLen && sliceLen + BLOCK_LEN <= dst.Length
    modifies dst
    ensures dst[..] == Image(src, sliceLen) + old(dst[..])[sliceLen + BLOCK_LEN..]
  {
    hide Checksum, Store, Padded, BlocksIn, ZeroFilled;
    ghost var orig := dst[..];
    var cksum := DoCopy(dst, src, ZeroBlock());
    ghost var copied := dst[..];
    if |src| < sliceLen {
      ZeroBytes(dst, |src|, sliceLen - |src|);
      cksum := PaddingChecksum(cksum, src, |src|, sliceLen);
    } else {
      assert copied == copied[..|src|] + seq(sliceLen - |src|, _ => 0) + copied[sliceLen..];
    }
    ghost var zeroed := dst[..];
    WriteBytes(dst, sliceLen, Store(cksum));
    ImageIs(orig, copied, zeroed, dst[..], src, sliceLen, Store(cksum));
  }

  /** Blocks the data reaches into, and those after it up to the slice length. */
  lemma DonePart(srcLen: nat, sliceLen: nat)
    requires srcLen <= sliceLen
    ensures BlocksIn(srcLen) <= BlocksIn(sliceLen)
    ensures var done := Times(BlocksIn(srcLen), BLOCK_LEN);
            && (done < sliceLen ==> BlocksIn(sliceLen - done) == BlocksIn(sliceLen) - BlocksIn(srcLen))
            && (done >= sliceLen ==> BlocksIn(sliceLen) == BlocksIn(srcLen))
  {
    hide Times, Quot, Rem, Whole, Tail;
    var a := BlocksIn(srcLen);
    BlocksInMeans(srcLen); BlocksInMeans(sliceLen);
    BlocksInBound(srcLen, BlocksIn(sliceLen));
    BlocksInBound(sliceLen, BlocksIn(sliceLen));
    BlocksInBound(sliceLen, a);
    var done := Times(a, BLOCK_LEN);
    if done < sliceLen {
      WholeTail(sliceLen);
      if a > Whole(sliceLen) { TimesOrder(Whole(sliceLen) + 1, a, BLOCK_LEN); TimesNext(Whole(sliceLen), BLOCK_LEN); }
      BytesAfter(sliceLen, a);
      BlocksInMeans(sliceLen - done);
    }
  }

  /** The checksum over the padding, in one multiplication. */
  lemma ZeroRun(src: seq<Byte>, sliceLen: nat)
    requires |src| <= sliceLen
    ensures BlocksIn(|src|) <= BlocksIn(sliceLen)
    ensures var c := Checksum(ZeroBlock(), Padded(src, BlocksIn(|src|)));
            Scale(Exp((BlocksIn(sliceLen) - BlocksIn(|src|)) % 65535), c)
            == Checksum(ZeroBlock(), Padded(src, BlocksIn(sliceLen)))
  {
    hide Checksum, Scale, Exp, Load, Piece;
    DonePart(|src|, sliceLen);
    var a, d := BlocksIn(|src|), BlocksIn(sliceLen);
    var c := Checksum(ZeroBlock(), Padded(src, a));
    CutZeroes(src, d, a, d, c);
    assert Padded(src, d) == Padded(src, a) + Cut(src, d, a, d);
    ChecksumAppend(ZeroBlock(), Padded(src, a), Cut(src, d, a, d));
  }

  method ZeroBytes(dst: array<Byte>, at: nat, amount: nat)
    requires at + amount <= dst.Length
    modifies dst
    ensures dst[..] == old(dst[..])[..at] + seq(amount, _ => 0) + old(dst[..])[at + amount..]
  {
    var k := 0;
    while k < amount
      invariant 0 <= k <= amount
      invariant forall h :: at <= h < at + k ==> dst[h] == 0
      invariant forall h :: 0 <= h < dst.Length && !(at <= h < at + k) ==> dst[h] == old(dst[h])
    {
      dst[at + k] := 0;
      k := k + 1;
    }
  }

  /** gf16_cksum_copy_check: accepted exactly when the stored checksum is that of the data. */
  method CopyCheck(dst: array<Byte>, src: seq<Byte>, len: nat) returns (ok: bool)
    requires |src| == len + BLOCK_LEN && len <= dst.Length
    modifies dst
    ensures dst[..] == src[..len] + old(dst[..])[len..]
    ensures ok <==> Load(src[len..]) == Sum(src[..len])
  {
    hide Checksum, Load, Padded, Scale, Exp;
    var cksum := Load(src[len..]);
    CeilBlocks(len);
    RewindVerdict(cksum, Padded(src[..len], BlocksIn(len)));
    cksum := Scale(Exp(65535 - ((len + BLOCK_LEN - 1) / BLOCK_LEN) % 65535), cksum);
    cksum := DoCopy(dst, src[..len], cksum);
    ok := AllZero(cksum);
  }

  // Two slices whose words alternate.

  /** The bytes of one of the two. */
  function Ungrouped(src: seq<Byte>, grp: nat, len: nat): (s: seq<Byte>)
    requires 2 * len <= |src| && len % 2 == 0
    ensures |s| == len
  {
    seq(len, k requires 0 <= k < len => src[4 * (k / 2) + 2 * (grp % 2) + k % 2])
  }

  lemma UngroupedAt(src: seq<Byte>, grp: nat, len: nat, k: nat)
    requires 2 * len <= |src| && len % 2 == 0 && k % 2 == 0 && k < len
    ensures var w := 2 * k + 2 * (grp % 2);
            && k + 1 < len && w + 1 < 2 * len
            && Ungrouped(src, grp, len)[k] == src[w] && Ungrouped(src, grp, len)[k + 1] == src[w + 1]
  {
    assert (k + 1) / 2 == k / 2 && (k + 1) % 2 == 1 && 4 * (k / 2) == 2 * k;
  }

  /** gf16_ungrp2a_block and gf16_ungrp2b_block: every second word of a stretch of the source. */
  method UngroupBytes(dst: array<Byte>, at: nat, src: seq<Byte>, from: nat, grp: nat, amount: nat)
    requires amount % 2 == 0 && at + amount <= dst.Length && from + 2 * amount <= |src|
    modifies dst
    ensures dst[..] == old(dst[..])[..at] + Ungrouped(src[from..from + 2 * amount], grp, amount) + old(dst[..])[at + amount..]
  {
    hide Ungrouped;
    var stretch := src[from..from + 2 * amount];
    ghost var u := Ungrouped(stretch, grp, amount);
    var k := 0;
    while k < amount
      invariant 0 <= k <= amount && k % 2 == 0
      invariant forall h :: 0 <= h < k ==> dst[at + h] == u[h]
      invariant forall h :: 0 <= h < dst.Length && !(at <= h < at + k) ==> dst[h] == old(dst[h])
    {
      var w := 2 * k + 2 * (grp % 2);
      UngroupedAt(stretch, grp, amount, k);
      dst[at + k] := stretch[w];
      dst[at + k + 1] := stretch[w + 1];
      k := k + 2;
    }
    assert dst[at..at + amount] == u;
  }

  lemma UngroupedSlice(src: seq<Byte>, grp: nat, len: nat, pos: nat, amount: nat)
    requires 2 * len <= |src| && len % 2 == 0 && pos % 2 == 0 && amount % 2 == 0 && pos + amount <= len
    ensures Ungrouped(src, grp, len)[pos..pos + amount] == Ungrouped(src[2 * pos..2 * pos + 2 * amount], grp, amount)
  {
    var u, part := Ungrouped(src, grp, len), src[2 * pos..2 * pos + 2 * amount];
    forall k | 0 <= k < amount ensures u[pos + k] == Ungrouped(part, grp, amount)[k] {
      assert (pos + k) / 2 == pos / 2 + k / 2 && (pos + k) % 2 == k % 2;
    }
  }

  lemma EvenPlaces(len: nat, n: nat)
    requires len % 2 == 0
    ensures Times(n, BLOCK_LEN) % 2 == 0 && BLOCK_LEN % 2 == 0 && Tail(len) % 2 == 0
  {
    hide Rem, Quot;
    E.TimesLanes(n);
    WholeTail(len);
    E.TimesLanes(Whole(len));
  }

  /** One piece picked out of the grouped source, and added to the checksum. */
  method UngroupPiece(dst: array<Byte>, src: seq<Byte>, grp: nat, len: nat, pos: nat, amount: nat, c: Block,
                      ghost n: nat, ghost orig: seq<Byte>, ghost cks: Block)
    returns (c': Block)
    requires 2 * len <= |src| && len % 2 == 0 && pos % 2 == 0 && amount % 2 == 0 && pos + amount <= len
    requires var u := Ungrouped(src, grp, len);
             && Copied(orig, dst[..], u, n, cks, c) && n < BlocksIn(|u|)
             && pos == Edge(u, n) && amount == |Piece(u, n)| && u[pos..pos + amount] == Piece(u, n)
    modifies dst
    ensures Copied(orig, dst[..], Ungrouped(src, grp, len), n + 1, cks, c')
  {
    hide Copied, Edge, Piece, Add, Twice, Load, Ungrouped;
    ghost var u, before := Ungrouped(src, grp, len), dst[..];
    CopiedSize(orig, before, u, n, cks, c);
    CopiedFits(orig, before, u, n, cks, c);
    UngroupedSlice(src, grp, len, pos, amount);
    UngroupBytes(dst, pos, src, 2 * pos, grp, amount);
    assert dst[pos..pos + amount] == Piece(u, n);
    c' := Add(Twice(c), Load(dst[pos..pos + amount]));
    CopiedStep(orig, before, dst[..], u, n, cks, c);
  }

  /** gf16_grp2_finish: as gf16_cksum_copy_check, on one of two slices whose words alternate. */
  method Grp2Finish(dst: array<Byte>, src: seq<Byte>, len: nat, grp: nat) returns (ok: bool)
    requires len % 2 == 0 && |src| == 2 * (len + BLOCK_LEN) && len <= dst.Length
    modifies dst
    ensures dst[..] == Ungrouped(src, grp, len) + old(dst[..])[len..]
    ensures ok <==> Load(Ungrouped(src, grp, len + BLOCK_LEN)[len..]) == Sum(Ungrouped(src, grp, len))
  {
    hide Copied, Edge, Piece, Checksum, Padded, Times, Whole, Tail, BlocksIn, Ungrouped, Load, Scale, Exp;
    ghost var orig, u := dst[..], Ungrouped(src, grp, len);
    EvenPlaces(len, 0);
    var block := new Byte[BLOCK_LEN](_ => 0);
    UngroupBytes(block, 0, src, 2 * len, grp, BLOCK_LEN);
    UngroupedSlice(src, grp, len + BLOCK_LEN, len, BLOCK_LEN);
    assert Ungrouped(src, grp, len + BLOCK_LEN)[len..] == Ungrouped(src, grp, len + BLOCK_LEN)[len..len + BLOCK_LEN];
    assert block[..] == Ungrouped(src, grp, len + BLOCK_LEN)[len..];
    var c := Load(block[..]);
    CeilBlocks(len);
    RewindVerdict(c, Padded(u, BlocksIn(len)));
    c := Scale(Exp(65535 - ((len + BLOCK_LEN - 1) / BLOCK_LEN) % 65535), c);
    c := UngroupAll(dst, src, grp, len, c);
    ok := AllZero(c);
  }

  /** The loops of gf16_grp2_finish. */
  method UngroupAll(dst: array<Byte>, src: seq<Byte>, grp: nat, len: nat, cks: Block) returns (c: Block)
    requires len % 2 == 0 && 2 * len <= |src| && len <= dst.Length
    modifies dst
    ensures dst[..] == Ungrouped(src, grp, len) + old(dst[..])[len..]
    ensures c == Checksum(cks, Padded(Ungrouped(src, grp, len), BlocksIn(len)))
  {
    hide Copied, Edge, Piece, Checksum, Padded, Times, Whole, Tail, BlocksIn, Ungrouped;
    ghost var orig, u := dst[..], Ungrouped(src, grp, len);
    c := cks;
    WholeTail(len);
    BlocksInMeans(len);
    TimesNext(0, BLOCK_LEN);
    TimesOrder(0, Whole(len), BLOCK_LEN);
    EvenPlaces(len, Whole(len));
    ghost var n := 0;
    CopiedStart(orig, u, cks);
    if len >= BLOCK_LEN {
      var pos := 0;
      while pos < len - BLOCK_LEN + 1
        invariant 0 <= n <= Whole(len) && pos == Times(n, BLOCK_LEN) <= len
        invariant Copied(orig, dst[..], u, n, cks, c)
        decreases len - pos
      {
        TimesNext(n, BLOCK_LEN);
        TimesOrder(Whole(len), n, BLOCK_LEN);
        PieceWhole(u, n);
        FullPiece(u, n);
        EvenPlaces(len, n);
        c := UngroupPiece(dst, src, grp, len, pos, BLOCK_LEN, c, n, orig, cks);
        pos := pos + BLOCK_LEN;
        n := n + 1;
      }
      TimesOrder(n + 1, Whole(len), BLOCK_LEN);
      TimesNext(n, BLOCK_LEN);
    } else {
      TimesOrder(1, Whole(len), BLOCK_LEN);
    }
    var remaining := Tail(len);
    if remaining > 0 {
      PieceTail(u);
      LastPiece(u);
      c := UngroupPiece(dst, src, grp, len, len - remaining, remaining, c, n, orig, cks);
      n := n + 1;
    }
    CopiedAll(orig, dst[..], u, n, cks, c);
  }

  // Linear combinations of prepared slices.

  function Images(srcs: seq<seq<Byte>>, len: nat): (r: seq<seq<Byte>>)
    requires forall k :: 0 <= k < |srcs| ==> |srcs[k]| <= len
    ensures |r| == |srcs| && forall k :: 0 <= k < |r| ==> r[k] == Image(srcs[k], len)
  {
    seq(|srcs|, k requires 0 <= k < |srcs| => Image(srcs[k], len))
  }

  /** In an image the data comes first, zero filled, and the checksum after it. */
  lemma ImageWords(src: seq<Byte>, len: nat, w: nat)
    requires |src| <= len && len % 2 == 0
    ensures 2 * w + 1 < len ==> WordAt(Image(src, len), w) == WordAt(src, w)
    ensures w < LANES ==> WordAt(Image(src, len), len / 2 + w) == Checksum(ZeroBlock(), Padded(src, BlocksIn(len)))[w]
  {
    hide WordOf, Checksum, Padded, BlocksIn, LowByte, HighByte;
    if w < LANES {
      WordBits(Checksum(ZeroBlock(), Padded(src, BlocksIn(len)))[w]);
    }
  }

  /** Any linear combination of images is accepted, and its data is that combination of the sources. */
  lemma CombinationAccepted(cs: seq<Word>, srcs: seq<seq<Byte>>, len: nat, y: seq<Byte>)
    requires |cs| == |srcs| && len % 2 == 0 && forall k :: 0 <= k < |srcs| ==> |srcs[k]| <= len
    requires E.IsCombination(y, len + BLOCK_LEN, cs, Images(srcs, len))
    ensures E.IsCombination(y[..len], len, cs, srcs)
    ensures Load(y[len..]) == Sum(y[..len])
  {
    hide CombineWords, WordAt, Image, Checksum, Load, Padded, BlocksIn;
    forall w: nat | 2 * w + 1 < len
      ensures WordAt(y[..len], w) == CombineWords(cs, E.WordsAt(srcs, w))
    {
      forall k | 0 <= k < |srcs| ensures WordAt(Images(srcs, len)[k], w) == WordAt(srcs[k], w) {
        ImageWords(srcs[k], len, w);
      }
      assert E.WordsAt(Images(srcs, len), w) == E.WordsAt(srcs, w);
      WordPrefix(y, len, w);
    }
    CombinedData(cs, srcs, len, y[..len]);
    CombinedChecksum(cs, srcs, len, y);
  }

  lemma WordPrefix(y: seq<Byte>, len: nat, w: nat)
    requires len <= |y| && 2 * w + 1 < len
    ensures WordAt(y[..len], w) == WordAt(y, w)
  {
  }

  /** The blocks of a combination are the combined blocks, the last one included. */
  lemma CombinedData(cs: seq<Word>, srcs: seq<seq<Byte>>, len: nat, y: seq<Byte>)
    requires |cs| == |srcs| && len % 2 == 0 && forall k :: 0 <= k < |srcs| ==> |srcs[k]| <= len
    requires E.IsCombination(y, len, cs, srcs)
    ensures Padded(y, BlocksIn(len)) == CombineSlices(cs, E.PaddedAll(srcs, BlocksIn(len)), BlocksIn(len))
  {
    hide CombineWords, WordAt, CombineSlices, Load, Piece, BlocksIn, E.PaddedAll;
    var d := BlocksIn(len);
    var ys := CombineSlices(cs, E.PaddedAll(srcs, d), d);
    forall j: nat | j < d ensures Load(Piece(y, j)) == ys[j] {
      forall i: nat | i < LANES ensures Load(Piece(y, j))[i] == ys[j][i] {
        var w := j * LANES + i;
        E.PieceWord(y, j, i);
        E.CombinedWord(cs, srcs, d, j, i);
        if 2 * w + 1 >= len {
          E.WordBeyond(y, w);
          forall k | 0 <= k < |srcs| ensures E.WordsAt(srcs, w)[k] == Zero { E.WordBeyond(srcs[k], w); }
          E.CombineWordsZero(cs, E.WordsAt(srcs, w));
        }
      }
    }
  }

  lemma CombinedChecksum(cs: seq<Word>, srcs: seq<seq<Byte>>, len: nat, y: seq<Byte>)
    requires |cs| == |srcs| && len % 2 == 0 && forall k :: 0 <= k < |srcs| ==> |srcs[k]| <= len
    requires E.IsCombination(y, len + BLOCK_LEN, cs, Images(srcs, len))
    requires Padded(y[..len], BlocksIn(len)) == CombineSlices(cs, E.PaddedAll(srcs, BlocksIn(len)), BlocksIn(len))
    ensures Load(y[len..]) == Sum(y[..len])
  {
    hide CombineWords, WordAt, CombineSlices, Combine, BlocksIn, E.PaddedAll, Image, Checksum, Load, Padded;
    var d := BlocksIn(len);
    var xs := E.PaddedAll(srcs, d);
    ChecksumCombination(cs, xs, d);
    var col := Checksums(xs);
    forall i: nat | i < LANES ensures Load(y[len..])[i] == Combine(cs, col)[i] {
      var w := len / 2 + i;
      LoadWord(y, len, i);
      forall k | 0 <= k < |srcs| ensures E.WordsAt(Images(srcs, len), w)[k] == col[k][i] {
        ImageWords(srcs[k], len, i);
      }
      E.CombineLane(cs, col, E.WordsAt(Images(srcs, len), w), i);
    }
  }

  lemma LoadWord(y: seq<Byte>, len: nat, i: nat)
    requires len % 2 == 0 && |y| == len + BLOCK_LEN && i < LANES
    ensures Load(y[len..])[i] == WordAt(y, len / 2 + i)
  {
    hide WordOf;
  }

  /** The same for a combination that was computed with two outputs' words alternating. */
  lemma GroupedAccepted(cs: seq<Word>, srcs: seq<seq<Byte>>, len: nat, y: seq<Byte>, grp: nat)
    requires |cs| == |srcs| && len % 2 == 0 && forall k :: 0 <= k < |srcs| ==> |srcs[k]| <= len
    requires |y| == 2 * (len + BLOCK_LEN)
    requires E.IsCombination(Ungrouped(y, grp, len + BLOCK_LEN), len + BLOCK_LEN, cs, Images(srcs, len))
    ensures E.IsCombination(Ungrouped(y, grp, len), len, cs, srcs)
    ensures Load(Ungrouped(y, grp, len + BLOCK_LEN)[len..]) == Sum(Ungrouped(y, grp, len))
  {
    hide E.IsCombination, Load, Sum;
    var u := Ungrouped(y, grp, len + BLOCK_LEN);
    CombinationAccepted(cs, srcs, len, u);
    assert u[..len] == Ungrouped(y, grp, len);
  }
}
