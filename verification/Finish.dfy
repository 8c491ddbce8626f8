/**
 Unpacking a slice: gf16_finish_packed, which copies a slice out of the packed buffer and checks
 its linear checksum.  Byte lengths are kept where the code needs them, blocks elsewhere.
 */
module Finish {
  import opened Arith
  import opened Field
  import opened Blocks
  import opened Bytes
  import opened Layout
  import opened Packed
  import opened Prepare

  // What is emitted.

  /** Byte k of slice s as it lies in the packed buffer. */
  function OutByte(g: Geometry, buf: seq<Block>, s: nat, k: nat): Byte
    requires Fits(g, buf) && s < g.n && Quot(k, BLOCK_LEN) < g.d
  {
    Store(Get(g, buf, s, Quot(k, BLOCK_LEN)))[Rem(k, BLOCK_LEN)]
  }

  /** A slice geometry for slices of len bytes: the last block may be partly used. */
  predicate SlicesOf(g: Geometry, len: nat) { g.d == BlocksIn(len) && 1 <= g.d && g.l <= g.d + 1 }

  lemma BlockOfByte(g: Geometry, len: nat, k: nat)
    requires SlicesOf(g, len) && k < len
    ensures Quot(k, BLOCK_LEN) < g.d
  {
    hide Times, Quot, Rem;
    QuotRem(k, BLOCK_LEN);
    BlocksInBound(len, g.d);
    TimesOrder(g.d, Quot(k, BLOCK_LEN), BLOCK_LEN);
  }

  /** The len bytes of slice s. */
  function Output(g: Geometry, buf: seq<Block>, s: nat, len: nat): (out: seq<Byte>)
    requires Fits(g, buf) && s < g.n && SlicesOf(g, len)
    ensures |out| == len
  {
    seq(len, k requires 0 <= k < len => BlockOfByte(g, len, k); OutByte(g, buf, s, k))
  }

  /** A full block of the output is a block of the slice. */
  lemma OutputPiece(g: Geometry, buf: seq<Block>, s: nat, len: nat, j: nat)
    requires Fits(g, buf) && s < g.n && SlicesOf(g, len) && j < Whole(len)
    ensures j < g.d && Piece(Output(g, buf, s, len), j) == Store(Get(g, buf, s, j))
  {
    hide Times, Quot, Rem, Get, Store, SlicesOf;
    SlicesMeans(g, len);
    var out := Output(g, buf, s, len);
    PieceWhole(out, j);
    var at := Times(j, BLOCK_LEN);
    forall k | 0 <= k < BLOCK_LEN ensures out[at + k] == Store(Get(g, buf, s, j))[k] {
      QuotUnique(at + k, BLOCK_LEN, j, k);
    }
  }

  /** So is its misaligned end, cut short. */
  lemma OutputTail(g: Geometry, buf: seq<Block>, s: nat, len: nat)
    requires Fits(g, buf) && s < g.n && SlicesOf(g, len) && Tail(len) > 0
    ensures Whole(len) < g.d && Tail(len) <= BLOCK_LEN
    ensures Piece(Output(g, buf, s, len), Whole(len)) == Store(Get(g, buf, s, Whole(len)))[..Tail(len)]
  {
    hide Times, Quot, Rem, Get, Store, SlicesOf;
    SlicesMeans(g, len);
    var out := Output(g, buf, s, len);
    PieceTail(out);
    QuotRem(len, BLOCK_LEN);
    var j, at := Whole(len), Times(Whole(len), BLOCK_LEN);
    forall k | 0 <= k < Tail(len) ensures out[at + k] == Store(Get(g, buf, s, j))[k] {
      QuotUnique(at + k, BLOCK_LEN, j, k);
    }
  }

  lemma SlicesMeans(g: Geometry, len: nat)
    ensures SlicesOf(g, len) <==> g.d == BlocksIn(len) && 1 <= g.d && g.l <= g.d + 1
    ensures BlocksIn(len) == Whole(len) + if Tail(len) != 0 then 1 else 0
  {
  }

  // The destination.

  /** Where block j of the output begins, or its end if it is past that. */
  function Edge(out: seq<Byte>, j: int): (e: int)
    requires 0 <= j
    ensures 0 <= e <= |out|
  {
    TimesOrder(0, j, BLOCK_LEN);
    TimesNext(0, BLOCK_LEN);
    Min(Times(j, BLOCK_LEN), |out|)
  }

  lemma EdgeOrder(out: seq<Byte>, j: int, j': int)
    requires 0 <= j <= j'
    ensures Edge(out, j) <= Edge(out, j')
  {
    TimesOrder(j, j', BLOCK_LEN);
  }

  /** The destination once blocks lo to hi of the output are in it. */
  function Patch(dst: seq<Byte>, out: seq<Byte>, lo: int, hi: int): (r: seq<Byte>)
    requires 0 <= lo <= hi && |out| <= |dst|
    ensures |r| == |dst|
  {
    EdgeOrder(out, lo, hi);
    dst[..Edge(out, lo)] + out[Edge(out, lo)..Edge(out, hi)] + dst[Edge(out, hi)..]
  }

  lemma PatchJoin(dst: seq<Byte>, out: seq<Byte>, a: int, b: int, c: int)
    requires 0 <= a <= b <= c && |out| <= |dst|
    ensures Patch(Patch(dst, out, a, b), out, b, c) == Patch(dst, out, a, c)
  {
    hide Edge;
    EdgeOrder(out, a, b);
    EdgeOrder(out, b, c);
  }

  lemma PatchNone(dst: seq<Byte>, out: seq<Byte>, a: int)
    requires 0 <= a && |out| <= |dst|
    ensures Patch(dst, out, a, a) == dst
  {
  }

  /** Writing one piece. */
  lemma PatchPiece(dst: seq<Byte>, out: seq<Byte>, j: nat)
    requires |out| <= |dst|
    ensures var at := Edge(out, j); var p := Piece(out, j);
            && at + |p| <= |dst|
            && Patch(dst, out, j, j + 1) == dst[..at] + p + dst[at + |p|..]
  {
    hide Times;
    EdgeOrder(out, j, j + 1);
    assert Piece(out, j) == out[Edge(out, j)..Edge(out, j + 1)];
  }

  /** finishBlock and finishBlockU: bytes copied to a place in the destination. */
  method WriteBytes(dst: array<Byte>, at: nat, bytes: seq<Byte>)
    requires at + |bytes| <= dst.Length
    modifies dst
    ensures dst[..] == old(dst[..])[..at] + bytes + old(dst[..])[at + |bytes|..]
  {
    var k := 0;
    while k < |bytes|
      invariant 0 <= k <= |bytes|
      invariant dst[..] == old(dst[..])[..at] + bytes[..k] + old(dst[..])[at + k..]
    {
      dst[at + k] := bytes[k];
      k := k + 1;
    }
  }

  // Progress.

  /** Blocks po to j of the output have been emitted and taken into the checksum. */
  ghost predicate Emitted(g: Geometry, out: seq<Byte>, po: int, j: int, orig: seq<Byte>, dst: seq<Byte>, cks: Block, c: Block) {
    && 0 <= po <= j <= g.d && |out| <= |orig|
    && dst == Patch(orig, out, po, j)
    && c == Checksum(cks, Cut(out, g.d, po, j))
  }

  lemma EmittedStart(g: Geometry, out: seq<Byte>, po: nat, orig: seq<Byte>, cks: Block)
    requires po <= g.d && |out| <= |orig|
    ensures Emitted(g, out, po, po, orig, orig, cks, cks)
  {
    PatchNone(orig, out, po);
  }

  lemma EmittedJoin(g: Geometry, out: seq<Byte>, po: int, j: int, j': int, orig: seq<Byte>, dst: seq<Byte>,
                    dst': seq<Byte>, cks: Block, c: Block, c': Block)
    requires Emitted(g, out, po, j, orig, dst, cks, c) && Emitted(g, out, j, j', dst, dst', c, c')
    ensures Emitted(g, out, po, j', orig, dst', cks, c')
  {
    hide Patch, Checksum, Padded, Cut;
    PatchJoin(orig, out, po, j, j');
    CutJoin(out, g.d, po, j, j');
    ChecksumAppend(cks, Cut(out, g.d, po, j), Cut(out, g.d, j, j'));
  }

  lemma EmittedMeans(g: Geometry, out: seq<Byte>, po: int, j: int, orig: seq<Byte>, dst: seq<Byte>, cks: Block, c: Block)
    requires Emitted(g, out, po, j, orig, dst, cks, c)
    ensures 0 <= po <= j <= g.d && |out| <= |orig| == |dst|
    ensures dst == Patch(orig, out, po, j) && c == Checksum(cks, Cut(out, g.d, po, j))
  {
  }

  /** Block j written and added to the checksum. */
  lemma EmittedOne(g: Geometry, out: seq<Byte>, j: nat, orig: seq<Byte>, dst: seq<Byte>, c: Block)
    requires j < g.d && |out| <= |orig| && Edge(out, j) + |Piece(out, j)| <= |orig|
    requires dst == orig[..Edge(out, j)] + Piece(out, j) + orig[Edge(out, j) + |Piece(out, j)|..]
    ensures |dst| == |orig| && dst[Edge(out, j)..Edge(out, j) + |Piece(out, j)|] == Piece(out, j)
    ensures Emitted(g, out, j, j + 1, orig, dst, c, Add(Twice(c), Load(Piece(out, j))))
  {
    hide Patch, Checksum, Padded, Load, Piece, Edge, Add, Twice;
    PatchPiece(orig, out, j);
    var b := Load(Piece(out, j));
    assert Cut(out, g.d, j, j + 1) == [b];
    assert [] + [b] == [b];
    ChecksumSnoc(c, [], b);
    ChecksumNone(c, []);
  }

  // The loops.

  /** finishBlock and checksumBlock for one full block. */
  method EmitBlock(dst: array<Byte>, src: seq<Block>, addr: int, j: nat, cks: Block,
                   ghost g: Geometry, ghost s: nat, ghost out: seq<Byte>)
    returns (c: Block)
    requires Fits(g, src) && s < g.n && SlicesOf(g, |out|) && |out| <= dst.Length
    requires out == Output(g, src, s, |out|)
    requires j < Whole(|out|) && addr == Cell(g, s, j)
    modifies dst
    ensures j < g.d && Emitted(g, out, j, j + 1, old(dst[..]), dst[..], cks, c)
  {
    hide Checksum, Patch, Add, Twice, Load, Store, Cell, Piece, Padded, Cut, Emitted, SlicesOf, Output, Edge;
    ghost var before := dst[..];
    OutputPiece(g, src, s, |out|, j);
    FullPiece(out, j);
    CellBounds(g, s, j);
    var at := Times(j, BLOCK_LEN);
    WriteBytes(dst, at, Store(src[addr]));
    EmittedOne(g, out, j, before, dst[..], cks);
    c := Add(Twice(cks), Load(dst[at..at + BLOCK_LEN]));
  }

  /** The loop that emits full blocks until the chunk or the part ends. */
  method EmitBlocks(dst: array<Byte>, src: seq<Block>, base: int, w: int, first: nat, pos0: nat, limit: nat,
                    left0: nat, cks: Block, ghost g: Geometry, ghost s: nat, ghost out: seq<Byte>)
    returns (pos: nat, left: nat, c: Block, stop: bool)
    requires Fits(g, src) && s < g.n && SlicesOf(g, |out|) && |out| <= dst.Length
    requires out == Output(g, src, s, |out|)
    requires pos0 <= limit && first + limit <= Whole(|out|) && Addressed(g, s, base, w, first, pos0, limit)
    modifies dst
    ensures pos == pos0 + Min(limit - pos0, left0) && left == left0 - (pos - pos0) && (stop <==> pos < limit)
    ensures Emitted(g, out, first + pos0, first + pos, old(dst[..]), dst[..], cks, c)
  {
    hide Checksum, Patch, Add, Twice, Load, Store, Cell, Piece, Padded, Cut, Emitted, SlicesOf, Output, Edge;
    pos, left, c := pos0, left0, cks;
    SlicesMeans(g, |out|);
    EmittedStart(g, out, first + pos0, dst[..], cks);
    while pos < limit
      invariant pos0 <= pos <= limit && left == left0 - (pos - pos0)
      invariant Emitted(g, out, first + pos0, first + pos, old(dst[..]), dst[..], cks, c)
    {
      if left == 0 { return pos, left, c, true; }
      ghost var before, c0 := dst[..], c;
      c := EmitBlock(dst, src, Address(base, w, pos), first + pos, c, g, s, out);
      EmittedJoin(g, out, first + pos0, first + pos, first + pos + 1, old(dst[..]), before, dst[..], cks, c0, c);
      left := left - 1;
      pos := pos + 1;
    }
    stop := false;
  }

  lemma FullPiece(out: seq<Byte>, j: nat)
    requires j < Whole(|out|)
    ensures 0 <= Times(j, BLOCK_LEN) == Edge(out, j) && Times(j, BLOCK_LEN) + BLOCK_LEN <= |out|
    ensures |Piece(out, j)| == BLOCK_LEN
  {
    hide Times, Quot, Rem;
    PieceWhole(out, j);
  }

  lemma LastPiece(out: seq<Byte>)
    ensures 0 <= Times(Whole(|out|), BLOCK_LEN) == Edge(out, Whole(|out|))
    ensures Times(Whole(|out|), BLOCK_LEN) + Tail(|out|) == |out| && |Piece(out, Whole(|out|))| == Tail(|out|)
  {
    hide Times, Quot, Rem;
    PieceTail(out);
  }

  /** The misaligned end: finishBlockU and checksumBlockU. */
  method EmitTail(dst: array<Byte>, src: seq<Block>, base: int, w: int, first: nat, pos: nat, remaining: nat, cks: Block,
                  ghost g: Geometry, ghost s: nat, ghost out: seq<Byte>)
    returns (c: Block)
    requires Fits(g, src) && s < g.n && SlicesOf(g, |out|) && |out| <= dst.Length
    requires out == Output(g, src, s, |out|)
    requires first + pos == Whole(|out|) && remaining == Tail(|out|) > 0
    requires Address(base, w, pos) == Cell(g, s, first + pos)
    modifies dst
    ensures Whole(|out|) < g.d
    ensures Emitted(g, out, first + pos, first + pos + 1, old(dst[..]), dst[..], cks, c)
  {
    hide Checksum, Patch, Add, Twice, Load, Store, Cell, Piece, Padded, Cut, Emitted, SlicesOf, Output, Edge;
    ghost var j, before := first + pos, dst[..];
    OutputTail(g, src, s, |out|);
    LastPiece(out);
    CellBounds(g, s, j);
    var at := Times(first + pos, BLOCK_LEN);
    WriteBytes(dst, at, Store(src[Address(base, w, pos)])[..remaining]);
    EmittedOne(g, out, j, before, dst[..], cks);
    c := Add(Twice(cks), Load(dst[at..at + remaining]));
  }

  lemma WholeTail(len: nat)
    ensures len == Times(Whole(len), BLOCK_LEN) + Tail(len) && Tail(len) < BLOCK_LEN
  {
    QuotRem(len, BLOCK_LEN);
  }

  lemma BeyondEnd(t: nat, len: nat)
    ensures Times(t, BLOCK_LEN) > len <==> t > Whole(len)
  {
    hide Times, Quot, Rem;
    QuotRem(len, BLOCK_LEN);
    TimesNext(Whole(len), BLOCK_LEN);
    TimesOrder(Whole(len) + 1, t, BLOCK_LEN);
    TimesOrder(t, Whole(len), BLOCK_LEN);
  }

  /** The bytes that follow f blocks. */
  lemma BytesAfter(len: nat, f: nat)
    requires f <= Whole(len)
    ensures var rest := len - Times(f, BLOCK_LEN);
            0 <= rest && Whole(rest) == Whole(len) - f && Tail(rest) == Tail(len)
  {
    hide Times, Quot, Rem;
    QuotRem(len, BLOCK_LEN);
    var w := Whole(len) - f;
    TimesSum(f, w, BLOCK_LEN);
    TimesOrder(0, w, BLOCK_LEN);
    TimesNext(0, BLOCK_LEN);
    QuotUnique(len - Times(f, BLOCK_LEN), BLOCK_LEN, w, Tail(len));
  }

  /** How partLeft, in blocks, relates to what a part has to emit; one is added when it completes. */
  ghost predicate PartLeft(g: Geometry, out: seq<Byte>, j: int, left: int, completing: bool) {
    if completing then left == Whole(|out|) - j + 1 else 0 <= left <= Whole(|out|) - j && left < g.d - j
  }

  /** A chunk in the middle of the slice, or the last one when it fills its chunk. */
  method EmitChunk(dst: array<Byte>, src: seq<Block>, g: Geometry, s: nat, sliceLen: nat, chunk: nat, pos0: nat, left0: nat,
                   cks: Block, ghost out: seq<Byte>, ghost completing: bool)
    returns (left: nat, c: Block, stop: bool, tail: bool, ghost j: nat)
    requires Fits(g, src) && s < g.n && SlicesOf(g, sliceLen) && |out| == sliceLen <= dst.Length
    requires out == Output(g, src, s, sliceLen)
    requires var dl := DataChunk(g.l, g.d);
             && chunk < Quot(g.d, dl) && pos0 < dl && 0 <= Times(chunk, dl)
             && PartLeft(g, out, Times(chunk, dl) + pos0, left0, completing)
    modifies dst
    ensures var dl := DataChunk(g.l, g.d); var j0 := Times(chunk, dl) + pos0;
            && Emitted(g, out, j0, j, old(dst[..]), dst[..], cks, c)
            && (stop <==> !completing && j == j0 + left0 && j < Times(chunk + 1, dl)) && (stop ==> left == 0)
            && (!stop ==> j == Times(chunk + 1, dl) && (tail <==> j > Whole(sliceLen)))
            && (!stop && !tail ==> PartLeft(g, out, j, left, completing) && left == left0 - (j - j0))
            && (!stop && tail ==> j == g.d && completing)
  {
    hide Checksum, Patch, Load, Store, Cell, Piece, Padded, Cut, Emitted, SlicesOf, Output, Edge, Width, ChunkBlocks, Times, Quot, Rem, Whole, Tail, ChunkBase, Address;
    SlicesMeans(g, sliceLen);
    var dl: int := DataChunk(g.l, g.d);
    var interleaveBy := Width(g.n, g.i, s);
    var first, base := Times(chunk, dl), ChunkBase(g, s, chunk, g.l);
    ghost var orig, j0 := dst[..], first + pos0;
    QuotRem(g.d, dl);
    TimesOrder(chunk + 1, Quot(g.d, dl), dl);
    TimesNext(chunk, dl);
    FullChunk(g.l, g.d, chunk);
    ChunkAddress(g, s, chunk, g.l);
    BeyondEnd(Times(chunk + 1, dl), sliceLen);
    var pos;
    tail := false;
    if Times(Times(chunk + 1, dl), BLOCK_LEN) > sliceLen {
      pos, left, c, stop := EmitBlocks(dst, src, base, interleaveBy, first, pos0, dl - 1, left0, cks, g, s, out);
      j := first + pos;
      if stop { return; }
      if left == 0 { stop := true; return; }
      BytesAfter(sliceLen, first + pos);
      TimesSum(first, pos, BLOCK_LEN);
      TailAlone(sliceLen - Times(first + pos, BLOCK_LEN));
      var remaining := sliceLen - Times(first, BLOCK_LEN) - Times(pos, BLOCK_LEN);
      ghost var before, c0 := dst[..], c;
      c := EmitTail(dst, src, base, interleaveBy, first, pos, remaining, c, g, s, out);
      EmittedJoin(g, out, j0, j, j + 1, orig, before, dst[..], cks, c0, c);
      tail, j := true, j + 1;
    } else {
      pos, left, c, stop := EmitBlocks(dst, src, base, interleaveBy, first, pos0, dl, left0, cks, g, s, out);
      j := first + pos;
    }
  }

  lemma TailAlone(len: nat)
    requires Whole(len) == 0
    ensures Tail(len) == len
  {
  }

  /** All full chunks from the part's first block on. */
  method EmitFullChunks(dst: array<Byte>, src: seq<Block>, g: Geometry, s: nat, sliceLen: nat, po: nat, left0: nat,
                        cks: Block, ghost out: seq<Byte>, ghost completing: bool)
    returns (pos: nat, left: nat, remaining: int, c: Block, stop: bool, ghost j: nat)
    requires Fits(g, src) && s < g.n && SlicesOf(g, sliceLen) && |out| == sliceLen <= dst.Length
    requires out == Output(g, src, s, sliceLen)
    requires po <= Whole(sliceLen) && PartLeft(g, out, po, left0, completing)
    modifies dst
    ensures var dl := DataChunk(g.l, g.d); var first := Times(Quot(g.d, dl), dl);
            && Emitted(g, out, po, j, old(dst[..]), dst[..], cks, c)
            && (stop ==> !completing && j == po + left0)
            && (!stop && remaining == 0 ==> j == g.d && completing)
            && (!stop && remaining != 0 ==>
                  && remaining == sliceLen - Times(first, BLOCK_LEN) > 0 && j == first + pos && 0 <= first
                  && Rem(g.d, dl) > 0 && j <= Whole(sliceLen) && first <= Whole(sliceLen)
                  && PartLeft(g, out, j, left, completing) && left == left0 - (j - po))
  {
    hide Checksum, Patch, Load, Store, Cell, Piece, Padded, Cut, Emitted, SlicesOf, Output, Edge, Width, ChunkBlocks, Times, Quot, Rem, Whole, Tail, DataChunk, Address;
    SlicesMeans(g, sliceLen);
    var dl: int := DataChunk(g.l, g.d);
    var fullChunks := Quot(g.d, dl);
    ghost var orig := dst[..];
    ghost var first := Times(fullChunks, dl);
    remaining := sliceLen - Times(Times(fullChunks, dl), BLOCK_LEN);
    var chunk := Quot(po, dl);
    pos, left, c, stop, j := Rem(po, dl), left0, cks, false, po;
    QuotRem(po, dl); QuotRem(g.d, dl);
    TimesOrder(fullChunks + 1, chunk, dl);
    TimesNext(fullChunks, dl);
    TimesOrder(0, fullChunks, dl);
    TimesOrder(0, chunk, dl);
    TimesNext(0, dl);
    RemainingBytes(sliceLen, first);
    EmittedStart(g, out, po, orig, cks);
    while chunk < fullChunks
      invariant chunk <= fullChunks && 0 <= pos < dl && Emitted(g, out, po, j, orig, dst[..], cks, c)
      invariant 0 <= Times(chunk, dl) && j == Times(chunk, dl) + pos
      invariant if j <= Whole(sliceLen) then
                  PartLeft(g, out, j, left, completing) && left == left0 - (j - po)
                  && remaining == sliceLen - Times(first, BLOCK_LEN)
                else remaining == 0 && chunk == fullChunks && completing && j == g.d
    {
      ghost var before, c0, j0 := dst[..], c, j;
      TimesOrder(0, chunk, dl);
      TimesNext(0, dl);
      TimesNext(chunk, dl);
      TimesOrder(chunk + 1, fullChunks, dl);
      var tail;
      left, c, stop, tail, j := EmitChunk(dst, src, g, s, sliceLen, chunk, pos, left, c, out, completing);
      EmittedJoin(g, out, po, j0, j, orig, before, dst[..], cks, c0, c);
      if stop { return; }
      if tail { remaining := 0; }
      pos := 0;
      chunk := chunk + 1;
    }
  }

  /** What is left in bytes after f blocks says how f compares with the slice. */
  lemma RemainingBytes(len: nat, f: nat)
    ensures var rest := len - Times(f, BLOCK_LEN);
            && (rest < 0 <==> f > Whole(len))
            && (rest == 0 <==> f == Whole(len) && Tail(len) == 0)
  {
    hide Times, Quot, Rem;
    BeyondEnd(f, len);
    if f <= Whole(len) {
      BytesAfter(len, f);
      QuotRem(len - Times(f, BLOCK_LEN), BLOCK_LEN);
      TimesNext(0, BLOCK_LEN);
      TimesOrder(1, Whole(len - Times(f, BLOCK_LEN)), BLOCK_LEN);
      TimesNext(0, BLOCK_LEN);
    }
  }

  /** The final chunk, when the slice's data does not end with a full one. */
  method EmitLastChunk(dst: array<Byte>, src: seq<Block>, g: Geometry, s: nat, sliceLen: nat, remaining: nat, pos0: nat,
                       left0: nat, cks: Block, ghost out: seq<Byte>, ghost completing: bool)
    returns (c: Block, stop: bool, ghost j: nat)
    requires Fits(g, src) && s < g.n && SlicesOf(g, sliceLen) && |out| == sliceLen <= dst.Length
    requires out == Output(g, src, s, sliceLen)
    requires var dl := DataChunk(g.l, g.d); var first := Times(Quot(g.d, dl), dl);
             && Rem(g.d, dl) > 0 && 0 <= first <= first + pos0 <= Whole(sliceLen)
             && remaining == sliceLen - Times(first, BLOCK_LEN)
             && PartLeft(g, out, first + pos0, left0, completing)
    modifies dst
    ensures var j0 := Times(Quot(g.d, DataChunk(g.l, g.d)), DataChunk(g.l, g.d)) + pos0;
            && Emitted(g, out, j0, j, old(dst[..]), dst[..], cks, c)
            && stop == !completing && (if completing then j == g.d else j == j0 + left0)
  {
    hide Checksum, Patch, Load, Store, Cell, Piece, Padded, Cut, Emitted, SlicesOf, Output, Edge, Width, ChunkBlocks, Times, Quot, Rem, Whole, Tail, DataChunk, Address, ChunkBase;
    SlicesMeans(g, sliceLen);
    var dl := DataChunk(g.l, g.d);
    var interleaveBy := Width(g.n, g.i, s);
    var fullChunks := Quot(g.d, dl);
    var first := Times(fullChunks, dl);
    var rest := Rem(g.d + 1, g.l);
    var effectiveLastChunkLen := if rest == 0 then g.l else rest;
    ghost var orig, j0 := dst[..], first + pos0;
    ShortChunk(g.l, g.d);
    QuotRem(g.d, dl);
    QuotRem(g.d + 1, g.l);
    ChunkAddress(g, s, fullChunks, effectiveLastChunkLen);
    var base := ChunkBase(g, s, fullChunks, effectiveLastChunkLen);
    BytesAfter(sliceLen, first);
    WholeTail(remaining);
    var pos, left;
    pos, left, c, stop := EmitBlocks(dst, src, base, interleaveBy, first, pos0, Whole(remaining), left0, cks, g, s, out);
    j := first + pos;
    if stop { return; }
    if left == 0 { stop := true; return; }
    if Times(pos, BLOCK_LEN) < remaining {
      ghost var before, c0 := dst[..], c;
      c := EmitTail(dst, src, base, interleaveBy, first, pos, remaining - Times(pos, BLOCK_LEN), c, g, s, out);
      EmittedJoin(g, out, j0, j, j + 1, orig, before, dst[..], cks, c0, c);
      j := j + 1;
    }
  }

  /** Whether a block is all zeroes, word by word. */
  method AllZero(b: Block) returns (zero: bool)
    ensures zero <==> b == ZeroBlock()
  {
    var k := 0;
    while k < LANES
      invariant 0 <= k <= LANES && forall h :: 0 <= h < k ==> b[h] == Zero
    {
      if b[k] != Zero { return false; }
      k := k + 1;
    }
    assert b == ZeroBlock();
    return true;
  }

  /** The checksum a part starts from: rewound by the whole slice when it is the first part. */
  function StartChecksum(g: Geometry, po: nat, stored: Block): Block {
    if po == 0 then Scale(Exp(65535 - g.d % 65535), stored) else stored
  }

  /**
   gf16_finish_packed, apart from where the running checksum is kept: it is passed in and out.
   dst is the output as seen after its pointer is moved back by partOffset.
   */
  method FinishPacked(dst: array<Byte>, src: seq<Block>, g: Geometry, s: nat, sliceLen: nat, po: nat, partLen: nat,
                      stored: Block, ghost out: seq<Byte>)
    returns (verdict: bool, c: Block)
    requires Fits(g, src) && s < g.n && SlicesOf(g, sliceLen) && |out| == sliceLen <= dst.Length
    requires out == Output(g, src, s, sliceLen) && PartOf(out, po, partLen)
    modifies dst
    ensures var hi := PartEnd(g, out, po, partLen); var cks := StartChecksum(g, po, stored);
            && 0 <= po <= hi <= g.d
            && dst[..] == Patch(old(dst[..]), out, po, hi)
            && c == Checksum(cks, Cut(out, g.d, po, hi))
            && (verdict <==> Completes(out, po, partLen) && c == ZeroBlock())
  {
    hide Checksum, Patch, Load, Store, Cell, Piece, Padded, Cut, Emitted, SlicesOf, Output, Edge, Times, Quot, Rem, Whole, Tail, DataChunk, StartChecksum;
    var completing := Times(po, BLOCK_LEN) + partLen == sliceLen;
    PartStart(g, out, po, partLen);
    var partLeft := Whole(partLen) + if completing then 1 else 0;
    ghost var orig := dst[..];
    ghost var j: nat;
    var cks := StartChecksum(g, po, stored);
    var pos, remaining, stop;
    pos, partLeft, remaining, c, stop, j := EmitFullChunks(dst, src, g, s, sliceLen, po, partLeft, cks, out, completing);
    verdict := false;
    if !stop && remaining != 0 {
      ghost var before, c0, j0 := dst[..], c, j;
      c, stop, j := EmitLastChunk(dst, src, g, s, sliceLen, remaining, pos, partLeft, c, out, completing);
      EmittedJoin(g, out, po, j0, j, orig, before, dst[..], cks, c0, c);
    }
    EmittedMeans(g, out, po, j, orig, dst[..], cks, c);
    if stop { return; }
    if completing {
      verdict := AllZero(c);
      return;
    }
    verdict := true;
  }

  /** A part's first block, and how much of it there is to emit. */
  lemma PartStart(g: Geometry, out: seq<Byte>, po: nat, partLen: nat)
    requires SlicesOf(g, |out|) && PartOf(out, po, partLen)
    ensures Completes(out, po, partLen) <==> Times(po, BLOCK_LEN) + partLen == |out|
    ensures var completing := Completes(out, po, partLen); var hi := PartEnd(g, out, po, partLen);
            && po <= Whole(|out|)
            && PartLeft(g, out, po, Whole(partLen) + if completing then 1 else 0, completing)
            && hi == (if completing then g.d else po + Whole(partLen)) && po <= hi <= g.d
  {
    hide Times, Quot, Rem;
    BlocksInBound(|out|, g.d);
    PartEndBounds(g, out, po, partLen);
    if Completes(out, po, partLen) { BytesAfter(|out|, po); }
  }
}
