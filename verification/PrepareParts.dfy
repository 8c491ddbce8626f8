/**
 The entry points of packing: a slice prepared in one call, and a slice prepared part by part
 with the running checksum kept in the buffer's own checksum block between the calls.
 */
module PrepareParts {
  import opened Arith
  import opened Field
  import opened Blocks
  import opened Bytes
  import opened Layout
  import opened Packed
  import opened Prepare
  import opened FieldOrder

  /** What a prepared slice looks like: its padded data, then their checksum. */
  function SliceImage(src: seq<Byte>, d: nat): (bs: seq<Block>)
    ensures |bs| == d + 1
  {
    Padded(src, d) + [Checksum(ZeroBlock(), Padded(src, d))]
  }

  lemma CutAll(src: seq<Byte>, d: nat)
    ensures Cut(src, d, 0, d) == Padded(src, d)
  {
  }

  /** gf16_*_prepare_packed_cksum: one call for the whole slice. */
  method PreparePackedCksum(dst: array<Block>, src: seq<Byte>, g: Geometry, s: nat)
    requires Fits(g, dst[..]) && Packable(g, s, src)
    modifies dst
    ensures dst[..] == Put(g, old(dst[..]), s, 0, SliceImage(src, g.d))
  {
    hide Checksum, Put, Padded, Cut, Cell;
    WholePart(src);
    CutAll(src, g.d);
    var c := PreparePacked(dst, src, g, s, 0, |src|, ZeroBlock());
  }

  lemma WholePart(src: seq<Byte>)
    ensures PartOf(src, 0, |src|) && Completes(src, 0, |src|)
  {
  }

  /** memcpy of the checksum block. */
  method ReadChecksum(dst: array<Block>, g: Geometry, s: nat) returns (c: Block)
    requires Fits(g, dst[..]) && s < g.n
    ensures c == Get(g, dst[..], s, g.d)
  {
    hide Offset, ChecksumPtr;
    CellBounds(g, s, g.d);
    ChecksumPtrIsOffset(g.d, g.n, s, g.l, g.i);
    c := dst[ChecksumPtr(g.d, g.n, s, g.l, g.i)];
  }

  lemma CompletesMeans(g: Geometry, src: seq<Byte>, po: nat, partLen: nat)
    ensures Completes(src, po, partLen) <==> Times(po, BLOCK_LEN) + partLen == |src|
    ensures Completes(src, po, partLen) ==> PartEnd(g, src, po, partLen) == g.d
    ensures !Completes(src, po, partLen) ==> PartEnd(g, src, po, partLen) == po + Whole(partLen)
  {
  }

  /**
   gf16_*_prepare_partial_packsum: whatever is in the buffer, the part's blocks are written, and the
   checksum block has been moved on over them, from zero if this is the first part.
   */
  method PreparePartialPacksum(dst: array<Block>, src: seq<Byte>, g: Geometry, s: nat, po: nat, partLen: nat)
    requires Fits(g, dst[..]) && Packable(g, s, src) && PartOf(src, po, partLen)
    modifies dst
    ensures var hi := PartEnd(g, src, po, partLen);
            && 0 <= po <= hi <= g.d
            && var bs, was := Cut(src, g.d, po, hi), old(Get(g, dst[..], s, g.d));
               dst[..] == Put(g, Put(g, old(dst[..]), s, po, bs), s, g.d, [Checksum(if po == 0 then ZeroBlock() else was, bs)])
  {
    hide Checksum, Put, Padded, Cut, Cell, Get, Completes, PartEnd;
    var checksum := ReadChecksum(dst, g, s);
    if po == 0 { checksum := ZeroBlock(); }
    ghost var buf, c0, hi := dst[..], checksum, PartEnd(g, src, po, partLen);
    checksum := PreparePacked(dst, src, g, s, po, partLen, checksum);
    CutSizes(src, g.d, po, po, hi);
    CompletesMeans(g, src, po, partLen);
    if Times(po, BLOCK_LEN) + partLen != |src| {
      AppendNothing(Cut(src, g.d, po, hi));
      PutOne(g, dst[..], s, g.d, checksum);
      WriteChecksum(dst, g, s, checksum);
    } else {
      PutAppend(g, buf, s, po, Cut(src, g.d, po, hi), [checksum]);
    }
  }

  // Parts one after the other.

  /** The buffer when blocks up to j are in and the checksum block holds x. */
  ghost predicate Upto(g: Geometry, s: nat, src: seq<Byte>, j: int, x: Block, orig: seq<Block>, buf: seq<Block>)
    requires Fits(g, orig) && s < g.n
  {
    0 <= j <= g.d && buf == Put(g, Put(g, orig, s, 0, Cut(src, g.d, 0, j)), s, g.d, [x])
  }

  lemma UptoStart(g: Geometry, s: nat, src: seq<Byte>, buf: seq<Block>)
    requires Fits(g, buf) && s < g.n
    ensures Upto(g, s, src, 0, Get(g, buf, s, g.d), buf, buf)
  {
    hide Put, Cut, Cell;
    CutSizes(src, g.d, 0, 0, 0);
    PutNone(g, buf, s, 0, Cut(src, g.d, 0, 0));
    PutOne(g, buf, s, g.d, Get(g, buf, s, g.d));
  }

  lemma UptoGet(g: Geometry, s: nat, src: seq<Byte>, j: int, x: Block, orig: seq<Block>, buf: seq<Block>)
    requires Fits(g, orig) && s < g.n && Upto(g, s, src, j, x, orig, buf)
    ensures |buf| == |orig| && Get(g, buf, s, g.d) == x
  {
    hide Put, Cut, Cell, Get;
    CutSizes(src, g.d, 0, j, j);
    GetPut(g, Put(g, orig, s, 0, Cut(src, g.d, 0, j)), s, g.d, [x], s, g.d);
  }

  /** Blocks po to hi are put in, after those up to po or once more. */
  lemma UptoStep(g: Geometry, s: nat, src: seq<Byte>, po: nat, j: int, hi: int, x: Block, c: Block, orig: seq<Block>,
                 buf: seq<Block>, buf': seq<Block>)
    requires Fits(g, orig) && s < g.n && Upto(g, s, src, j, x, orig, buf) && |buf| == |orig|
    requires po <= hi <= g.d && (j == po || j == hi)
    requires buf' == Put(g, Put(g, buf, s, po, Cut(src, g.d, po, hi)), s, g.d, [c])
    ensures Upto(g, s, src, hi, c, orig, buf')
  {
    hide Put, Padded, Cut, Cell;
    CutSizes(src, g.d, 0, po, hi);
    CutSizes(src, g.d, 0, j, j);
    var a, b := Cut(src, g.d, 0, po), Cut(src, g.d, po, hi);
    CutJoin(src, g.d, 0, po, hi);
    var p := Put(g, orig, s, 0, Cut(src, g.d, 0, j));
    PutCommutes(g, p, s, po, b, x, g.d);
    if j == po { PutAppend(g, orig, s, 0, a, b); } else { PutSame(g, orig, s, a, b); }
    PutTwice(g, Put(g, orig, s, 0, a + b), s, g.d, x, c);
  }

  lemma PutTwice(g: Geometry, buf: seq<Block>, s: nat, j: nat, x: Block, y: Block)
    requires Fits(g, buf) && s < g.n && j <= g.d
    ensures Put(g, Put(g, buf, s, j, [x]), s, j, [y]) == Put(g, buf, s, j, [y])
  {
    hide Put, Cell;
    PutOverwrites(g, buf, s, j, [y], x, j);
  }

  /** Writing blocks again that are there already. */
  lemma PutSame(g: Geometry, buf: seq<Block>, s: nat, a: seq<Block>, b: seq<Block>)
    requires Fits(g, buf) && s < g.n && |a| + |b| <= g.d
    ensures Put(g, Put(g, buf, s, 0, a + b), s, |a|, b) == Put(g, buf, s, 0, a + b)
  {
    hide Put, Get, Cell;
    var p := Put(g, buf, s, 0, a + b);
    var q := Put(g, p, s, |a|, b);
    forall s', j' | 0 <= s' < g.n && 0 <= j' <= g.d ensures Get(g, q, s', j') == Get(g, p, s', j') {
      GetPut(g, p, s, |a|, b, s', j');
      GetPut(g, buf, s, 0, a + b, s', j');
    }
    forall k | g.n * (g.d + 1) <= k < |p| ensures q[k] == p[k] { PutBeyond(g, p, s, |a|, b, k); }
    SameBuffer(g, q, p);
  }

  /**
   Parts one after the other from block po on: whole blocks, except that the last one ends where the
   source does.  Calls after the one that first gets there are admitted; they have no bytes left.
   */
  ghost predicate Covers(total: nat, po: nat, parts: seq<nat>)
    decreases |parts|
  {
    |parts| > 0 && Times(po, BLOCK_LEN) + parts[0] <= total
    && if |parts| == 1 then Times(po, BLOCK_LEN) + parts[0] == total
       else Tail(parts[0]) == 0 && Covers(total, po + Whole(parts[0]), parts[1..])
  }

  /** How many calls follow the first one that completes the source. */
  function Extra(total: nat, po: nat, parts: seq<nat>): nat
    decreases |parts|
  {
    if |parts| <= 1 then 0
    else if Times(po, BLOCK_LEN) + parts[0] == total then |parts| - 1
    else Extra(total, po + Whole(parts[0]), parts[1..])
  }

  lemma CoversMeans(total: nat, po: nat, parts: seq<nat>, src: seq<Byte>)
    requires |src| == total && Covers(total, po, parts)
    ensures |parts| > 0 && PartOf(src, po, parts[0])
    ensures |parts| == 1 ==> Completes(src, po, parts[0]) && Extra(total, po, parts) == 0
    ensures |parts| > 1 ==> Tail(parts[0]) == 0 && Covers(total, po + Whole(parts[0]), parts[1..])
    ensures |parts| > 1 ==>
              Extra(total, po, parts)
              == if Completes(src, po, parts[0]) then |parts| - 1 else Extra(total, po + Whole(parts[0]), parts[1..])
  {
    hide Times, Whole, Tail;
  }

  /** Once the source is complete, what follows is empty, and it was a whole number of blocks. */
  lemma CompletedRest(total: nat, po: nat, parts: seq<nat>)
    requires Covers(total, po, parts) && |parts| > 1 && Times(po, BLOCK_LEN) + parts[0] == total
    ensures Tail(total) == 0 && po + Whole(parts[0]) == Whole(total) && Times(Whole(total), BLOCK_LEN) == total
    ensures parts[1] == 0
  {
    hide Times, Quot, Rem, Covers;
    CoversMeans(total, po, parts, seq(total, _ => 0));
    WholeSum(po, parts[0]);
    CoversMeans(total, po + Whole(parts[0]), parts[1..], seq(total, _ => 0));
    PartOfMeans(seq(total, _ => 0), po + Whole(parts[0]), parts[1]);
  }

  lemma PartOfMeans(src: seq<Byte>, po: nat, partLen: nat)
    requires PartOf(src, po, partLen)
    ensures Times(po, BLOCK_LEN) + partLen <= |src|
  {
  }

  lemma WholeSum(po: nat, len: nat)
    requires Tail(len) == 0
    ensures Times(po, BLOCK_LEN) + len == Times(po + Whole(len), BLOCK_LEN)
    ensures var total := Times(po, BLOCK_LEN) + len; total >= 0 && Whole(total) == po + Whole(len) && Tail(total) == 0
  {
    hide Times, Quot, Rem;
    QuotRem(len, BLOCK_LEN);
    TimesSum(po, Whole(len), BLOCK_LEN);
    TimesOrder(0, po, BLOCK_LEN);
    TimesNext(0, BLOCK_LEN);
    QuotUnique(Times(po, BLOCK_LEN) + len, BLOCK_LEN, po + Whole(len), 0);
  }

  function SliceSum(src: seq<Byte>, d: nat): Block { Checksum(ZeroBlock(), Padded(src, d)) }

  /** The blocks after the source's last byte that a completing call takes into the checksum again. */
  function Padding(src: seq<Byte>, d: nat): nat { if Whole(|src|) <= d then d - Whole(|src|) else 0 }

  /** The checksum once k further calls have done so. */
  function PartsSum(src: seq<Byte>, d: nat, k: nat): Block {
    MulLe(0, k, Padding(src, d));
    Wind(SliceSum(src, d), k * Padding(src, d))
  }

  /** A slice as parts leave it: k completing calls too many have wound the checksum over the padding again. */
  function PartsImage(src: seq<Byte>, d: nat, k: nat): (bs: seq<Block>)
    ensures |bs| == d + 1
  {
    Padded(src, d) + [PartsSum(src, d, k)]
  }

  lemma UptoImage(g: Geometry, s: nat, src: seq<Byte>, k: nat, orig: seq<Block>, buf: seq<Block>)
    requires Fits(g, orig) && s < g.n && Upto(g, s, src, g.d, PartsSum(src, g.d, k), orig, buf)
    ensures buf == Put(g, orig, s, 0, PartsImage(src, g.d, k))
  {
    hide Put, Padded, Cut, Cell, PartsSum;
    CutAll(src, g.d);
    PutAppend(g, orig, s, 0, Padded(src, g.d), [PartsSum(src, g.d, k)]);
  }

  /** One more completing call, for a source that has a whole number of blocks. */
  lemma AgainSum(src: seq<Byte>, d: nat, k: nat)
    requires Tail(|src|) == 0 && Whole(|src|) <= d
    ensures var w := Whole(|src|); var x := PartsSum(src, d, k);
            Checksum(if w == 0 then ZeroBlock() else x, Cut(src, d, w, d)) == PartsSum(src, d, k + 1)
  {
    hide Checksum, Wind, Padded, Cut, Quot, Rem, Twice;
    var w, c := Whole(|src|), SliceSum(src, d);
    var x := Wind(c, k * Padding(src, d));
    BlocksInMeans(|src|);
    CutSizes(src, d, w, w, d);
    CutPadding(src, d, w, x);
    CutPadding(src, d, w, ZeroBlock());
    WindAdd(c, k * Padding(src, d), d - w);
    assert (k + 1) * Padding(src, d) == k * Padding(src, d) + (d - w);
    if w == 0 {
      CutAll(src, d);
      WindLinear(ZeroBlock(), ZeroBlock(), d);
      WindLinear(ZeroBlock(), ZeroBlock(), (k + 1) * Padding(src, d));
    }
  }

  lemma CutPadding(src: seq<Byte>, d: nat, w: int, c: Block)
    requires BlocksIn(|src|) <= w <= d
    ensures Checksum(c, Cut(src, d, w, d)) == Wind(c, d - w)
  {
    hide Checksum, Scale, Wind, Padded, Cut;
    CutZeroes(src, d, w, d, c);
    ScaleExp(c, d - w);
  }

  /** Preparing part by part from block po on. */
  method PrepareInParts(dst: array<Block>, src: seq<Byte>, g: Geometry, s: nat, po: nat, parts: seq<nat>,
                        ghost orig: seq<Block>, ghost x: Block)
    requires Fits(g, dst[..]) && |orig| == dst.Length && Packable(g, s, src) && Covers(|src|, po, parts)
    requires po <= g.d && Upto(g, s, src, po, x, orig, dst[..])
    requires po > 0 ==> x == Checksum(ZeroBlock(), Cut(src, g.d, 0, po))
    modifies dst
    ensures dst[..] == Put(g, orig, s, 0, PartsImage(src, g.d, Extra(|src|, po, parts)))
    decreases |parts|
  {
    hide Checksum, Put, Padded, Cut, Cell, Get, Upto, PartsImage, Times, Quot, Rem, Whole, Tail, Covers, Extra, Completes, PartOf, PartEnd, Wind, Padding, SliceSum;
    ghost var buf := dst[..];
    CoversMeans(|src|, po, parts, src);
    UptoGet(g, s, src, po, x, orig, buf);
    PreparePartialPacksum(dst, src, g, s, po, parts[0]);
    ghost var hi := PartEnd(g, src, po, parts[0]);
    ghost var c := Checksum(if po == 0 then ZeroBlock() else x, Cut(src, g.d, po, hi));
    SumSoFar(src, g.d, po, hi, x, c);
    UptoStep(g, s, src, po, po, hi, x, c, orig, buf, dst[..]);
    CompletesMeans(g, src, po, parts[0]);
    if Times(po, BLOCK_LEN) + parts[0] != |src| {
      PrepareInParts(dst, src, g, s, po + Whole(parts[0]), parts[1..], orig, c);
    } else {
      SumComplete(src, g.d, c);
      if |parts| > 1 {
        PrepareAgain(dst, src, g, s, po + Whole(parts[0]), parts[1..], orig, po, parts);
      } else {
        UptoImage(g, s, src, 0, orig, dst[..]);
      }
    }
  }

  lemma SumSoFar(src: seq<Byte>, d: nat, po: nat, hi: int, x: Block, c: Block)
    requires po <= hi <= d && (po > 0 ==> x == Checksum(ZeroBlock(), Cut(src, d, 0, po)))
    requires c == Checksum(if po == 0 then ZeroBlock() else x, Cut(src, d, po, hi))
    ensures c == Checksum(ZeroBlock(), Cut(src, d, 0, hi))
  {
    hide Checksum, Padded, Cut;
    CutJoin(src, d, 0, po, hi);
    CutSizes(src, d, 0, po, hi);
    ChecksumAppend(ZeroBlock(), Cut(src, d, 0, po), Cut(src, d, po, hi));
    if po == 0 { ChecksumNone(ZeroBlock(), Cut(src, d, 0, po)); }
  }

  lemma SumComplete(src: seq<Byte>, d: nat, c: Block)
    ensures c == Checksum(ZeroBlock(), Cut(src, d, 0, d)) ==> c == PartsSum(src, d, 0)
  {
    hide Checksum, Padded, Cut;
    CutAll(src, d);
  }

  /** Calls after the one that completed the source. */
  method PrepareAgain(dst: array<Block>, src: seq<Byte>, g: Geometry, s: nat, po: nat, parts: seq<nat>,
                      ghost orig: seq<Block>, ghost po0: nat, ghost parts0: seq<nat>)
    requires Fits(g, dst[..]) && |orig| == dst.Length && Packable(g, s, src)
    requires |parts0| > 1 && Covers(|src|, po0, parts0) && Times(po0, BLOCK_LEN) + parts0[0] == |src|
    requires po == po0 + Whole(parts0[0]) && parts == parts0[1..]
    requires Upto(g, s, src, g.d, PartsSum(src, g.d, 0), orig, dst[..])
    modifies dst
    ensures dst[..] == Put(g, orig, s, 0, PartsImage(src, g.d, |parts|))
  {
    hide Checksum, Put, Padded, Cut, Cell, Get, Upto, PartsImage, Times, Quot, Rem, Whole, Tail, Covers, Extra, Completes, PartOf, PartEnd, Wind, Padding, SliceSum;
    CompletedRest(|src|, po0, parts0);
    CoversMeans(|src|, po0, parts0, src);
    BlocksInMeans(|src|);
    BlocksInBound(|src|, g.d);
    var i: int := 0;
    while i < |parts|
      invariant 0 <= i <= |parts| && dst.Length == |orig|
      invariant i < |parts| ==> Covers(|src|, po, parts[i..]) && parts[i] == 0
      invariant Upto(g, s, src, g.d, PartsSum(src, g.d, i), orig, dst[..])
    {
      ghost var buf, x := dst[..], PartsSum(src, g.d, i);
      CoversMeans(|src|, po, parts[i..], src);
      UptoGet(g, s, src, g.d, x, orig, buf);
      PreparePartialPacksum(dst, src, g, s, po, parts[i]);
      CompletesMeans(g, src, po, 0);
      AgainSum(src, g.d, i);
      UptoStep(g, s, src, po, g.d, g.d, x, PartsSum(src, g.d, i + 1), orig, buf, dst[..]);
      if i + 1 < |parts| {
        NothingWhole(po);
        CompletedRest(|src|, po, parts[i..]);
        assert parts[i..][1..] == parts[i + 1..];
      }
      i := i + 1;
    }
    UptoImage(g, s, src, |parts|, orig, dst[..]);
  }

  lemma NothingWhole(po: nat)
    ensures Whole(0) == 0 && po + Whole(0) == po && Times(po, BLOCK_LEN) + 0 == Times(po, BLOCK_LEN)
  {
  }

  /** A slice prepared part by part, whatever the buffer held before. */
  method PrepareSlice(dst: array<Block>, src: seq<Byte>, g: Geometry, s: nat, parts: seq<nat>)
    requires Fits(g, dst[..]) && Packable(g, s, src) && Covers(|src|, 0, parts)
    modifies dst
    ensures dst[..] == Put(g, old(dst[..]), s, 0, PartsImage(src, g.d, Extra(|src|, 0, parts)))
  {
    hide Upto, PartsImage, Put, Get, Covers;
    UptoStart(g, s, src, dst[..]);
    PrepareInParts(dst, src, g, s, 0, parts, dst[..], Get(g, dst[..], s, g.d));
  }

  // When parts and one call agree.

  /** They leave the same slice exactly when the windings cancel, or the checksum is zero. */
  lemma PartsExact(src: seq<Byte>, d: nat, k: nat)
    ensures PartsImage(src, d, k) == SliceImage(src, d) <==> k * Padding(src, d) % 65535 == 0 || SliceSum(src, d) == ZeroBlock()
  {
    hide Checksum, Padded, Wind, Padding;
    WindFixed(SliceSum(src, d), k * Padding(src, d));
    assert PartsImage(src, d, k)[d] == PartsSum(src, d, k) && SliceImage(src, d)[d] == SliceSum(src, d);
  }

  /** And so do the buffers. */
  lemma PartsBuffer(g: Geometry, s: nat, src: seq<Byte>, k: nat, orig: seq<Block>)
    requires Fits(g, orig) && s < g.n
    ensures Put(g, orig, s, 0, PartsImage(src, g.d, k)) == Put(g, orig, s, 0, SliceImage(src, g.d))
            <==> k * Padding(src, g.d) % 65535 == 0 || SliceSum(src, g.d) == ZeroBlock()
  {
    hide Checksum, Padded, Wind, Padding, Put, Get, SliceSum, PartsImage, SliceImage;
    PartsExact(src, g.d, k);
    var a, b := PartsImage(src, g.d, k), SliceImage(src, g.d);
    if Put(g, orig, s, 0, a) == Put(g, orig, s, 0, b) {
      forall j | 0 <= j < |a| ensures a[j] == b[j] {
        GetPut(g, orig, s, 0, a, s, j);
        GetPut(g, orig, s, 0, b, s, j);
      }
    }
  }

  /** A source whose first word is one and whose other words are zero. */
  function OneThenZeroes(len: nat): (src: seq<Byte>)
    ensures |src| == len
  {
    seq(len, k => if k == 0 then 1 else 0)
  }

  lemma OnesBytes(len: nat, k: nat)
    ensures At(OneThenZeroes(len), k) == if k == 0 && len > 0 then 1 else 0
  {
  }

  lemma LaterZero(len: nat, j: nat)
    requires j >= 1
    ensures Load(Piece(OneThenZeroes(len), j)) == ZeroBlock()
  {
    hide Times, WordOf, At, Piece, OneThenZeroes;
    var src := OneThenZeroes(len);
    TimesOrder(1, j, BLOCK_LEN);
    TimesNext(0, BLOCK_LEN);
    ZeroBytes();
    forall i | 0 <= i < LANES ensures Load(Piece(src, j))[i] == Zero {
      PieceByte(src, j, 2 * i); PieceByte(src, j, 2 * i + 1);
      OnesBytes(len, Times(j, BLOCK_LEN) + 2 * i); OnesBytes(len, Times(j, BLOCK_LEN) + (2 * i + 1));
    }
  }

  lemma FirstOne(len: nat)
    requires len > 0
    ensures Load(Piece(OneThenZeroes(len), 0))[0] == One
  {
    hide Times, At, Piece, OneThenZeroes;
    var src := OneThenZeroes(len);
    TimesNext(0, BLOCK_LEN);
    PieceByte(src, 0, 0); PieceByte(src, 0, 1);
    OnesBytes(len, 0); OnesBytes(len, 1);
    OneBits();
  }

  lemma OneBits() ensures WordOf(1, 0) == One {}

  lemma OneSum(len: nat, d: nat)
    requires len > 0 && 1 <= d
    ensures SliceSum(OneThenZeroes(len), d) != ZeroBlock()
  {
    hide Checksum, Wind, Times, Load, Shift;
    var src := OneThenZeroes(len);
    var bs := Padded(src, d);
    forall j | 1 <= j < d ensures bs[j] == ZeroBlock() { LaterZero(len, j); }
    assert bs == [bs[0]] + bs[1..];
    ChecksumAppend(ZeroBlock(), [bs[0]], bs[1..]);
    ChecksumSnoc(ZeroBlock(), [], bs[0]);
    assert [] + [bs[0]] == [bs[0]];
    ChecksumNone(ZeroBlock(), []);
    TwiceLinear(ZeroBlock(), ZeroBlock());
    AddLaws(Twice(ZeroBlock()), bs[0]);
    ChecksumZeroes(bs[0], bs[1..]);
    FirstOne(len);
    AddLaws(bs[0], ZeroBlock());
    WindLane(bs[0], d - 1, 0);
    ShiftInjective(One, Zero, d - 1);
    ShiftOfZero(d - 1);
  }

  /** For every source of a length: exactly when the windings cancel. */
  lemma PartsExactForAll(len: nat, d: nat, k: nat)
    requires 1 <= d && Whole(len) <= d
    ensures (forall src: seq<Byte> :: |src| == len ==> PartsImage(src, d, k) == SliceImage(src, d))
            <==> len == 0 || k * (d - Whole(len)) % 65535 == 0
  {
    hide PartsImage, SliceImage, SliceSum, Whole;
    forall src: seq<Byte> | |src| == len
      ensures PartsImage(src, d, k) == SliceImage(src, d) <==> k * (d - Whole(len)) % 65535 == 0 || SliceSum(src, d) == ZeroBlock()
      ensures len == 0 ==> SliceSum(src, d) == ZeroBlock()
    {
      PartsExact(src, d, k);
      if len == 0 { EmptySum(src, d); }
    }
    if len > 0 {
      OneSum(len, d);
      var src := OneThenZeroes(len);
      assert PartsImage(src, d, k) == SliceImage(src, d) <==> k * (d - Whole(len)) % 65535 == 0;
    }
  }

  lemma EmptySum(src: seq<Byte>, d: nat)
    requires src == []
    ensures SliceSum(src, d) == ZeroBlock()
  {
    hide Checksum, Wind, Load, Piece;
    var bs := Padded(src, d);
    BlocksInBound(0, 0);
    forall j | 0 <= j < d ensures bs[j] == ZeroBlock() { PieceBeyond(src, j); }
    ChecksumZeroes(ZeroBlock(), bs);
    WindLinear(ZeroBlock(), ZeroBlock(), d);
  }

  /** The shortest case: a source of whole blocks prepared by a completing call and one more. */
  lemma CompletedTwice(len: nat)
    requires Tail(len) == 0
    ensures Covers(len, 0, [len, 0]) && Extra(len, 0, [len, 0]) == 1
  {
    hide Quot, Rem;
    TimesNext(0, BLOCK_LEN);
    WholeSum(0, len);
    assert [len, 0][1..] == [0];
    QuotRem(len, BLOCK_LEN);
    assert Covers(len, Whole(len), [0]);
  }
}
