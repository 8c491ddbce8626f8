/**
 Bytes to blocks and back, little endian: the prepareBlock/finishBlock pair of the methods that
 copy blocks unchanged, with the variants for a tail shorter than a block.
 */
module Bytes {
  import opened Field
  import opened Arith
  import opened Blocks

  type Byte = bv8

  function WordOf(lo: Byte, hi: Byte): Word { Word(((hi as bv16) << 8) | (lo as bv16)) }

  function LowByte(w: Word): Byte { (w.bits & 0xFF) as Byte }

  function HighByte(w: Word): Byte { (w.bits >> 8) as Byte }

  lemma LowBits(lo: Byte, hi: Byte)
    ensures LowByte(WordOf(lo, hi)) == lo
  {
  }

  lemma HighBits(lo: Byte, hi: Byte)
    ensures HighByte(WordOf(lo, hi)) == hi
  {
  }

  lemma WordBits(w: Word)
    ensures WordOf(LowByte(w), HighByte(w)) == w
  {
  }

  lemma ZeroBytes()
    ensures WordOf(0, 0) == Zero && LowByte(Zero) == 0 && HighByte(Zero) == 0
  {
  }

  function At(s: seq<Byte>, k: nat): Byte { if k < |s| then s[k] else 0 }

  /** Word w of s, zero past its end. */
  function WordAt(s: seq<Byte>, w: nat): Word { WordOf(At(s, 2 * w), At(s, 2 * w + 1)) }

  // Which number two bytes make.

  lemma WordNumber(w: Word)
    ensures w.bits as int == LowByte(w) as int + 256 * (HighByte(w) as int)
  {
    BitsNumber(w.bits);
  }

  lemma BitsNumber(b: bv16)
    ensures b as int == (b & 0xFF) as bv8 as int + 256 * ((b >> 8) as bv8 as int)
  {
  }

  /** The first byte counts ones, the second two hundred and fifty-sixes. */
  lemma BytesNumber(lo: Byte, hi: Byte)
    ensures WordOf(lo, hi).bits as int == lo as int + 256 * (hi as int)
  {
    hide WordOf, LowByte, HighByte;
    WordNumber(WordOf(lo, hi));
    LowBits(lo, hi);
    HighBits(lo, hi);
  }

  lemma ByteNumbers(w: Word)
    ensures LowByte(w) as int == w.bits as int % 256 && HighByte(w) as int == w.bits as int / 256
  {
    hide LowByte, HighByte;
    WordNumber(w);
    DivUnique(w.bits as int, 256, HighByte(w) as int, LowByte(w) as int);
  }

  /** Word w is the number of the two bytes from 2 * w on, those past the end counting as zero. */
  lemma WordAtNumber(s: seq<Byte>, w: nat)
    ensures WordAt(s, w).bits as int
            == (if 2 * w < |s| then s[2 * w] as int else 0) + 256 * (if 2 * w + 1 < |s| then s[2 * w + 1] as int else 0)
  {
    hide WordOf;
    BytesNumber(At(s, 2 * w), At(s, 2 * w + 1));
  }

  /** prepareBlock, and prepareBlockU when s is shorter than a block: the rest is zeroed. */
  function Load(s: seq<Byte>): Block {
    seq(LANES, i requires 0 <= i < LANES => WordOf(At(s, 2 * i), At(s, 2 * i + 1)))
  }

  /** finishBlock: the bytes of a block. */
  function Store(b: Block): (s: seq<Byte>)
    ensures |s| == BLOCK_LEN
  {
    seq(BLOCK_LEN, k requires 0 <= k < BLOCK_LEN =>
      if k % 2 == 0 then LowByte(b[k / 2]) else HighByte(b[k / 2]))
  }

  lemma LoadStore(b: Block)
    ensures Load(Store(b)) == b
  {
    hide LowByte, HighByte, WordOf;
    forall i | 0 <= i < LANES ensures Load(Store(b))[i] == b[i] {
      WordBits(b[i]);
    }
  }

  lemma StoreLoad(s: seq<Byte>)
    requires |s| <= BLOCK_LEN
    ensures Store(Load(s))[..|s|] == s
    ensures forall k :: |s| <= k < BLOCK_LEN ==> Store(Load(s))[k] == 0
  {
    hide LowByte, HighByte, WordOf;
    forall k | 0 <= k < BLOCK_LEN ensures Store(Load(s))[k] == At(s, k) {
      LowBits(At(s, 2 * (k / 2)), At(s, 2 * (k / 2) + 1));
      HighBits(At(s, 2 * (k / 2)), At(s, 2 * (k / 2) + 1));
    }
  }

  lemma LoadEmpty()
    ensures Load([]) == ZeroBlock()
  {
    hide WordOf;
    ZeroBytes();
  }

  // A source cut into blocks.

  /** The bytes of s that fall into block j. */
  function Piece(s: seq<Byte>, j: nat): (p: seq<Byte>)
    ensures |p| <= BLOCK_LEN
  {
    TimesOrder(0, j, BLOCK_LEN);
    TimesNext(0, BLOCK_LEN);
    TimesNext(j, BLOCK_LEN);
    s[Min(Times(j, BLOCK_LEN), |s|)..Min(Times(j + 1, BLOCK_LEN), |s|)]
  }

  /** The source padded with zeroes to d blocks. */
  function Padded(s: seq<Byte>, d: nat): (bs: seq<Block>)
    ensures |bs| == d && forall j :: 0 <= j < d ==> bs[j] == Load(Piece(s, j))
  {
    seq(d, j requires 0 <= j < d => Load(Piece(s, j)))
  }

  /** Full blocks in a source, and the bytes after them. */
  function Whole(len: nat): nat { Quot(len, BLOCK_LEN) }

  function Tail(len: nat): nat { Rem(len, BLOCK_LEN) }

  /** How many blocks a source reaches into. */
  function BlocksIn(len: nat): nat { Whole(len) + if Tail(len) != 0 then 1 else 0 }

  lemma PieceWhole(s: seq<Byte>, j: nat)
    requires j < Whole(|s|)
    ensures var at := Times(j, BLOCK_LEN);
            0 <= at && at + BLOCK_LEN <= |s| && Piece(s, j) == s[at..at + BLOCK_LEN]
  {
    hide Times, Quot, Rem;
    QuotRem(|s|, BLOCK_LEN);
    TimesOrder(0, j, BLOCK_LEN);
    TimesNext(0, BLOCK_LEN);
    TimesOrder(j, Whole(|s|), BLOCK_LEN);
    TimesNext(j, BLOCK_LEN);
  }

  lemma PieceTail(s: seq<Byte>)
    ensures var at := Times(Whole(|s|), BLOCK_LEN);
            0 <= at <= |s| && |s| - at == Tail(|s|) && Piece(s, Whole(|s|)) == s[at..]
  {
    hide Times, Quot, Rem;
    QuotRem(|s|, BLOCK_LEN);
    TimesOrder(0, Whole(|s|), BLOCK_LEN);
    TimesNext(0, BLOCK_LEN);
    TimesNext(Whole(|s|), BLOCK_LEN);
  }

  lemma PieceBeyond(s: seq<Byte>, j: nat)
    requires BlocksIn(|s|) <= j
    ensures Piece(s, j) == [] && Load(Piece(s, j)) == ZeroBlock()
  {
    hide Times, Quot, Rem, Load;
    QuotRem(|s|, BLOCK_LEN);
    TimesOrder(BlocksIn(|s|), j, BLOCK_LEN);
    TimesNext(Whole(|s|), BLOCK_LEN);
    TimesNext(j, BLOCK_LEN);
    LoadEmpty();
  }

  lemma PieceByte(s: seq<Byte>, j: nat, k: nat)
    requires k < BLOCK_LEN
    ensures 0 <= Times(j, BLOCK_LEN) && At(Piece(s, j), k) == At(s, Times(j, BLOCK_LEN) + k)
  {
    hide Times;
    TimesOrder(0, j, BLOCK_LEN);
    TimesNext(0, BLOCK_LEN);
    TimesNext(j, BLOCK_LEN);
  }

  lemma BlocksInBound(len: nat, d: nat)
    ensures len <= Times(d, BLOCK_LEN) <==> BlocksIn(len) <= d
  {
    hide Times, Quot, Rem;
    QuotRem(len, BLOCK_LEN);
    TimesOrder(Whole(len) + 1, d, BLOCK_LEN);
    TimesOrder(d, Whole(len), BLOCK_LEN);
    TimesOrder(d + 1, Whole(len), BLOCK_LEN);
    TimesNext(Whole(len), BLOCK_LEN);
    TimesNext(d, BLOCK_LEN);
  }
}
