/**
 The entry points of unpacking: a slice finished in one call, and a slice finished part by part
 with the running checksum kept in the packed buffer's checksum block between the calls.
 */
module FinishParts {
  import opened Arith
  import opened Field
  import opened Blocks
  import opened Bytes
  import opened Layout
  import opened Packed
  import opened Prepare
  import opened FieldOrder
  import opened PrepareParts
  import opened Finish

  /** The checksum that the len bytes of a slice should have. */
  function OutputChecksum(g: Geometry, out: seq<Byte>): Block { Checksum(ZeroBlock(), Padded(out, g.d)) }

  lemma PatchWhole(dst: seq<Byte>, out: seq<Byte>, d: nat)
    requires |out| <= |dst| && BlocksIn(|out|) <= d
    ensures Patch(dst, out, 0, d) == out + dst[|out|..]
  {
    hide Times;
    BlocksInBound(|out|, d);
    TimesNext(0, BLOCK_LEN);
  }

  /** The first part's checksum ends at zero exactly when the stored checksum is that of the output. */
  lemma StartVerdict(g: Geometry, out: seq<Byte>, stored: Block)
    ensures Checksum(StartChecksum(g, 0, stored), Cut(out, g.d, 0, g.d)) == ZeroBlock()
            <==> stored == OutputChecksum(g, out)
  {
    hide Checksum, Scale, Padded, Cut;
    CutAll(out, g.d);
    RewindVerdict(stored, Padded(out, g.d));
  }

  /**
   gf16_*_finish_packed_cksum: the slice's bytes come out, and the verdict is right for every
   number of blocks.
   */
  method FinishPackedCksum(dst: array<Byte>, src: seq<Block>, g: Geometry, s: nat, sliceLen: nat) returns (verdict: bool)
    requires Fits(g, src) && s < g.n && SlicesOf(g, sliceLen) && sliceLen <= dst.Length
    modifies dst
    ensures dst[..] == Output(g, src, s, sliceLen) + old(dst[..])[sliceLen..]
    ensures verdict <==> Get(g, src, s, g.d) == OutputChecksum(g, Output(g, src, s, sliceLen))
  {
    hide Checksum, Patch, Padded, Cut, Cell, Output, StartChecksum, OutputChecksum, Get, PartOf, Completes, PartEnd, SlicesOf, BlocksIn;
    ghost var out := Output(g, src, s, sliceLen);
    SlicesMeans(g, sliceLen);
    WholePart(out);
    CompletesMeans(g, out, 0, sliceLen);
    var checksum := LoadChecksum(src, g, s);
    StartVerdict(g, out, checksum);
    PatchWhole(dst[..], out, g.d);
    var c;
    verdict, c := FinishPacked(dst, src, g, s, sliceLen, 0, sliceLen, checksum, out);
  }

  /** memcpy of the checksum block. */
  method LoadChecksum(src: seq<Block>, g: Geometry, s: nat) returns (c: Block)
    requires Fits(g, src) && s < g.n
    ensures c == Get(g, src, s, g.d)
  {
    hide Offset, ChecksumPtr;
    CellBounds(g, s, g.d);
    ChecksumPtrIsOffset(g.d, g.n, s, g.l, g.i);
    c := src[ChecksumPtr(g.d, g.n, s, g.l, g.i)];
  }

  /** Rewriting the checksum block leaves the slice's bytes alone. */
  lemma OutputIgnoresChecksum(g: Geometry, buf: seq<Block>, s: nat, len: nat, c: Block)
    requires Fits(g, buf) && s < g.n && SlicesOf(g, len)
    ensures Output(g, Put(g, buf, s, g.d, [c]), s, len) == Output(g, buf, s, len)
  {
    hide Put, Get, Cell, Store, Quot, Rem, SlicesOf;
    var buf' := Put(g, buf, s, g.d, [c]);
    forall k | 0 <= k < len ensures Output(g, buf', s, len)[k] == Output(g, buf, s, len)[k] {
      BlockOfByte(g, len, k);
      GetPut(g, buf, s, g.d, [c], s, Quot(k, BLOCK_LEN));
    }
  }

  /** gf16_*_finish_partial_packsum. */
  method FinishPartialPacksum(dst: array<Byte>, src: array<Block>, g: Geometry, s: nat, sliceLen: nat, po: nat,
                              partLen: nat, ghost out: seq<Byte>)
    returns (verdict: bool)
    requires dst as object != src as object
    requires Fits(g, src[..]) && s < g.n && SlicesOf(g, sliceLen) && |out| == sliceLen <= dst.Length
    requires out == Output(g, src[..], s, sliceLen) && PartOf(out, po, partLen)
    modifies dst, src
    ensures var hi := PartEnd(g, out, po, partLen); var stored := old(Get(g, src[..], s, g.d));
            && 0 <= po <= hi <= g.d
            && dst[..] == Patch(old(dst[..]), out, po, hi)
            && var c := Checksum(StartChecksum(g, po, stored), Cut(out, g.d, po, hi));
               (verdict <==> Completes(out, po, partLen) && c == ZeroBlock())
               && src[..] == if partLen == sliceLen then old(src[..]) else Put(g, old(src[..]), s, g.d, [c])
  {
    hide Checksum, Patch, Padded, Cut, Cell, Output, StartChecksum, Get, Put, Completes, PartEnd, PartOf;
    ghost var before := src[..];
    var checksum := ReadChecksum(src, g, s);
    verdict, checksum := FinishPacked(dst, src[..], g, s, sliceLen, po, partLen, checksum, out);
    assert src[..] == before;
    if partLen != sliceLen {
      PutOne(g, src[..], s, g.d, checksum);
      WriteChecksum(src, g, s, checksum);
    }
  }

  // A slice finished part by part.

  /** The checksum after k rewinds for slices of d blocks. */
  function Rewound(d: nat, b: Block, k: nat): Block
    decreases k
  {
    if k == 0 then b else Rewound(d, Scale(Exp(65535 - d % 65535), b), k - 1)
  }

  /** Empty parts before the first one that emits something or completes the slice. */
  function EmptyLead(parts: seq<nat>): nat {
    if |parts| > 1 && Whole(parts[0]) == 0 then 1 + EmptyLead(parts[1..]) else 0
  }

  /** Whether a call that was given the whole slice is followed by another. */
  predicate CallAfterWhole(total: nat, parts: seq<nat>) {
    |parts| > 1 && (parts[0] == total || CallAfterWhole(total, parts[1..]))
  }

  /**
   What the last of the remaining calls will return, given the checksum block as it is now.  The call
   for a whole slice works on a copy, so one after it still finds the stored checksum there.
   */
  ghost predicate Verdict(g: Geometry, out: seq<Byte>, po: nat, lead: nat, after: bool, stored: Block)
    requires po <= g.d
  {
    if po == 0 then Rewound(g.d, stored, lead) == if after then ZeroBlock() else OutputChecksum(g, out)
    else Checksum(stored, Cut(out, g.d, po, g.d)) == ZeroBlock()
  }

  lemma AfterMeans(total: nat, parts: seq<nat>)
    requires |parts| > 1 && parts[0] != total
    ensures CallAfterWhole(total, parts) == CallAfterWhole(total, parts[1..])
  {
  }

  /** One part moves the verdict on to the parts after it. */
  lemma VerdictStep(g: Geometry, out: seq<Byte>, po: nat, hi: nat, parts: seq<nat>, stored: Block, c: Block)
    requires |parts| > 1 && po <= hi == po + Whole(parts[0]) <= g.d && parts[0] < |out|
    requires c == Checksum(StartChecksum(g, po, stored), Cut(out, g.d, po, hi))
    requires hi > 0 ==> !CallAfterWhole(|out|, parts[1..])
    ensures Verdict(g, out, po, EmptyLead(parts), CallAfterWhole(|out|, parts), stored)
            <==> Verdict(g, out, hi, EmptyLead(parts[1..]), CallAfterWhole(|out|, parts[1..]), c)
  {
    hide Checksum, Scale, Padded, Cut, Rewound, OutputChecksum, Whole, CallAfterWhole, EmptyLead;
    AfterMeans(|out|, parts);
    LeadMeans(parts);
    if hi == 0 {
      FirstEmpty(g, out, stored, c);
      RewoundMeans(g.d, stored, EmptyLead(parts));
    } else {
      var start := StartChecksum(g, po, stored);
      CutSizes(out, g.d, po, hi, g.d);
      CutJoin(out, g.d, po, hi, g.d);
      ChecksumAppend(start, Cut(out, g.d, po, hi), Cut(out, g.d, hi, g.d));
      if po == 0 {
        StartVerdict(g, out, stored);
        RewoundMeans(g.d, stored, 0);
      }
    }
  }

  /** An empty first part only rewinds the checksum. */
  lemma FirstEmpty(g: Geometry, out: seq<Byte>, stored: Block, c: Block)
    requires c == Checksum(StartChecksum(g, 0, stored), Cut(out, g.d, 0, 0))
    ensures c == Scale(Exp(65535 - g.d % 65535), stored)
  {
    hide Checksum, Scale, Padded, Cut;
    CutSizes(out, g.d, 0, 0, 0);
    ChecksumNone(StartChecksum(g, 0, stored), Cut(out, g.d, 0, 0));
  }

  lemma LeadMeans(parts: seq<nat>)
    requires |parts| > 1
    ensures EmptyLead(parts) == if Whole(parts[0]) == 0 then 1 + EmptyLead(parts[1..]) else 0
  {
  }

  lemma RewoundMeans(d: nat, b: Block, k: nat)
    ensures Rewound(d, b, k) == if k == 0 then b else Rewound(d, Scale(Exp(65535 - d % 65535), b), k - 1)
  {
  }

  lemma VerdictEnd(g: Geometry, out: seq<Byte>, po: nat, parts: seq<nat>, stored: Block)
    requires |parts| == 1 && po <= g.d
    ensures Verdict(g, out, po, EmptyLead(parts), CallAfterWhole(|out|, parts), stored)
            <==> Checksum(StartChecksum(g, po, stored), Cut(out, g.d, po, g.d)) == ZeroBlock()
  {
    hide Checksum, Scale, Padded, Cut, OutputChecksum;
    if po == 0 { StartVerdict(g, out, stored); }
  }

  /** After the first block no part is as long as the slice. */
  lemma {:induction false} NoneWhole(total: nat, po: nat, parts: seq<nat>)
    requires Covers(total, po, parts) && po > 0
    ensures !CallAfterWhole(total, parts)
    decreases |parts|
  {
    hide Times, Whole, Tail;
    TimesOrder(1, po, BLOCK_LEN);
    TimesNext(0, BLOCK_LEN);
    if |parts| > 1 { NoneWhole(total, po + Whole(parts[0]), parts[1..]); }
  }

  /** A completing call that is not the last one. */
  lemma CompletedVerdict(g: Geometry, out: seq<Byte>, po: nat, parts: seq<nat>, stored: Block, c: Block)
    requires |parts| > 1 && Covers(|out|, po, parts) && Times(po, BLOCK_LEN) + parts[0] == |out| && |out| > 0 && po <= g.d
    requires c == if parts[0] == |out| then stored else Checksum(StartChecksum(g, po, stored), Cut(out, g.d, po, g.d))
    ensures Verdict(g, out, po, EmptyLead(parts), CallAfterWhole(|out|, parts), stored) <==> c == ZeroBlock()
  {
    hide Checksum, Scale, Padded, Cut, OutputChecksum, Quot, Rem, Covers;
    CompletedRest(|out|, po, parts);
    TimesNext(0, BLOCK_LEN);
    TimesOrder(1, po, BLOCK_LEN);
    if po == 0 {
      QuotRem(|out|, BLOCK_LEN);
      LeadMeans(parts);
      RewoundMeans(g.d, stored, 0);
    }
  }

  /**
   Finishing part by part emits the bytes that one call emits.  The last call's verdict is the one
   of a single call on the stored checksum rewound once more for every empty part at the start.
   */
  method FinishInParts(dst: array<Byte>, src: array<Block>, g: Geometry, s: nat, sliceLen: nat, po: nat,
                       parts: seq<nat>, ghost out: seq<Byte>)
    returns (verdict: bool)
    requires dst as object != src as object
    requires Fits(g, src[..]) && s < g.n && SlicesOf(g, sliceLen) && |out| == sliceLen <= dst.Length && po <= g.d
    requires out == Output(g, src[..], s, sliceLen) && Covers(sliceLen, po, parts)
    modifies dst, src
    ensures dst[..] == Patch(old(dst[..]), out, po, g.d)
    ensures verdict <==> Verdict(g, out, po, EmptyLead(parts), CallAfterWhole(sliceLen, parts), old(Get(g, src[..], s, g.d)))
    decreases |parts|
  {
    hide Checksum, Patch, Padded, Cut, Cell, Output, StartChecksum, Get, Put, Verdict, Covers, Completes, PartOf, SlicesOf, EmptyLead, Whole, CallAfterWhole, PartEnd;
    ghost var stored, buf, dst0 := Get(g, src[..], s, g.d), src[..], dst[..];
    CoversMeans(sliceLen, po, parts, out);
    SlicesMeans(g, sliceLen);
    AtTheEnd(g, sliceLen);
    verdict := FinishPartialPacksum(dst, src, g, s, sliceLen, po, parts[0], out);
    ghost var hi := PartEnd(g, out, po, parts[0]);
    CompletesMeans(g, out, po, parts[0]);
    if |parts| > 1 {
      ghost var c := Checksum(StartChecksum(g, po, stored), Cut(out, g.d, po, hi));
      OutputIgnoresChecksum(g, buf, s, sliceLen, c);
      GetPut(g, buf, s, g.d, [c], s, g.d);
      if Times(po, BLOCK_LEN) + parts[0] == sliceLen {
        CompletedVerdict(g, out, po, parts, stored, if parts[0] == sliceLen then stored else c);
        verdict := FinishAgain(dst, src, g, s, sliceLen, po + Whole(parts[0]), parts[1..], out, po, parts);
      } else {
        PartBelow(out, po, parts[0]);
        if hi > 0 { NoneWhole(sliceLen, hi, parts[1..]); }
        VerdictStep(g, out, po, hi, parts, stored, c);
        PatchJoin(dst0, out, po, hi, g.d);
        verdict := FinishInParts(dst, src, g, s, sliceLen, po + Whole(parts[0]), parts[1..], out);
      }
    } else {
      VerdictEnd(g, out, po, parts, stored);
    }
  }

  /** Calls after the one that completed the slice: each returns whether the checksum block is zero now. */
  method FinishAgain(dst: array<Byte>, src: array<Block>, g: Geometry, s: nat, sliceLen: nat, po: nat, parts: seq<nat>,
                     ghost out: seq<Byte>, ghost po0: nat, ghost parts0: seq<nat>)
    returns (verdict: bool)
    requires dst as object != src as object
    requires Fits(g, src[..]) && s < g.n && SlicesOf(g, sliceLen) && |out| == sliceLen <= dst.Length
    requires out == Output(g, src[..], s, sliceLen)
    requires |parts0| > 1 && Covers(sliceLen, po0, parts0) && Times(po0, BLOCK_LEN) + parts0[0] == sliceLen
    requires po == po0 + Whole(parts0[0]) && parts == parts0[1..]
    modifies dst, src
    ensures dst[..] == old(dst[..])
    ensures verdict <==> old(Get(g, src[..], s, g.d)) == ZeroBlock()
  {
    hide Checksum, Patch, Padded, Cut, Cell, Output, StartChecksum, Get, Put, Covers, Completes, PartOf, SlicesOf, Whole, PartEnd;
    ghost var stored, dst0 := Get(g, src[..], s, g.d), dst[..];
    CompletedRest(sliceLen, po0, parts0);
    CoversMeans(sliceLen, po0, parts0, out);
    SlicesMeans(g, sliceLen);
    AtTheEnd(g, sliceLen);
    verdict := false;
    var i: int := 0;
    while i < |parts|
      invariant 0 <= i <= |parts| && Fits(g, src[..])
      invariant i < |parts| ==> Covers(sliceLen, po, parts[i..]) && parts[i] == 0
      invariant out == Output(g, src[..], s, sliceLen) && Get(g, src[..], s, g.d) == stored && dst[..] == dst0
      invariant i > 0 ==> (verdict <==> stored == ZeroBlock())
    {
      ghost var buf := src[..];
      CoversMeans(sliceLen, po, parts[i..], out);
      verdict := FinishPartialPacksum(dst, src, g, s, sliceLen, po, parts[i], out);
      CompletesMeans(g, out, po, 0);
      StartLater(g, po, stored);
      CutSizes(out, g.d, po, po, g.d);
      ChecksumNone(stored, Cut(out, g.d, po, g.d));
      OutputIgnoresChecksum(g, buf, s, sliceLen, stored);
      GetPut(g, buf, s, g.d, [stored], s, g.d);
      PatchNone(dst0, out, po);
      if i + 1 < |parts| {
        NothingWhole(po);
        CompletedRest(sliceLen, po, parts[i..]);
        assert parts[i..][1..] == parts[i + 1..];
      }
      i := i + 1;
    }
  }

  lemma StartLater(g: Geometry, po: nat, stored: Block)
    requires po > 0
    ensures StartChecksum(g, po, stored) == stored
  {
  }

  /** A slice of whole blocks ends where its blocks do. */
  lemma AtTheEnd(g: Geometry, sliceLen: nat)
    requires SlicesOf(g, sliceLen)
    ensures Tail(sliceLen) == 0 ==> Whole(sliceLen) == g.d > 0
    ensures sliceLen > 0
  {
    hide Quot, Rem;
    BlocksInMeans(sliceLen);
    QuotRem(sliceLen, BLOCK_LEN);
    if sliceLen == 0 { QuotUnique(0, BLOCK_LEN, 0, 0); TimesNext(0, BLOCK_LEN); }
  }

  lemma PartBelow(out: seq<Byte>, po: nat, partLen: nat)
    requires PartOf(out, po, partLen) && !Completes(out, po, partLen)
    ensures partLen < |out|
  {
    hide Times;
    TimesOrder(0, po, BLOCK_LEN);
    TimesNext(0, BLOCK_LEN);
  }

  // When parts and one call agree.

  /** Winding forward undoes the rewinds. */
  lemma {:induction false} RewoundIsWind(d: nat, b: Block, k: nat)
    ensures Wind(Rewound(d, b, k), k * d) == b
    decreases k
  {
    hide Wind, Scale;
    if k > 0 {
      var r := Scale(Exp(65535 - d % 65535), b);
      RewoundIsWind(d, r, k - 1);
      WindAdd(Rewound(d, r, k - 1), (k - 1) * d, d);
      assert (k - 1) * d + d == k * d;
      RewindThenWind(b, d);
    } else {
      WindNone(b);
    }
  }

  lemma WindNone(b: Block) ensures Wind(b, 0) == b {}

  /** A checksum gives c after k rewinds exactly when it is c wound forward. */
  lemma RewoundTo(d: nat, b: Block, k: nat, c: Block)
    ensures Rewound(d, b, k) == c <==> b == Wind(c, k * d)
  {
    hide Wind, Rewound;
    RewoundIsWind(d, b, k);
    if b == Wind(c, k * d) { WindInjective(Rewound(d, b, k), c, k * d); }
  }

  /** The condition on the calls: a caller knows it before the first one. */
  predicate PartsAgree(g: Geometry, sliceLen: nat, parts: seq<nat>) {
    !CallAfterWhole(sliceLen, parts) && EmptyLead(parts) * g.d % 65535 == 0
  }

  /** The right checksum is accepted exactly when that holds, or the checksum is zero. */
  lemma RightChecksum(g: Geometry, out: seq<Byte>, parts: seq<nat>)
    ensures Verdict(g, out, 0, EmptyLead(parts), CallAfterWhole(|out|, parts), OutputChecksum(g, out))
            <==> PartsAgree(g, |out|, parts) || OutputChecksum(g, out) == ZeroBlock()
  {
    hide Wind, Rewound, OutputChecksum;
    var c, n := OutputChecksum(g, out), EmptyLead(parts) * g.d;
    RewoundTo(g.d, c, EmptyLead(parts), if CallAfterWhole(|out|, parts) then ZeroBlock() else c);
    WindFixed(c, n);
    WindLinear(c, c, n);
  }

  /** For one output: parts and one call agree on every stored checksum. */
  ghost predicate AgreeOn(g: Geometry, out: seq<Byte>, parts: seq<nat>) {
    forall stored: Block ::
      Verdict(g, out, 0, EmptyLead(parts), CallAfterWhole(|out|, parts), stored) <==> stored == OutputChecksum(g, out)
  }

  lemma PartsVerdict(g: Geometry, out: seq<Byte>, parts: seq<nat>)
    ensures AgreeOn(g, out, parts) <==> PartsAgree(g, |out|, parts) || OutputChecksum(g, out) == ZeroBlock()
  {
    hide Wind, Rewound, OutputChecksum;
    RightChecksum(g, out, parts);
    var c, after, n := OutputChecksum(g, out), CallAfterWhole(|out|, parts), EmptyLead(parts) * g.d;
    WindFixed(c, n);
    WindLinear(c, c, n);
    forall stored: Block
      ensures Verdict(g, out, 0, EmptyLead(parts), after, stored) <==> stored == Wind(if after then ZeroBlock() else c, n)
    {
      RewoundTo(g.d, stored, EmptyLead(parts), if after then ZeroBlock() else c);
    }
    if AgreeOn(g, out, parts) {
      assert Verdict(g, out, 0, EmptyLead(parts), after, c) <==> c == c;
    }
  }

  /** For every output of a length. */
  lemma PartsVerdictForAll(g: Geometry, sliceLen: nat, parts: seq<nat>)
    requires SlicesOf(g, sliceLen)
    ensures (forall out: seq<Byte> :: |out| == sliceLen ==> AgreeOn(g, out, parts)) <==> PartsAgree(g, sliceLen, parts)
  {
    hide AgreeOn, PartsAgree, SliceSum;
    forall out: seq<Byte> | |out| == sliceLen
      ensures AgreeOn(g, out, parts) <==> PartsAgree(g, sliceLen, parts) || SliceSum(out, g.d) == ZeroBlock()
    {
      PartsVerdict(g, out, parts);
      SumIsOutput(g, out);
    }
    AtTheEnd(g, sliceLen);
    OneSum(sliceLen, g.d);
    var out := OneThenZeroes(sliceLen);
    assert AgreeOn(g, out, parts) <==> PartsAgree(g, sliceLen, parts);
  }

  lemma SumIsOutput(g: Geometry, out: seq<Byte>)
    ensures OutputChecksum(g, out) == SliceSum(out, g.d)
  {
  }

  /** The shortest cases: an empty part before the whole slice, and one after it. */
  lemma EmptyBeforeAndAfter(sliceLen: nat)
    requires sliceLen > 0
    ensures Covers(sliceLen, 0, [0, sliceLen]) && EmptyLead([0, sliceLen]) == 1 && !CallAfterWhole(sliceLen, [0, sliceLen])
    ensures Tail(sliceLen) == 0 ==> Covers(sliceLen, 0, [sliceLen, 0]) && CallAfterWhole(sliceLen, [sliceLen, 0])
  {
    hide Quot, Rem, Covers;
    TimesNext(0, BLOCK_LEN);
    QuotUnique(0, BLOCK_LEN, 0, 0);
    assert [0, sliceLen][1..] == [sliceLen];
    EmptyFirst(sliceLen);
    if Tail(sliceLen) == 0 { CompletedTwice(sliceLen); }
  }

  lemma EmptyFirst(sliceLen: nat)
    requires Whole(0) == 0 && Tail(0) == 0 && Times(0, BLOCK_LEN) == 0
    ensures Covers(sliceLen, 0, [0, sliceLen])
  {
    hide Quot, Rem, Times;
    assert [0, sliceLen][1..] == [sliceLen];
    assert Covers(sliceLen, 0, [sliceLen]);
  }
}
