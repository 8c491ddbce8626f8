/**
 How run_kernel splits a batch: the grid of chunks and outputs is cut into one request per piece,
 each sent to a fixed thread.  The split depends only on the counts of chunks, threads and
 outputs, so a piece has the same thread in every batch.
 */
module WorkSplit {
  import opened Arith
  import opened Layout

  /** Lengths in blocks: e per slice with its checksum, l per chunk; n inputs to a staging area. */
  datatype Config = Config(threads: Positive, outputs: Positive, chunks: Positive, l: Positive, e: Positive, n: nat)

  /** What calcChunkSize leaves: chunks of l blocks cover the slice, and none is empty. */
  predicate Covered(cfg: Config) { (cfg.chunks - 1) * cfg.l < cfg.e <= cfg.chunks * cfg.l }

  /** One message to a worker: outs outputs of some consecutive chunks. */
  datatype Request = Request(thread: nat, chunk: nat, chunks: Positive, firstOut: nat, outs: Positive,
                             len: int, input: int, output: int)

  predicate Covers(r: Request, c: nat, o: nat) {
    r.chunk <= c < r.chunk + r.chunks && r.firstOut <= o < r.firstOut + r.outs
  }

  // Chunk sizes.

  function CeilDiv(a: nat, b: Positive): (r: nat)
  {
    DivMod(a + b - 1, b);
    (a + b - 1) / b
  }

  function RoundDiv(a: nat, b: Positive): (r: nat)
  {
    DivMod(a + b / 2, b);
    (a + b / 2) / b
  }

  function AlignToStride(a: nat, stride: Positive): (r: nat)
    ensures a <= r < a + stride && r % stride == 0
  {
    DivMod(a + stride - 1, stride);
    DivUnique((a + stride - 1) / stride * stride, stride, (a + stride - 1) / stride, 0);
    (a + stride - 1) / stride * stride
  }

  lemma CeilDivBounds(a: Positive, b: Positive)
    ensures 1 <= CeilDiv(a, b) <= a && (CeilDiv(a, b) - 1) * b < a <= CeilDiv(a, b) * b
  {
    var q := CeilDiv(a, b);
    DivMod(a + b - 1, b);
    Distribute(q, -1, b);
    if q < 1 { MulLe(q, 0, b); }
    if q > a { MulLe(a, q - 1, b); MulLe(1, b, a); }
  }

  /** The backend's chunk length (bytes) and chunk count. */
  class Tiling {
    var chunkLen: Positive
    var numChunks: Positive

    constructor (len: Positive)
      ensures chunkLen == len
    {
      chunkLen := len;
      numChunks := 1;
    }

    /**
     calcChunkSize: chunks are whole strides, cover the slice, none is empty and none is longer than
     the slice.  They are less than half again as long as the target, apart from aligning, and more
     than half as long unless there is only one; and when a thread's share of the slice is more than
     half the target, no longer than that share.
     */
    method CalcChunkSize(alignedCurrentSliceSize: Positive, numThreads: Positive, stride: Positive)
      requires alignedCurrentSliceSize % stride == 0
      modifies this
      ensures chunkLen % stride == 0 && chunkLen <= alignedCurrentSliceSize
      ensures (numChunks - 1) * chunkLen < alignedCurrentSliceSize <= numChunks * chunkLen
      ensures 2 * chunkLen < 3 * old(chunkLen) + 2 * stride
      ensures numChunks == 1 || old(chunkLen) < 2 * chunkLen
      ensures var share := CeilDiv(alignedCurrentSliceSize, numThreads);
              share > old(chunkLen) / 2 ==> chunkLen <= AlignToStride(share, stride)
    {
      hide CeilDiv, RoundDiv, AlignToStride;
      var size := alignedCurrentSliceSize;
      var targetThreadChunk := CeilDiv(size, numThreads);
      var n: nat;
      if targetThreadChunk <= chunkLen / 2 {
        n := RoundDiv(size, chunkLen);
        if n < 1 { n := 1; }
        WholeSplit(size, chunkLen, n);
      } else {
        n := RoundDiv(targetThreadChunk, chunkLen);
        if n < 1 { n := 1; }
        MulLe(1, n, numThreads);
        ThreadSplit(size, numThreads, chunkLen, n);
        n := n * numThreads;
      }
      CeilDivBounds(size, n);
      var len := AlignToStride(CeilDiv(size, n), stride);
      AlignedBelow(size, len, stride);
      CeilDivBounds(size, len);
      OneChunk(size, n, len);
      AlignMonotone(CeilDiv(size, n), targetThreadChunk, stride);
      chunkLen, numChunks := len, CeilDiv(size, len);
    }
  }

  /** The rounded quotient is the nearest, upwards from the middle. */
  lemma RoundDivBounds(a: nat, b: Positive)
    ensures RoundDiv(a, b) * b <= a + b / 2 < RoundDiv(a, b) * b + b
  {
    DivMod(a + b / 2, b);
  }

  /** Pieces of a, k of them, the rounded quotient of a by target t or 1: how long they are. */
  lemma PieceBounds(a: Positive, t: Positive, k: Positive, piece: Positive)
    requires k == if RoundDiv(a, t) < 1 then 1 else RoundDiv(a, t)
    requires (piece - 1) * k < a <= piece * k
    ensures 2 * (piece - 1) < 3 * t
    ensures k == 1 || t < 2 * piece
  {
    hide RoundDiv;
    RoundDivBounds(a, t);
    if RoundDiv(a, t) < 1 { MulLe(RoundDiv(a, t), 0, t); }
    MulLe(1, k, t);
    if 2 * (piece - 1) >= 3 * t {
      MulLe(3 * t, 2 * (piece - 1), k);
      Assoc3(3, t, k);
      Assoc3(2, piece - 1, k);
    }
    if k > 1 && 2 * piece <= t {
      MulLe(2 * piece, t, k);
      Assoc3(2, piece, k);
      MulLe(2, k, t);
    }
  }

  lemma WholeSplit(size: Positive, t: Positive, n: Positive)
    requires n == if RoundDiv(size, t) < 1 then 1 else RoundDiv(size, t)
    ensures 2 * (CeilDiv(size, n) - 1) < 3 * t
    ensures n == 1 || t < 2 * CeilDiv(size, n)
  {
    hide CeilDiv, RoundDiv;
    CeilDivBounds(size, n);
    PieceBounds(size, t, n, CeilDiv(size, n));
  }

  lemma ThreadSplit(size: Positive, threads: Positive, t: Positive, k: Positive)
    requires CeilDiv(size, threads) > t / 2 && k * threads > 0
    requires k == if RoundDiv(CeilDiv(size, threads), t) < 1 then 1 else RoundDiv(CeilDiv(size, threads), t)
    ensures 2 * (CeilDiv(size, k * threads) - 1) < 3 * t && t < 2 * CeilDiv(size, k * threads)
    ensures CeilDiv(size, k * threads) <= CeilDiv(size, threads)
  {
    hide CeilDiv, RoundDiv;
    var share, piece := CeilDiv(size, threads), CeilDiv(size, k * threads);
    CeilDivBounds(size, threads);
    CeilDivBounds(size, k * threads);
    Assoc3(piece - 1, k, threads);
    Assoc3(piece, k, threads);
    if (piece - 1) * k >= share { MulLe(share, (piece - 1) * k, threads); }
    if piece * k < share { MulLe(piece * k, share - 1, threads); }
    PieceBounds(share, t, k, piece);
    if piece > share { MulLe(share, piece - 1, k); MulLe(1, k, share); }
  }

  lemma OneChunk(size: Positive, n: Positive, len: Positive)
    requires CeilDiv(size, n) <= len <= size
    ensures n == 1 ==> CeilDiv(size, len) == 1
  {
    if n == 1 {
      DivUnique(size + 1 - 1, 1, size, 0);
      DivUnique(size + size - 1, size, 1, size - 1);
    }
  }

  lemma AlignMonotone(a: nat, b: nat, stride: Positive)
    ensures a <= b ==> AlignToStride(a, stride) <= AlignToStride(b, stride)
  {
    var i, j := (a + stride - 1) / stride, (b + stride - 1) / stride;
    DivMod(a + stride - 1, stride);
    DivMod(b + stride - 1, stride);
    if a <= b {
      if j < i { MulLess(j, i, stride); }
      MulLe(i, j, stride);
    }
  }

  lemma AlignedBelow(size: Positive, len: nat, stride: Positive)
    requires size % stride == 0 && len % stride == 0 && len < size + stride
    ensures len <= size
  {
    DivMod(size, stride);
    DivMod(len, stride);
    if len / stride > size / stride { MulLess(size / stride, len / stride, stride); }
  }

  // The split of a leftover chunk among threads.

  /** Where thread tc's outputs begin, when k threads share m outputs: tc * m / k, rounded half up. */
  function Bound(m: nat, k: Positive, tc: nat): (b: int)
  {
    (2 * (m * tc) + k) / (2 * k)
  }

  lemma BoundEnds(m: nat, k: Positive)
    ensures Bound(m, k, 0) == 0 && Bound(m, k, k) == m
  {
    DivUnique(k, 2 * k, 0, k);
    MulLe(0, m, k);
    Assoc3(2, m, k);
    Assoc3(m, 2, k);
    DivUnique(2 * (m * k) + k, 2 * k, m, k);
  }

  /** It is the nearest to an even share. */
  lemma BoundBalanced(m: nat, k: Positive, tc: nat)
    ensures 0 < 2 * (k * Bound(m, k, tc) - m * tc) + k <= 2 * k
  {
    MulLe(0, m, tc);
    DivMod(2 * (m * tc) + k, 2 * k);
    Assoc3(2, k, Bound(m, k, tc));
    Assoc3(Bound(m, k, tc), 2, k);
  }

  /** Every thread gets at least one output when there are at least as many outputs as threads. */
  lemma BoundStep(m: nat, k: Positive, tc: nat)
    requires k <= m
    ensures 0 <= Bound(m, k, tc) && Bound(m, k, tc) + 1 <= Bound(m, k, tc + 1)
  {
    var d: Positive := 2 * k;
    MulLe(0, m, tc);
    var a := 2 * (m * tc) + k;
    Distribute(tc, 1, m);
    DivMod(a, d);
    DivMod(a + 2 * m, d);
    Distribute(a / d, 1, d);
    if (a + 2 * m) / d < a / d + 1 { MulLess((a + 2 * m) / d, a / d + 1, d); }
  }

  lemma {:induction false} BoundMonotone(m: nat, k: Positive, a: nat, b: nat)
    requires k <= m && a <= b
    ensures 0 <= Bound(m, k, a) && Bound(m, k, a) + (b - a) <= Bound(m, k, b)
    decreases b - a
  {
    hide Bound;
    BoundStep(m, k, a);
    if a < b { BoundMonotone(m, k, a + 1, b); }
  }

  /** The thread slot whose outputs include o. */
  function Slot(m: nat, k: Positive, o: nat, tc: nat): (r: nat)
    requires k <= m && tc < k && Bound(m, k, tc) <= o < m
    ensures r < k && Bound(m, k, r) <= o < Bound(m, k, r + 1)
    decreases k - tc
  {
    BoundEnds(m, k);
    if o < Bound(m, k, tc + 1) then tc else Slot(m, k, o, tc + 1)
  }

  lemma SlotUnique(m: nat, k: Positive, o: nat, a: nat, b: nat)
    requires k <= m && Bound(m, k, a) <= o < Bound(m, k, a + 1) && Bound(m, k, b) <= o < Bound(m, k, b + 1)
    ensures a == b
  {
    hide Bound;
    if a < b { BoundMonotone(m, k, a + 1, b); }
    if b < a { BoundMonotone(m, k, b + 1, a); }
  }

  // The requests.

  function FullChunksPerThread(cfg: Config): (f: nat)
  {
    DivMod(cfg.chunks, cfg.threads);
    cfg.chunks / cfg.threads
  }

  function LeftoverChunks(cfg: Config): (r: nat)
    ensures r < cfg.threads
  {
    DivMod(cfg.chunks, cfg.threads);
    cfg.chunks % cfg.threads
  }

  function ThreadsPerChunk(cfg: Config): (k: Positive)
    requires LeftoverChunks(cfg) > 0
    ensures k <= cfg.outputs
  {
    var left: Positive := LeftoverChunks(cfg);
    DivBelow(cfg.threads, left, 1);
    var per := cfg.threads / left;
    if per <= cfg.outputs then per else cfg.outputs
  }

  /**
   All chunks are accounted for, fewer than one a thread being left over; and those go to as many
   threads each as there are: with one thread more a chunk, threads or outputs would run out.
   */
  lemma MostThreads(cfg: Config)
    ensures FullChunksPerThread(cfg) * cfg.threads + LeftoverChunks(cfg) == cfg.chunks && LeftoverChunks(cfg) < cfg.threads
    ensures LeftoverChunks(cfg) > 0 ==>
              var k := ThreadsPerChunk(cfg);
              && k * LeftoverChunks(cfg) <= cfg.threads && k <= cfg.outputs
              && (k == cfg.outputs || (k + 1) * LeftoverChunks(cfg) > cfg.threads)
  {
    DivMod(cfg.chunks, cfg.threads);
    if LeftoverChunks(cfg) > 0 {
      var left: Positive := LeftoverChunks(cfg);
      DivMod(cfg.threads, left);
      var per := cfg.threads / left;
      Distribute(per, 1, left);
      MulLe(ThreadsPerChunk(cfg), per, left);
    }
  }

  /** Requests for leftover chunks. */
  function UsedThreads(cfg: Config): (u: nat)
  {
    if LeftoverChunks(cfg) == 0 then 0
    else
      MulLe(0, ThreadsPerChunk(cfg), LeftoverChunks(cfg));
      ThreadsPerChunk(cfg) * LeftoverChunks(cfg)
  }

  /** procRefs as run_kernel stores it. */
  function ProcRefs(cfg: Config): (p: nat) {
    if LeftoverChunks(cfg) > 0 then (if FullChunksPerThread(cfg) > 0 then cfg.threads else 0) + UsedThreads(cfg)
    else cfg.threads
  }

  /** The request for slot tc of leftover chunk c. */
  function LeftoverRequest(cfg: Config, c: nat, tc: nat): (r: Request)
    requires 0 < LeftoverChunks(cfg) && tc < ThreadsPerChunk(cfg)
  {
    var k := ThreadsPerChunk(cfg);
    BoundStep(cfg.outputs, k, tc);
    MulLe(0, c, k);
    var first := Bound(cfg.outputs, k, tc);
    var len := Min(cfg.e - c * cfg.l, cfg.l);
    Request(c * k + tc, c, 1, first, Bound(cfg.outputs, k, tc + 1) - first,
            len, c * cfg.l * cfg.n, c * cfg.l * cfg.outputs + first * len)
  }

  /** The request for thread t's run of full chunks. */
  function FullRequest(cfg: Config, t: nat): (r: Request)
    requires FullChunksPerThread(cfg) > 0
  {
    var f := FullChunksPerThread(cfg);
    MulLe(0, t, f);
    var c := LeftoverChunks(cfg) + t * f;
    Request(t, c, f, 0, cfg.outputs,
            Min(cfg.e - c * cfg.l, cfg.l * f), c * cfg.l * cfg.n, c * cfg.l * cfg.outputs)
  }

  /** Request number k of the batch, in the order sent. */
  function Nth(cfg: Config, k: nat): (r: Request)
    requires k < ProcRefs(cfg)
  {
    if k < UsedThreads(cfg) then
      var per := ThreadsPerChunk(cfg);
      DivMod(k, per);
      LeftoverRequest(cfg, k / per, k % per)
    else
      FullOrLeftover(cfg);
      FullRequest(cfg, k - UsedThreads(cfg))
  }

  lemma FullOrLeftover(cfg: Config)
    ensures FullChunksPerThread(cfg) > 0 || LeftoverChunks(cfg) > 0
    ensures LeftoverChunks(cfg) + cfg.threads * FullChunksPerThread(cfg) == cfg.chunks
  {
    DivMod(cfg.chunks, cfg.threads);
  }

  /** No thread gets two requests for leftover chunks, or two for full ones. */
  lemma DistinctThreads(cfg: Config, k: nat, k': nat)
    requires k < k' < ProcRefs(cfg) && (k' < UsedThreads(cfg) || k >= UsedThreads(cfg))
    ensures Nth(cfg, k).thread != Nth(cfg, k').thread
  {
    if k' < UsedThreads(cfg) {
      var per := ThreadsPerChunk(cfg);
      DivMod(k, per);
      DivMod(k', per);
    }
  }

  /** Every request the batch sends. */
  function Requests(cfg: Config): (rs: seq<Request>)
    ensures |rs| == ProcRefs(cfg)
  {
    seq(ProcRefs(cfg), k requires 0 <= k < ProcRefs(cfg) => Nth(cfg, k))
  }

  // The requests tile the grid.

  lemma UsedBound(cfg: Config)
    ensures UsedThreads(cfg) <= cfg.threads
    ensures LeftoverChunks(cfg) > 0 ==> ThreadsPerChunk(cfg) * LeftoverChunks(cfg) == UsedThreads(cfg)
  {
    if LeftoverChunks(cfg) > 0 {
      var left: Positive := LeftoverChunks(cfg);
      DivMod(cfg.threads, left);
      MulLe(ThreadsPerChunk(cfg), cfg.threads / left, left);
    }
  }

  /** Which request handles output o of chunk c: it depends on the counts alone. */
  function OwnerIndex(cfg: Config, c: nat, o: nat): (k: nat)
    requires c < cfg.chunks && o < cfg.outputs
  {
    if c < LeftoverChunks(cfg) then
      var per := ThreadsPerChunk(cfg);
      BoundEnds(cfg.outputs, per);
      MulLe(0, c, per);
      c * per + Slot(cfg.outputs, per, o, 0)
    else
      FullOrLeftover(cfg);
      OwnerFull(cfg, c);
      DivMod(c - LeftoverChunks(cfg), FullChunksPerThread(cfg));
      UsedThreads(cfg) + (c - LeftoverChunks(cfg)) / FullChunksPerThread(cfg)
  }

  lemma ZeroProduct(a: int, b: int)
    ensures b == 0 ==> a * b == 0
  {
  }

  lemma OwnerFull(cfg: Config, c: nat)
    requires LeftoverChunks(cfg) <= c < cfg.chunks
    ensures FullChunksPerThread(cfg) > 0
    ensures (c - LeftoverChunks(cfg)) / FullChunksPerThread(cfg) < cfg.threads
  {
    FullOrLeftover(cfg);
    ZeroProduct(cfg.threads, FullChunksPerThread(cfg));
    DivBelow(c - LeftoverChunks(cfg), FullChunksPerThread(cfg), cfg.threads);
  }

  /** Request k of the leftover part, by its chunk and slot. */
  lemma NthLeftover(cfg: Config, c: nat, tc: nat)
    requires 0 < LeftoverChunks(cfg) && c < LeftoverChunks(cfg) && tc < ThreadsPerChunk(cfg)
    ensures var k := c * ThreadsPerChunk(cfg) + tc;
            0 <= k < UsedThreads(cfg) <= ProcRefs(cfg) && Nth(cfg, k) == LeftoverRequest(cfg, c, tc)
  {
    hide LeftoverRequest;
    var per := ThreadsPerChunk(cfg);
    UsedBound(cfg);
    MulLe(0, c, per);
    MulLess(c, LeftoverChunks(cfg), per);
    DivUnique(c * per + tc, per, c, tc);
  }

  lemma OwnerCovers(cfg: Config, c: nat, o: nat)
    requires c < cfg.chunks && o < cfg.outputs
    ensures OwnerIndex(cfg, c, o) < ProcRefs(cfg) && Covers(Nth(cfg, OwnerIndex(cfg, c, o)), c, o)
  {
    hide Bound, Slot;
    if c < LeftoverChunks(cfg) {
      var per := ThreadsPerChunk(cfg);
      BoundEnds(cfg.outputs, per);
      NthLeftover(cfg, c, Slot(cfg.outputs, per, o, 0));
    } else {
      OwnerFull(cfg, c);
      var f := FullChunksPerThread(cfg);
      DivMod(c - LeftoverChunks(cfg), f);
    }
  }

  /** A request stays inside the grid, and its thread exists. */
  lemma RequestInGrid(cfg: Config, k: nat)
    requires k < ProcRefs(cfg)
    ensures var r := Nth(cfg, k);
            r.thread < cfg.threads && r.chunk + r.chunks <= cfg.chunks && r.firstOut + r.outs <= cfg.outputs
  {
    hide Bound;
    UsedBound(cfg);
    FullOrLeftover(cfg);
    if k < UsedThreads(cfg) {
      var per := ThreadsPerChunk(cfg);
      DivMod(k, per);
      DivBelow(k, per, LeftoverChunks(cfg));
      BoundStep(cfg.outputs, per, k % per);
      BoundMonotone(cfg.outputs, per, k % per + 1, per);
      BoundEnds(cfg.outputs, per);
    } else {
      var t, f := k - UsedThreads(cfg), FullChunksPerThread(cfg);
      FullCount(cfg, k);
      MulLess(t, cfg.threads, f);
    }
  }

  lemma FullCount(cfg: Config, k: nat)
    requires UsedThreads(cfg) <= k < ProcRefs(cfg)
    ensures FullChunksPerThread(cfg) > 0 && k - UsedThreads(cfg) < cfg.threads
  {
    FullOrLeftover(cfg);
  }

  /** No two requests share a cell. */
  lemma CoverUnique(cfg: Config, k: nat, c: nat, o: nat)
    requires k < ProcRefs(cfg) && Covers(Nth(cfg, k), c, o)
    ensures c < cfg.chunks && o < cfg.outputs && k == OwnerIndex(cfg, c, o)
  {
    hide Bound, Slot;
    RequestInGrid(cfg, k);
    OwnerCovers(cfg, c, o);
    if k < UsedThreads(cfg) {
      var per := ThreadsPerChunk(cfg);
      DivMod(k, per);
      DivBelow(k, per, LeftoverChunks(cfg));
      BoundEnds(cfg.outputs, per);
      UsedBound(cfg);
      assert c == k / per;
      SlotUnique(cfg.outputs, per, o, k % per, Slot(cfg.outputs, per, o, 0));
    } else {
      var t, f := k - UsedThreads(cfg), FullChunksPerThread(cfg);
      FullCount(cfg, k);
      MulLe(0, t, f);
      OwnerFull(cfg, c);
      DivUnique(c - LeftoverChunks(cfg), f, t, c - LeftoverChunks(cfg) - t * f);
    }
  }

  // Addresses.

  /** The blocks of one round of a request, as compute_worker computes them. */
  function ProcSize(cfg: Config, r: Request, round: nat): int { Min(r.len - round * cfg.l, cfg.l) }

  function WorkerDst(cfg: Config, r: Request, round: nat, out: nat): int {
    r.output + out * ProcSize(cfg, r, round) + round * r.outs * cfg.l
  }

  function WorkerSrc(cfg: Config, r: Request, round: nat): int { r.input + round * cfg.l * cfg.n }

  lemma ChunkSize(cfg: Config, c: nat)
    requires Covered(cfg) && c < cfg.chunks
    ensures ChunkBlocks(cfg.l, cfg.e, c) == Min(cfg.e - c * cfg.l, cfg.l) > 0
  {
    Distribute(c, 1, cfg.l);
    MulLe(c, cfg.chunks - 1, cfg.l);
  }

  /**
   Wherever a worker finds a cell in its request, it reads the chunk where prepare put it and
   writes where finish reads it: chunk c of output o among all outputs.
   */
  lemma WorkerAddresses(cfg: Config, k: nat, round: nat, out: nat)
    requires Covered(cfg) && k < ProcRefs(cfg) && round < Nth(cfg, k).chunks && out < Nth(cfg, k).outs
    ensures var r := Nth(cfg, k); var c := r.chunk + round; var o := r.firstOut + out;
            && c < cfg.chunks && o < cfg.outputs
            && ProcSize(cfg, r, round) == ChunkBlocks(cfg.l, cfg.e, c) > 0
            && WorkerSrc(cfg, r, round) == c * (cfg.l * cfg.n)
            && WorkerDst(cfg, r, round, out) == c * (cfg.l * cfg.outputs) + InChunk(cfg.outputs, 1, ChunkBlocks(cfg.l, cfg.e, c), o, 0)
  {
    hide Bound, ChunkBlocks;
    RequestInGrid(cfg, k);
    var r := Nth(cfg, k);
    var c, o := r.chunk + round, r.firstOut + out;
    ChunkSize(cfg, c);
    FullLength(cfg, r, round, r.chunk);
    var size := ChunkBlocks(cfg.l, cfg.e, c);
    SingleWidth(cfg.outputs, size, o);
    Distribute(r.chunk, round, cfg.l * cfg.n);
    Assoc3(r.chunk, cfg.l, cfg.n); Assoc3(round, cfg.l, cfg.n);
    Distribute(r.chunk, round, cfg.l * cfg.outputs);
    Assoc3(r.chunk, cfg.l, cfg.outputs); Assoc3(round, cfg.outputs, cfg.l);
    Distribute(r.firstOut, out, size);
  }

  lemma SingleWidth(m: nat, len: int, o: nat)
    ensures o < m ==> InChunk(m, 1, len, o, 0) == o * len
  {
    assert o / 1 == o && o % 1 == 0 && m % 1 == 0;
  }

  lemma FullLength(cfg: Config, r: Request, round: nat, c: nat)
    requires round < r.chunks && 0 <= c * cfg.l
    requires r.len == Min(cfg.e - c * cfg.l, cfg.l * r.chunks)
    ensures ProcSize(cfg, r, round) == Min(cfg.e - (c + round) * cfg.l, cfg.l)
  {
    Distribute(c, round, cfg.l);
    MulLess(round, r.chunks, cfg.l);
  }

  // The loops of run_kernel.

  /** The requests a batch sends, in order, and the countdown stored in its staging area. */
  method SplitBatch(cfg: Config) returns (sent: seq<Request>, procRefs: nat)
    ensures sent == Requests(cfg) && procRefs == |sent|
  {
    hide Bound, Nth, LeftoverRequest, FullRequest, Slot;
    var fullChunksPerThread := FullChunksPerThread(cfg);
    var leftoverChunks := LeftoverChunks(cfg);
    FullOrLeftover(cfg);
    UsedBound(cfg);
    var chunk := 0;
    sent := [];
    if leftoverChunks > 0 {
      procRefs := (if fullChunksPerThread > 0 then cfg.threads else 0) + ThreadsPerChunk(cfg) * leftoverChunks;
      sent := SendLeftover(cfg);
      chunk := leftoverChunks;
    } else {
      procRefs := cfg.threads;
    }
    if fullChunksPerThread > 0 {
      var thread := 0;
      while thread < cfg.threads
        invariant 0 <= thread <= cfg.threads && |sent| == UsedThreads(cfg) + thread
        invariant chunk == leftoverChunks + Times(thread, fullChunksPerThread)
        invariant forall k :: 0 <= k < |sent| ==> sent[k] == Nth(cfg, k)
      {
        NthFull(cfg, thread);
        var len := Min(cfg.e - chunk * cfg.l, cfg.l * fullChunksPerThread);
        sent := sent + [Request(thread, chunk, fullChunksPerThread, 0, cfg.outputs,
                                len, chunk * cfg.l * cfg.n, chunk * cfg.l * cfg.outputs)];
        TimesNext(thread, fullChunksPerThread);
        chunk := chunk + fullChunksPerThread;
        thread := thread + 1;
      }
    }
    ChunksDone(cfg);
    assert chunk == cfg.chunks;
  }

  lemma NthFull(cfg: Config, t: nat)
    requires FullChunksPerThread(cfg) > 0 && t < cfg.threads
    ensures 0 <= Times(t, FullChunksPerThread(cfg))
    ensures var f := FullChunksPerThread(cfg); var c := LeftoverChunks(cfg) + Times(t, f);
            Nth(cfg, UsedThreads(cfg) + t)
            == Request(t, c, f, 0, cfg.outputs, Min(cfg.e - c * cfg.l, cfg.l * f), c * cfg.l * cfg.n, c * cfg.l * cfg.outputs)
  {
    MulLe(0, t, FullChunksPerThread(cfg));
  }

  lemma ChunksDone(cfg: Config)
    ensures LeftoverChunks(cfg) + Times(cfg.threads, FullChunksPerThread(cfg)) == cfg.chunks
    ensures Times(cfg.threads, 0) == 0 == Times(0, FullChunksPerThread(cfg))
  {
    FullOrLeftover(cfg);
  }

  /** The leftover chunks, each split across threads by outputs. */
  method SendLeftover(cfg: Config) returns (sent: seq<Request>)
    requires 0 < LeftoverChunks(cfg)
    ensures |sent| == UsedThreads(cfg) <= ProcRefs(cfg)
    ensures forall k :: 0 <= k < |sent| ==> sent[k] == Nth(cfg, k)
  {
    hide Bound, Nth, LeftoverRequest, FullRequest, Slot, UsedThreads, ProcRefs, Times;
    var threadsPerChunk := ThreadsPerChunk(cfg);
    UsedMeans(cfg);
    var thread, chunk := 0, 0;
    sent := [];
    while chunk < LeftoverChunks(cfg)
      invariant 0 <= chunk <= LeftoverChunks(cfg) && thread == |sent| == Times(chunk, threadsPerChunk)
      invariant |sent| <= UsedThreads(cfg) <= ProcRefs(cfg)
      invariant forall k :: 0 <= k < |sent| ==> sent[k] == Nth(cfg, k)
    {
      var len := Min(cfg.e - chunk * cfg.l, cfg.l);
      TimesNext(chunk, threadsPerChunk);
      TimesOrder(chunk + 1, LeftoverChunks(cfg), threadsPerChunk);
      BoundEnds(cfg.outputs, threadsPerChunk);
      var outputIdx: int, tc: int := 0, 0;
      while tc < threadsPerChunk
        invariant 0 <= tc <= threadsPerChunk && outputIdx == Bound(cfg.outputs, threadsPerChunk, tc)
        invariant thread == |sent| == Times(chunk, threadsPerChunk) + tc
        invariant |sent| <= UsedThreads(cfg) <= ProcRefs(cfg)
        invariant forall k :: 0 <= k < |sent| ==> sent[k] == Nth(cfg, k)
      {
        assert thread < UsedThreads(cfg);
        NthLeftoverMeans(cfg, chunk, tc, thread, len);
        var numOutputs := Bound(cfg.outputs, threadsPerChunk, tc + 1) - outputIdx;
        sent := sent + [Request(thread, chunk, 1, outputIdx, numOutputs, len, chunk * cfg.l * cfg.n,
                                chunk * cfg.l * cfg.outputs + outputIdx * len)];
        outputIdx := outputIdx + numOutputs;
        thread := thread + 1;
        tc := tc + 1;
      }
      assert outputIdx == cfg.outputs;
      chunk := chunk + 1;
    }
  }

  lemma UsedMeans(cfg: Config)
    requires 0 < LeftoverChunks(cfg)
    ensures UsedThreads(cfg) == Times(LeftoverChunks(cfg), ThreadsPerChunk(cfg)) && UsedThreads(cfg) <= ProcRefs(cfg)
    ensures Times(0, ThreadsPerChunk(cfg)) == 0
  {
  }

  lemma NthLeftoverMeans(cfg: Config, c: nat, tc: nat, k: int, len: int)
    requires 0 < LeftoverChunks(cfg) && c < LeftoverChunks(cfg) && tc < ThreadsPerChunk(cfg)
    requires k == Times(c, ThreadsPerChunk(cfg)) + tc && len == Min(cfg.e - c * cfg.l, cfg.l)
    ensures var per := ThreadsPerChunk(cfg); var first := Bound(cfg.outputs, per, tc);
            && 0 <= k < ProcRefs(cfg) && 0 <= first < Bound(cfg.outputs, per, tc + 1)
            && Nth(cfg, k) == Request(k, c, 1, first, Bound(cfg.outputs, per, tc + 1) - first, len,
                                      c * cfg.l * cfg.n, c * cfg.l * cfg.outputs + first * len)
  {
    hide Bound;
    BoundStep(cfg.outputs, ThreadsPerChunk(cfg), tc);
    NthLeftover(cfg, c, tc);
  }
}
