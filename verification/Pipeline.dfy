/**
 The scheduler and the data together: slices are added in any number of batches, the last of which
 may be short; workers go through the packed staging areas request by request; once the backend is
 empty, finish reads the linear combination of all slices from the memory they wrote to.
 */
module Pipeline {
  import opened Arith
  import opened Field
  import opened Blocks
  import opened Bytes
  import opened Layout
  import opened Packed
  import opened PrepareParts
  import opened Finish
  import opened FinishParts
  import opened EndToEnd
  import opened WorkSplit
  import opened PackedRuns
  import S = Scheduler
  import R = SchedulerRuns

  // The drained memory.

  /** Every round of every request has left its blocks where the request says. */
  ghost predicate Stored(cfg: Config, memory: seq<Block>, mems: seq<map<S.Cell, Block>>) {
    forall k: nat, round: nat, out: nat, p: nat ::
      k < ProcRefs(cfg) && round < Nth(cfg, k).chunks && out < Nth(cfg, k).outs && p < ProcSize(cfg, Nth(cfg, k), round) ==>
        StoredAt(cfg, memory, mems, k, round, out, p)
  }

  ghost predicate StoredAt(cfg: Config, memory: seq<Block>, mems: seq<map<S.Cell, Block>>, k: nat, round: nat, out: nat, p: nat)
    requires k < ProcRefs(cfg)
  {
    var r := Nth(cfg, k);
    var a := WorkerDst(cfg, r, round, out) + p;
    var cell := (r.chunk + round, r.firstOut + out);
    0 <= a < |memory| && p < |mems| && cell in mems[p] && memory[a] == mems[p][cell]
  }

  /** So block j of output o is what the scheduler has for block position j % l of its chunk. */
  lemma StoredCell(cfg: Config, d: nat, memory: seq<Block>, mems: seq<map<S.Cell, Block>>, o: nat, j: nat)
    requires Covered(cfg) && cfg.e == d + 1 && Fits(Geometry(cfg.outputs, 1, cfg.l, d), memory)
    requires Stored(cfg, memory, mems) && o < cfg.outputs && j <= d
    ensures 0 <= j / cfg.l < cfg.chunks && 0 <= j % cfg.l < |mems| && j == (j / cfg.l) * cfg.l + j % cfg.l
    ensures (j / cfg.l, o) in mems[j % cfg.l]
    ensures Get(Geometry(cfg.outputs, 1, cfg.l, d), memory, o, j) == mems[j % cfg.l][(j / cfg.l, o)]
  {
    hide ProcRefs, Nth, OwnerIndex, InChunk, ChunkBlocks, WorkerDst, ProcSize;
    var g := Geometry(cfg.outputs, 1, cfg.l, d);
    DivMod(j, cfg.l);
    DivBelow(j, cfg.l, cfg.chunks);
    var c: nat, p: nat := j / cfg.l, j % cfg.l;
    OwnerCovers(cfg, c, o);
    var k := OwnerIndex(cfg, c, o);
    var r := Nth(cfg, k);
    WorkerAddresses(cfg, k, c - r.chunk, o - r.firstOut);
    ChunkOfBlock(cfg.l, d + 1, j);
    OutputInChunk(cfg.outputs, ChunkBlocks(cfg.l, d + 1, c), o, 0);
    OutputInChunk(cfg.outputs, ChunkBlocks(cfg.l, d + 1, c), o, p);
    assert StoredAt(cfg, memory, mems, k, c - r.chunk, o - r.firstOut, p);
  }

  // All slices in one buffer that never exists.

  ghost function PackAll(g: Geometry, srcs: seq<seq<Byte>>, n: nat): (buf: seq<Block>)
    requires n <= |srcs| == g.n
    ensures Fits(g, buf)
    decreases n
  {
    SizeBound(g.n, g.d);
    if n == 0 then seq(g.n * (g.d + 1), _ => ZeroBlock())
    else Put(g, PackAll(g, srcs, n - 1), n - 1, 0, SliceImage(srcs[n - 1], g.d))
  }

  lemma {:induction false} PackedAll(g: Geometry, srcs: seq<seq<Byte>>, n: nat, s: nat)
    requires s < n <= |srcs| == g.n
    ensures SlicePacked(g, PackAll(g, srcs, n), s, srcs[s])
    decreases n
  {
    hide SlicePacked, Put, SliceImage;
    if s < n - 1 { PackedAll(g, srcs, n - 1, s); }
    PackedKept(g, PackAll(g, srcs, n - 1), n - 1, srcs[n - 1], s, srcs[s]);
  }

  function BytesOf(sources: seq<Source>): (srcs: seq<seq<Byte>>)
    ensures |srcs| == |sources|
  {
    seq(|sources|, r requires 0 <= r < |sources| => sources[r].bytes)
  }

  function CoeffsOf(sources: seq<Source>, o: nat): (cs: seq<Word>)
    requires forall r :: 0 <= r < |sources| ==> o < |sources[r].coeffs|
    ensures |cs| == |sources|
  {
    seq(|sources|, r requires 0 <= r < |sources| => sources[r].coeffs[o])
  }

  /**
   The steps are a run on buffers of the right sizes, whatever these hold at first, after which the
   backend is empty and nothing waits for a batch to fill.
   */
  ghost predicate Drains(su: S.Setup, g: Geometry, s0: S.State, x0: Buffers, steps: seq<Step>) {
    && R.Init(su, s0) && Laid(su, g) && BuffersFit(su, g, x0) && x0.waiting == [] && Sources(steps) != []
    && R.IsRun(su, Start(su, g, s0, x0, 0), EventsAt(su.cfg, g.d, steps, 0))
    && var s := R.After(su, Start(su, g, s0, x0, 0), EventsAt(su.cfg, g.d, steps, 0)); R.IsEmpty(s) && s.currentInputs == 0
  }

  /** The outputs' memory then. */
  function DrainedMemory(su: S.Setup, g: Geometry, s0: S.State, x0: Buffers, steps: seq<Step>): (memory: seq<Block>)
    requires Drains(su, g, s0, x0, steps)
    ensures Fits(Outputs(g, su.cfg.outputs), memory)
  {
    BuffersAfter(su, g, Start(su, g, s0, x0, 0), x0, steps).memory
  }

  /** The scheduler's cells then, at block position p. */
  function MemAt(su: S.Setup, g: Geometry, s0: S.State, x0: Buffers, steps: seq<Step>, p: nat): map<S.Cell, Block>
    requires Drains(su, g, s0, x0, steps)
  {
    var s, es := Start(su, g, s0, x0, p), EventsAt(su.cfg, g.d, steps, p);
    if R.IsRun(su, s, es) then R.After(su, s, es).mem else map[]
  }

  function Mems(su: S.Setup, g: Geometry, s0: S.State, x0: Buffers, steps: seq<Step>): (mems: seq<map<S.Cell, Block>>)
    requires Drains(su, g, s0, x0, steps)
    ensures |mems| == su.cfg.l
  {
    seq(su.cfg.l, p requires 0 <= p < su.cfg.l => MemAt(su, g, s0, x0, steps, p))
  }

  /** What the scheduler has at one block position, and that it is in the memory. */
  lemma DrainedAt(su: S.Setup, g: Geometry, s0: S.State, x0: Buffers, steps: seq<Step>, c: nat, o: nat, p: nat)
    requires Drains(su, g, s0, x0, steps) && S.InGrid(su.cfg, c, o) && p < su.cfg.l
    ensures R.IsRun(su, Start(su, g, s0, x0, p), EventsAt(su.cfg, g.d, steps, p))
    ensures forall r :: 0 <= r < |Sources(steps)| ==> |Sources(steps)[r].coeffs| == su.cfg.outputs
    ensures var ins, mem := InputsAt(su.cfg, g.d, Sources(steps), p), MemAt(su, g, s0, x0, steps, p);
            && S.Shaped(su.cfg, ins) && (c, o) in mem && mem[(c, o)] == S.Sum(su.cfg, ins, c, o)
    ensures CellsAre(su, g, MemAt(su, g, s0, x0, steps, p), DrainedMemory(su, g, s0, x0, steps), p)
  {
    hide R.Init, R.IsRun, R.After, S.Sum, EventsAt, BlockAt, Start, BuffersFit, S.Inv, AreasAre, CellsAre;
    BuffersShow(su, g, s0, x0, steps, p);
    StartShows(su, g, s0, x0, p);
    AddedAt(su.cfg, g.d, steps, p);
    R.DrainedResult(su, Start(su, g, s0, x0, p), EventsAt(su.cfg, g.d, steps, p), c, o);
    forall r | 0 <= r < |Sources(steps)| ensures |Sources(steps)[r].coeffs| == su.cfg.outputs {
      assert InputsAt(su.cfg, g.d, Sources(steps), p)[r].coeffs == Sources(steps)[r].coeffs;
    }
  }

  /** After every drained run the rounds of all requests have left what the scheduler says, where the requests say. */
  lemma DrainedStored(su: S.Setup, g: Geometry, s0: S.State, x0: Buffers, steps: seq<Step>)
    requires Drains(su, g, s0, x0, steps)
    ensures Stored(su.cfg, DrainedMemory(su, g, s0, x0, steps), Mems(su, g, s0, x0, steps))
  {
    hide Drains, DrainedMemory, Mems, ProcRefs, Nth, ProcSize, StoredAt;
    DrainsMeans(su, g, s0, x0, steps);
    forall k: nat, round: nat, out: nat, p: nat |
      k < ProcRefs(su.cfg) && round < Nth(su.cfg, k).chunks && out < Nth(su.cfg, k).outs && p < ProcSize(su.cfg, Nth(su.cfg, k), round)
      ensures StoredAt(su.cfg, DrainedMemory(su, g, s0, x0, steps), Mems(su, g, s0, x0, steps), k, round, out, p)
    {
      StoredRound(su, g, s0, x0, steps, k, round, out, p);
    }
  }

  lemma StoredRound(su: S.Setup, g: Geometry, s0: S.State, x0: Buffers, steps: seq<Step>, k: nat, round: nat, out: nat, p: nat)
    requires Drains(su, g, s0, x0, steps) && k < ProcRefs(su.cfg) && round < Nth(su.cfg, k).chunks && out < Nth(su.cfg, k).outs
    requires p < ProcSize(su.cfg, Nth(su.cfg, k), round)
    ensures StoredAt(su.cfg, DrainedMemory(su, g, s0, x0, steps), Mems(su, g, s0, x0, steps), k, round, out, p)
  {
    hide Drains, DrainedMemory, MemAt, ProcRefs, Nth, ProcSize, StoredAt, ChunkBlocks, InChunk, WorkerDst, CellsAre, S.Sum;
    DrainsMeans(su, g, s0, x0, steps);
    RoundPlace(su, g, k, round, out, p);
    var memory, mems := DrainedMemory(su, g, s0, x0, steps), Mems(su, g, s0, x0, steps);
    DrainedAt(su, g, s0, x0, steps, Nth(su.cfg, k).chunk + round, Nth(su.cfg, k).firstOut + out, p);
    assert mems[p] == MemAt(su, g, s0, x0, steps, p);
    StoredOne(su, g, memory, mems, k, round, out, p);
  }

  /** Where block p of a round goes. */
  ghost predicate PlaceOf(su: S.Setup, g: Geometry, k: nat, round: nat, out: nat, p: nat)
    requires k < ProcRefs(su.cfg)
  {
    var r := Nth(su.cfg, k);
    var c, o := r.chunk + round, r.firstOut + out;
    && S.InGrid(su.cfg, c, o) && p < ChunkBlocks(g.l, g.d + 1, c) <= g.l && 0 <= c * g.l && c * g.l + p <= g.d
    && WorkerDst(su.cfg, r, round, out) == c * (g.l * su.cfg.outputs) + InChunk(su.cfg.outputs, 1, ChunkBlocks(g.l, g.d + 1, c), o, 0)
  }

  lemma RoundPlace(su: S.Setup, g: Geometry, k: nat, round: nat, out: nat, p: nat)
    requires Laid(su, g) && k < ProcRefs(su.cfg) && round < Nth(su.cfg, k).chunks && out < Nth(su.cfg, k).outs
    requires p < ProcSize(su.cfg, Nth(su.cfg, k), round)
    ensures PlaceOf(su, g, k, round, out, p)
  {
    hide ProcRefs, Nth, ProcSize, ChunkBlocks, InChunk, WorkerDst, WorkerSrc;
    WorkerAddresses(su.cfg, k, round, out);
    var c := Nth(su.cfg, k).chunk + round;
    RoundBounds(su.cfg, g, c, Nth(su.cfg, k).firstOut + out);
    ChunkEnd(g, c, ChunkBlocks(g.l, g.d + 1, c));
  }

  lemma DrainsMeans(su: S.Setup, g: Geometry, s0: S.State, x0: Buffers, steps: seq<Step>)
    requires Drains(su, g, s0, x0, steps)
    ensures Laid(su, g)
  {
  }

  lemma StoredOne(su: S.Setup, g: Geometry, memory: seq<Block>, mems: seq<map<S.Cell, Block>>, k: nat, round: nat, out: nat, p: nat)
    requires Laid(su, g) && k < ProcRefs(su.cfg) && |mems| == g.l && PlaceOf(su, g, k, round, out, p)
    requires Fits(Outputs(g, su.cfg.outputs), memory) && CellsAre(su, g, mems[p], memory, p)
    requires (Nth(su.cfg, k).chunk + round, Nth(su.cfg, k).firstOut + out) in mems[p]
    ensures StoredAt(su.cfg, memory, mems, k, round, out, p)
  {
    hide ProcRefs, Nth, InChunk, ChunkBlocks, WorkerDst;
    var r := Nth(su.cfg, k);
    var c, o := r.chunk + round, r.firstOut + out;
    var go, len := Outputs(g, su.cfg.outputs), ChunkBlocks(g.l, g.d + 1, c);
    ChunkOfInputs(go, c, p, o);
    OutputInChunk(su.cfg.outputs, len, o, 0);
    OutputInChunk(su.cfg.outputs, len, o, p);
    CellBounds(go, o, c * g.l + p);
    assert mems[p][(c, o)] == Get(go, memory, o, c * g.l + p);
  }

  /** Every block of an output is the combination of that block of all slices. */
  lemma DrainedCombined(su: S.Setup, g: Geometry, s0: S.State, x0: Buffers, steps: seq<Step>, o: nat, j: nat)
    requires Drains(su, g, s0, x0, steps) && o < su.cfg.outputs && j <= g.d
    ensures var sources := Sources(steps); var all := Geometry(|sources|, 1, g.l, g.d);
            && (forall r :: 0 <= r < |sources| ==> o < |sources[r].coeffs|)
            && Combined(all, PackAll(all, BytesOf(sources), |sources|), su.cfg.outputs, CoeffsOf(sources, o),
                        DrainedMemory(su, g, s0, x0, steps), o, j)
  {
    hide Drains, DrainedMemory, MemAt, Stored, Get, Combine, PackAll, SliceImage, EventsAt, CellsAre;
    var sources := Sources(steps);
    var all := Geometry(|sources|, 1, g.l, g.d);
    DrainsMeans(su, g, s0, x0, steps);
    DrainedStored(su, g, s0, x0, steps);
    StoredCell(su.cfg, g.d, DrainedMemory(su, g, s0, x0, steps), Mems(su, g, s0, x0, steps), o, j);
    var c, p := j / g.l, j % g.l;
    DrainedAt(su, g, s0, x0, steps, c, o, p);
    var ins, buf := InputsAt(su.cfg, g.d, sources, p), PackAll(all, BytesOf(sources), |sources|);
    forall r | 0 <= r < |sources| ensures S.DataOf(ins, c)[r] == PackedColumn(all, buf, j)[r] {
      PackedAll(all, BytesOf(sources), |sources|, r);
      assert SlicePacked(all, buf, r, sources[r].bytes);
      assert ins[r].data[c] == BlockAt(su.cfg, g.d, sources[r].bytes, c, p);
    }
    assert S.DataOf(ins, c) == PackedColumn(all, buf, j);
    assert S.Coeffs(ins, o) == CoeffsOf(sources, o);
  }

  /**
   getOutput on a backend that has become empty, whatever the batches were, however the threads took
   turns and whatever the buffers held before: the bytes are the linear combination of all slices
   added, and the verdict is that of a combination computed at once.
   */
  method ReadRecovered(ghost su: S.Setup, ghost g: Geometry, ghost s0: S.State, ghost x0: Buffers, ghost steps: seq<Step>,
                       memory: seq<Block>, go: Geometry, o: nat, len: nat)
    returns (bytes: seq<Byte>, valid: bool)
    requires Drains(su, g, s0, x0, steps) && memory == DrainedMemory(su, g, s0, x0, steps) && go == Outputs(g, su.cfg.outputs)
    requires o < go.n && SlicesOf(go, len)
    ensures forall r :: 0 <= r < |Sources(steps)| ==> o < |Sources(steps)[r].coeffs|
    ensures IsCombination(bytes, len, CoeffsOf(Sources(steps), o), BytesOf(Sources(steps)))
    ensures valid <==> NothingLost(CombineSlices(CoeffsOf(Sources(steps), o), PaddedAll(BytesOf(Sources(steps)), go.d), go.d)[go.d - 1], len)
    ensures len % 2 == 0 && (forall r :: 0 <= r < |Sources(steps)| ==> |Sources(steps)[r].bytes| <= len) ==> valid
  {
    hide Drains, DrainedMemory, Get, Combined, SlicePacked, SlicesOf, CombineSlices, PaddedAll, NothingLost, IsCombination, Output,
         OutputChecksum, PackAll, Sources;
    ghost var sources := Sources(steps);
    ghost var all := Geometry(|sources|, 1, g.l, g.d);
    ghost var buf := PackAll(all, BytesOf(sources), |sources|);
    SlicesMeans(go, len);
    SlicesMeans(all, len);
    DrainedCombined(su, g, s0, x0, steps, o, 0);
    forall j: nat | j <= go.d ensures Combined(all, buf, go.n, CoeffsOf(sources, o), memory, o, j) {
      DrainedCombined(su, g, s0, x0, steps, o, j);
    }
    forall s: nat | s < all.n ensures SlicePacked(all, buf, s, BytesOf(sources)[s]) { PackedAll(all, BytesOf(sources), |sources|, s); }
    var dst := new Byte[len](_ => 0);
    ghost var rest := dst[..][len..];
    valid := FinishPackedCksum(dst, memory, go, o, len);
    bytes := dst[..];
    OneOutput(all, buf, BytesOf(sources), go.n, CoeffsOf(sources, o), memory, o, len, bytes, rest);
    if len % 2 == 0 && forall r :: 0 <= r < |sources| ==> |sources[r].bytes| <= len {
      ShortSources(CoeffsOf(sources, o), BytesOf(sources), go.d, len);
    }
  }
}
