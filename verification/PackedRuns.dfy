/**
 The scheduler on real buffers: moving an input packs its slice into the staging area's slot, and a
 worker's step multiplies and adds a round of its request on the packed memory.  Over every run,
 what the scheduler's invariant says of its abstract cells holds of the buffers, block by block.
 */
module PackedRuns {
  import opened Arith
  import opened Field
  import opened Blocks
  import opened Bytes
  import opened Layout
  import opened Packed
  import opened PrepareParts
  import opened Muladd
  import opened EndToEnd
  import opened WorkSplit
  import S = Scheduler
  import P = SchedulerProof
  import R = SchedulerRuns

  /** A slice to be added, and its coefficient for every output. */
  datatype Source = Source(bytes: seq<Byte>, coeffs: seq<Word>)

  type OtherEvent = e: R.Event | !e.AddEvent? witness R.FlushEvent

  /** A step of the backend, where adding takes a whole slice. */
  datatype Step = AddSlice(source: Source, flush: bool) | Other(event: OtherEvent)

  function Sources(steps: seq<Step>): seq<Source> {
    if steps == [] then [] else (if steps[0].AddSlice? then [steps[0].source] else []) + Sources(steps[1..])
  }

  /** The scheduler's view of a slice: block p of every chunk. */
  function InputAt(cfg: Config, d: nat, source: Source, p: nat): S.Input {
    S.Input(seq(cfg.chunks, c requires 0 <= c < cfg.chunks => BlockAt(cfg, d, source.bytes, c, p)), source.coeffs)
  }

  function BlockAt(cfg: Config, d: nat, bytes: seq<Byte>, c: nat, p: nat): Block {
    var j := c * cfg.l + p;
    if 0 <= j <= d then SliceImage(bytes, d)[j] else ZeroBlock()
  }

  function EventAt(cfg: Config, d: nat, step: Step, p: nat): R.Event {
    if step.AddSlice? then R.AddEvent(InputAt(cfg, d, step.source, p), step.flush) else step.event
  }

  /** The same steps at block position p. */
  function EventsAt(cfg: Config, d: nat, steps: seq<Step>, p: nat): seq<R.Event> {
    if steps == [] then [] else [EventAt(cfg, d, steps[0], p)] + EventsAt(cfg, d, steps[1..], p)
  }

  lemma AtHead(cfg: Config, d: nat, steps: seq<Step>, p: nat)
    requires steps != []
    ensures var es := EventsAt(cfg, d, steps, p); es != [] && es[0] == EventAt(cfg, d, steps[0], p) && es[1..] == EventsAt(cfg, d, steps[1..], p)
  {
  }

  function InputsAt(cfg: Config, d: nat, sources: seq<Source>, p: nat): (ins: seq<S.Input>)
    ensures |ins| == |sources|
  {
    seq(|sources|, r requires 0 <= r < |sources| => InputAt(cfg, d, sources[r], p))
  }

  lemma {:induction false} AddedAt(cfg: Config, d: nat, steps: seq<Step>, p: nat)
    ensures R.Added(EventsAt(cfg, d, steps, p)) == InputsAt(cfg, d, Sources(steps), p)
    decreases |steps|
  {
    hide InputAt;
    if steps != [] {
      AddedAt(cfg, d, steps[1..], p);
      assert EventsAt(cfg, d, steps, p)[1..] == EventsAt(cfg, d, steps[1..], p);
    }
  }

  // One round of a request.

  /**
   What compute_worker does for one output in one round: it works where its request says, on the
   packed area of n slots of which the batch fills the first num, and leaves everything else alone.
   */
  method WorkRegion(cfg: Config, g: Geometry, regionsPerCall: Positive, num: nat, dst: array<Block>, src: array<Block>,
                    k: nat, round: nat, out: nat, add: bool, coeffs: seq<Word>)
    requires Covered(cfg) && cfg.e == g.d + 1 && cfg.l == g.l && cfg.n == g.n && num <= g.n && |coeffs| == num
    requires k < ProcRefs(cfg) && round < Nth(cfg, k).chunks && out < Nth(cfg, k).outs
    requires dst != src && Fits(g, src[..]) && Fits(Outputs(g, cfg.outputs), dst[..]) && regionsPerCall % g.i == 0
    modifies dst
    ensures var r := Nth(cfg, k);
            && (r.chunk + round) * g.l <= g.d && r.firstOut + out < cfg.outputs
            && dst[..] == RoundWritten(g, cfg.outputs, src[..], old(dst[..]), r.chunk + round, r.firstOut + out, add, coeffs)
            && Worked(g, cfg.outputs, src[..], old(dst[..]), dst[..], r.chunk + round, r.firstOut + out, add, coeffs)
  {
    hide Worked, RoundWritten, Beyond, Accumulated, ProcRefs, Nth, WorkerSrc, WorkerDst, ProcSize, ChunkBlocks, InChunk;
    ghost var before := dst[..];
    WorkerAddresses(cfg, k, round, out);
    var r := Nth(cfg, k);
    ghost var q, o := r.chunk + round, r.firstOut + out;
    var s0, d0, len := WorkerSrc(cfg, r, round), WorkerDst(cfg, r, round, out), ProcSize(cfg, r, round);
    RoundBounds(cfg, g, q, o);
    if !add { ZeroRegion(dst, d0, len); }
    ghost var cleared := dst[..];
    MuladdMultiPacked(g.i, regionsPerCall, g.n, num, dst, d0, src, s0, len, coeffs);
    RegionWorked(g, cfg.outputs, src[..], before, cleared, dst[..], q, o, len, s0, d0, add, coeffs);
    RegionFrame(g, src[..], before, cleared, dst[..], d0, s0, len, coeffs, cfg.outputs);
    RoundWorked(g, cfg.outputs, src[..], before, q, o, add, coeffs);
    SameMemory(g, cfg.outputs, src[..], before, dst[..], RoundWritten(g, cfg.outputs, src[..], before, q, o, add, coeffs), q, o, add, coeffs);
  }

  /** Chunk q of output o has the batch's combination added, or is that combination; no other block changes. */
  ghost predicate Worked(g: Geometry, m: nat, src: seq<Block>, before: seq<Block>, after: seq<Block>, q: nat, o: nat,
                         add: bool, coeffs: seq<Word>)
    requires Fits(g, src) && Fits(Outputs(g, m), before) && |coeffs| <= g.n
  {
    && |after| == |before|
    && forall o': nat, j: nat :: o' < m && j <= g.d ==>
         Get(Outputs(g, m), after, o', j) ==
         if o' == o && j / g.l == q then RoundBlock(g, m, src, before, o, add, coeffs, j) else Get(Outputs(g, m), before, o', j)
  }

  /** The memory after a round: the run of blocks of chunk q in output o, one by one. */
  function RoundWritten(g: Geometry, m: nat, src: seq<Block>, memory: seq<Block>, q: nat, o: nat, add: bool, coeffs: seq<Word>): (r: seq<Block>)
    requires Fits(g, src) && Fits(Outputs(g, m), memory) && |coeffs| <= g.n && q * g.l <= g.d && o < m
    ensures |r| == |memory|
  {
    RunBounds(g, q);
    Put(Outputs(g, m), memory, o, q * g.l, RoundBlocks(g, m, src, memory, q * g.l, ChunkBlocks(g.l, g.d + 1, q), o, add, coeffs))
  }

  function RoundBlocks(g: Geometry, m: nat, src: seq<Block>, memory: seq<Block>, lo: nat, len: nat, o: nat, add: bool, coeffs: seq<Word>)
    : (bs: seq<Block>)
    requires Fits(g, src) && Fits(Outputs(g, m), memory) && |coeffs| <= g.n && lo + len <= g.d + 1 && o < m
    ensures |bs| == len && forall p: nat :: p < len ==> bs[p] == RoundBlock(g, m, src, memory, o, add, coeffs, lo + p)
    decreases len
  {
    if len == 0 then []
    else RoundBlocks(g, m, src, memory, lo, len - 1, o, add, coeffs) + [RoundBlock(g, m, src, memory, o, add, coeffs, lo + len - 1)]
  }

  /** Block j of output o with the combination added to it, or that combination. */
  function RoundBlock(g: Geometry, m: nat, src: seq<Block>, memory: seq<Block>, o: nat, add: bool, coeffs: seq<Word>, j: nat): Block
    requires Fits(g, src) && Fits(Outputs(g, m), memory) && |coeffs| <= g.n && j <= g.d && o < m
  {
    Add(if add then Get(Outputs(g, m), memory, o, j) else ZeroBlock(), Combine(coeffs, PackedColumn(g, src, j)[..|coeffs|]))
  }

  lemma RunBounds(g: Geometry, q: nat)
    requires q * g.l <= g.d
    ensures var len := ChunkBlocks(g.l, g.d + 1, q); 0 <= q * g.l && 0 <= len && q * g.l + len <= g.d + 1
  {
    ChunkBounds(g, q, 0);
    MulLe(0, q, g.l);
  }

  lemma RoundWorked(g: Geometry, m: nat, src: seq<Block>, memory: seq<Block>, q: nat, o: nat, add: bool, coeffs: seq<Word>)
    requires Fits(g, src) && Fits(Outputs(g, m), memory) && |coeffs| <= g.n && q * g.l <= g.d && o < m
    ensures var r := RoundWritten(g, m, src, memory, q, o, add, coeffs);
            Worked(g, m, src, memory, r, q, o, add, coeffs) && Beyond(g, m, memory, r)
  {
    hide Put, Get, ChunkBlocks, RoundBlock;
    RunBounds(g, q);
    var go, bs := Outputs(g, m), RoundBlocks(g, m, src, memory, q * g.l, ChunkBlocks(g.l, g.d + 1, q), o, add, coeffs);
    var r := Put(go, memory, o, q * g.l, bs);
    forall o': nat, j: nat | o' < m && j <= g.d
      ensures Get(go, r, o', j) ==
              if o' == o && j / g.l == q then RoundBlock(g, m, src, memory, o, add, coeffs, j) else Get(go, memory, o', j)
    {
      GetPut(go, memory, o, q * g.l, bs, o', j);
      InRun(g, q, j);
    }
    forall a | m * (g.d + 1) <= a < |memory| ensures r[a] == memory[a] { PutBeyond(go, memory, o, q * g.l, bs, a); }
  }

  /** The blocks of chunk q. */
  lemma InRun(g: Geometry, q: nat, j: nat)
    requires q * g.l <= g.d && j <= g.d
    ensures j / g.l == q <==> q * g.l <= j < q * g.l + ChunkBlocks(g.l, g.d + 1, q)
  {
    ChunkOfBlock(g.l, g.d + 1, j);
    RunBounds(g, q);
    ChunkEnd(g, q, ChunkBlocks(g.l, g.d + 1, q));
    if q * g.l <= j < q * g.l + ChunkBlocks(g.l, g.d + 1, q) { DivUnique(j, g.l, q, j - q * g.l); }
  }

  /** Nothing past the outputs changes. */
  ghost predicate Beyond(g: Geometry, m: nat, before: seq<Block>, after: seq<Block>) {
    |after| == |before| && forall a: nat :: m * (g.d + 1) <= a < |before| ==> after[a] == before[a]
  }

  /** That determines the memory. */
  lemma SameMemory(g: Geometry, m: nat, src: seq<Block>, before: seq<Block>, a: seq<Block>, b: seq<Block>, q: nat, o: nat,
                   add: bool, coeffs: seq<Word>)
    requires Fits(g, src) && Fits(Outputs(g, m), before) && |coeffs| <= g.n
    requires Worked(g, m, src, before, a, q, o, add, coeffs) && Beyond(g, m, before, a)
    requires Worked(g, m, src, before, b, q, o, add, coeffs) && Beyond(g, m, before, b)
    ensures a == b
  {
    hide Cell, RoundBlock;
    forall k: nat | k < |before| ensures a[k] == b[k] {
      if k < m * (g.d + 1) {
        var o', j := CellOnto(Outputs(g, m), k);
        assert Get(Outputs(g, m), a, o', j) == Get(Outputs(g, m), b, o', j);
      }
    }
  }

  lemma RegionFrame(g: Geometry, buf: seq<Block>, before: seq<Block>, cleared: seq<Block>, after: seq<Block>, d0: nat, s0: nat,
                    len: nat, coeffs: seq<Word>, m: nat)
    requires |cleared| == |before| && |coeffs| <= g.n && s0 + len * g.n <= |buf| && d0 + len <= |before|
    requires d0 + len <= m * (g.d + 1)
    requires forall a :: 0 <= a < |before| && !(d0 <= a < d0 + len) ==> cleared[a] == before[a]
    requires Accumulated(cleared, after, d0, buf, s0, g.n, g.i, len, coeffs, 0, |coeffs|)
    ensures Beyond(g, m, before, after)
  {
  }

  lemma RoundBounds(cfg: Config, g: Geometry, q: nat, o: nat)
    requires Covered(cfg) && cfg.e == g.d + 1 && cfg.l == g.l && cfg.n == g.n && q < cfg.chunks && o < cfg.outputs
    ensures q * g.l <= g.d
    ensures var len := ChunkBlocks(g.l, g.d + 1, q);
            && 0 <= q * (g.l * g.n) && q * (g.l * g.n) + len * g.n <= g.n * (g.d + 1)
            && InChunk(cfg.outputs, 1, len, o, 0) == o * len
            && 0 <= q * (g.l * cfg.outputs) + o * len && q * (g.l * cfg.outputs) + o * len + len <= cfg.outputs * (g.d + 1)
  {
    hide ChunkBlocks, InChunk;
    MulLe(q, cfg.chunks - 1, g.l);
    ChunkBounds(g, q, g.n);
    RegionBounds(g, q, cfg.outputs, o);
    OutputInChunk(cfg.outputs, ChunkBlocks(g.l, g.d + 1, q), o, 0);
  }

  lemma RegionWorked(g: Geometry, m: nat, buf: seq<Block>, before: seq<Block>, cleared: seq<Block>, after: seq<Block>,
                     q: nat, o: nat, len: nat, s0: nat, d0: nat, add: bool, coeffs: seq<Word>)
    requires Fits(g, buf) && Fits(Outputs(g, m), before) && |cleared| == |before| && |coeffs| <= g.n
    requires q * g.l <= g.d && o < m && len == ChunkBlocks(g.l, g.d + 1, q)
    requires s0 == q * (g.l * g.n) && s0 + len * g.n <= |buf| && d0 == q * (g.l * m) + o * len && d0 + len <= |before|
    requires forall a :: 0 <= a < |before| ==> cleared[a] == if !add && d0 <= a < d0 + len then ZeroBlock() else before[a]
    requires Accumulated(cleared, after, d0, buf, s0, g.n, g.i, len, coeffs, 0, |coeffs|)
    ensures Worked(g, m, buf, before, after, q, o, add, coeffs)
  {
    hide ChunkBlocks, InChunk, Cell, Combine, Add;
    var go := Outputs(g, m);
    forall o': nat, j: nat | o' < m && j <= g.d
      ensures Get(go, after, o', j) ==
              if o' == o && j / g.l == q then RoundBlock(g, m, buf, before, o, add, coeffs, j) else Get(go, before, o', j)
    {
      RegionCell(g, m, q, o, o', j);
      CellBounds(go, o', j);
      if o' == o && j / g.l == q {
        ColumnPrefix(g, buf, q, len, j % g.l, |coeffs|);
        assert coeffs[0..|coeffs|] == coeffs;
      }
    }
  }

  /** The slots that a short batch fills are the first of the column. */
  lemma ColumnPrefix(g: Geometry, buf: seq<Block>, q: nat, len: nat, p: nat, num: nat)
    requires Fits(g, buf) && len == ChunkBlocks(g.l, g.d + 1, q) && p < len && num <= g.n
    requires 0 <= q * (g.l * g.n) && q * (g.l * g.n) + len * g.n <= |buf|
    ensures 0 <= q * g.l + p <= g.d
    ensures Cells(buf, q * (g.l * g.n), g.n, g.i, len, p, 0, num) == PackedColumn(g, buf, q * g.l + p)[..num]
  {
    hide InChunk, ChunkBlocks, PackedColumn;
    ChunkColumn(g, buf, q, len, p);
    assert Cells(buf, q * (g.l * g.n), g.n, g.i, len, p, 0, num) == Cells(buf, q * (g.l * g.n), g.n, g.i, len, p, 0, g.n)[..num];
  }

  /** That is the scheduler's value of the cell, block position by block position. */
  lemma WorkedIsCellValue(su: S.Setup, s: S.State, task: S.Task, c: nat, o: nat, g: Geometry, buf: seq<Block>, p: nat)
    requires Fits(g, buf) && task.num <= g.n && 0 <= c * g.l + p <= g.d && S.InGrid(su.cfg, c, o)
    requires S.Shaped(su.cfg, S.Slots(s, task.area, task.num))
    requires forall i: nat :: i < task.num ==> S.Slots(s, task.area, task.num)[i].data[c] == Get(g, buf, i, c * g.l + p)
    ensures S.CellValue(su, s, task, c, o)
            == Add(if task.add && (c, o) in s.mem then s.mem[(c, o)] else ZeroBlock(),
                   Combine(S.Coeffs(S.Slots(s, task.area, task.num), o), PackedColumn(g, buf, c * g.l + p)[..task.num]))
  {
    hide Get, Combine, Add;
    var ins := S.Slots(s, task.area, task.num);
    assert S.DataOf(ins, c) == PackedColumn(g, buf, c * g.l + p)[..task.num];
  }

  // Control does not depend on the block position.

  predicate SameMessage(a: S.Message, b: S.Message) {
    if a.Prepare? then b.Prepare? && b.area == a.area && b.index == a.index && b.submit == a.submit else b == a
  }

  /** Two states that differ only in data and in what was added. */
  predicate SameControl(s: S.State, t: S.State) {
    && t == s.(data := t.data, mem := t.mem, transferQ := t.transferQ, batches := t.batches, open := t.open)
    && |t.transferQ| == |s.transferQ| && forall i :: 0 <= i < |s.transferQ| ==> SameMessage(s.transferQ[i], t.transferQ[i])
  }

  lemma ControlStep(su: S.Setup, s: S.State, t: S.State, d: nat, step: Step, p: nat)
    requires S.Inv(su, t) && SameControl(s, t) && R.Enabled(su, s, EventAt(su.cfg, d, step, 0))
    ensures R.Enabled(su, t, EventAt(su.cfg, d, step, p))
    ensures SameControl(R.Next(su, s, EventAt(su.cfg, d, step, 0)), R.Next(su, t, EventAt(su.cfg, d, step, p)))
  {
    hide S.Inv, S.CellValue, SameControl, InputAt, S.AddInput, S.FlushInputs, S.TransferStep, S.StartTask, S.WorkCell, S.FinishTask;
    match step
    case AddSlice(source, flush) => ControlAdd(su, s, t, d, source, flush, p);
    case Other(e) => if e.TransferEvent? { ControlTransfer(su, s, t); } else { ControlOther(su, s, t, e); }
  }

  lemma ControlTransfer(su: S.Setup, s: S.State, t: S.State)
    requires SameControl(s, t) && R.Enabled(su, s, R.TransferEvent)
    ensures R.Enabled(su, t, R.TransferEvent) && SameControl(S.TransferStep(su, s), S.TransferStep(su, t))
  {
    hide S.TransferStep, SameControl;
    if s.transfer == S.Ready { ControlMessage(su, s, t); } else { ControlSend(su, s, t); }
  }

  lemma ControlMessage(su: S.Setup, s: S.State, t: S.State)
    requires SameControl(s, t) && s.transfer == S.Ready && s.transferQ != []
    ensures t.transferQ != [] && SameControl(S.TransferStep(su, s), S.TransferStep(su, t))
  {
    hide ProcRefs, Nth, S.Set, S.Get;
    assert SameMessage(s.transferQ[0], t.transferQ[0]);
  }

  lemma ControlSend(su: S.Setup, s: S.State, t: S.State)
    requires SameControl(s, t) && s.transfer.Sending?
    ensures t.transfer == s.transfer && SameControl(S.TransferStep(su, s), S.TransferStep(su, t))
  {
    hide ProcRefs, Nth, S.Set, S.Get;
  }

  lemma ControlOther(su: S.Setup, s: S.State, t: S.State, e: R.Event)
    requires SameControl(s, t) && R.Enabled(su, s, e) && !e.AddEvent? && !e.TransferEvent?
    ensures R.Enabled(su, t, e) && SameControl(R.Next(su, s, e), R.Next(su, t, e))
  {
    hide ProcRefs, Nth, S.CellValue;
  }

  lemma ControlAdd(su: S.Setup, s: S.State, t: S.State, d: nat, source: Source, flush: bool, p: nat)
    requires S.Inv(su, t) && SameControl(s, t) && P.CanAdd(su, s, InputAt(su.cfg, d, source, 0))
    ensures P.CanAdd(su, t, InputAt(su.cfg, d, source, p))
    ensures SameControl(S.AddInput(su, s, InputAt(su.cfg, d, source, 0), flush), S.AddInput(su, t, InputAt(su.cfg, d, source, p), flush))
  {
    hide S.MainInv, S.RingInv, S.TransferInv, S.SlotsInv, S.TaskInv, S.DoneInv, S.RefsInv, S.NotifyInv, S.MemInv, BlockAt;
    var x, y := InputAt(su.cfg, d, source, 0), InputAt(su.cfg, d, source, p);
    assert [x][0] == x && [y][0] == y;
  }

  // The buffers.

  /** The staging areas, the outputs, and the slices whose messages wait in the transfer thread's queue. */
  datatype Buffers = Buffers(areas: seq<seq<Block>>, memory: seq<Block>, waiting: seq<Source>)

  /** The layout that a setup stands for. */
  predicate Laid(su: S.Setup, g: Geometry) {
    Covered(su.cfg) && su.cfg.e == g.d + 1 && su.cfg.l == g.l && su.cfg.n == g.n == su.batch
  }

  predicate BuffersFit(su: S.Setup, g: Geometry, x: Buffers) {
    && |x.areas| == su.areas && (forall a :: 0 <= a < su.areas ==> Fits(g, x.areas[a]))
    && Fits(Outputs(g, su.cfg.outputs), x.memory)
  }

  /** A message that carries a slice has it packed into its slot, as PreparePackedCksum leaves it. */
  function Moved(su: S.Setup, g: Geometry, m: S.Message, x: Buffers): (x': Buffers)
    requires BuffersFit(su, g, x)
    ensures BuffersFit(su, g, x') && x'.memory == x.memory
  {
    if m.Prepare? && m.area < su.areas && m.index < g.n && x.waiting != [] then
      x.(areas := x.areas[m.area := Put(g, x.areas[m.area], m.index, 0, SliceImage(x.waiting[0].bytes, g.d))],
         waiting := x.waiting[1..])
    else x
  }

  /** The coefficients in the slots of a task's area. */
  function TaskCoeffs(s: S.State, task: S.Task, o: nat): (cs: seq<Word>)
    ensures |cs| == task.num
  {
    seq(task.num, i requires 0 <= i < task.num =>
      var c := S.Slots(s, task.area, task.num)[i].coeffs; if o < |c| then c[o] else Zero)
  }

  /** A worker's step: one output of one round, by its task's area, slot count, add flag and coefficients. */
  function Computed(su: S.Setup, g: Geometry, s: S.State, t: nat, x: Buffers): (x': Buffers)
    requires BuffersFit(su, g, x) && P.CanWork(su, s, t)
    ensures BuffersFit(su, g, x') && x'.areas == x.areas && x'.waiting == x.waiting
  {
    var task := s.workers[t].task;
    var (c, o) := R.AtCell(su, s, t);
    if task.area < su.areas && task.num <= g.n && c * g.l <= g.d && o < su.cfg.outputs then
      x.(memory := RoundWritten(g, su.cfg.outputs, x.areas[task.area], x.memory, c, o, task.add, TaskCoeffs(s, task, o)))
    else x
  }

  /** What a step does to the buffers, in control state s. */
  function BuffersNext(su: S.Setup, g: Geometry, s: S.State, x: Buffers, step: Step): (x': Buffers)
    requires BuffersFit(su, g, x) && R.Enabled(su, s, EventAt(su.cfg, g.d, step, 0))
    ensures BuffersFit(su, g, x')
  {
    match step
    case AddSlice(source, _) => x.(waiting := x.waiting + [source])
    case Other(e) =>
      match e
      case TransferEvent => if s.transfer == S.Ready then Moved(su, g, s.transferQ[0], x) else x
      case WorkEvent(t) => Computed(su, g, s, t, x)
      case _ => x
  }

  function BuffersAfter(su: S.Setup, g: Geometry, s: S.State, x: Buffers, steps: seq<Step>): (x': Buffers)
    requires BuffersFit(su, g, x) && R.IsRun(su, s, EventsAt(su.cfg, g.d, steps, 0))
    ensures BuffersFit(su, g, x')
    decreases |steps|
  {
    if steps == [] then x
    else
      AtHead(su.cfg, g.d, steps, 0);
      BuffersAfter(su, g, R.Next(su, s, EventAt(su.cfg, g.d, steps[0], 0)), BuffersNext(su, g, s, x, steps[0]), steps[1..])
  }

  // What the scheduler's state at block position p has to do with them.

  /** The data of the messages that carry an input, in order. */
  function Carried(q: seq<S.Message>): seq<seq<Block>> {
    if q == [] then [] else (if q[0].Prepare? then [q[0].data] else []) + Carried(q[1..])
  }

  lemma {:induction false} CarriedAppend(q: seq<S.Message>, m: S.Message)
    ensures Carried(q + [m]) == Carried(q) + if m.Prepare? then [m.data] else []
    decreases |q|
  {
    if q == [] {
      assert (q + [m])[1..] == [];
    } else {
      CarriedAppend(q[1..], m);
      assert (q + [m])[1..] == q[1..] + [m];
    }
  }

  function DataAt(cfg: Config, d: nat, waiting: seq<Source>, p: nat): (ds: seq<seq<Block>>)
    ensures |ds| == |waiting|
  {
    seq(|waiting|, i requires 0 <= i < |waiting| => InputAt(cfg, d, waiting[i], p).data)
  }

  /** Slot i of an area, chunk by chunk. */
  ghost predicate SlotIs(cfg: Config, g: Geometry, data: seq<Block>, area: seq<Block>, i: nat, p: nat)
    requires Fits(g, area) && i < g.n
  {
    |data| == cfg.chunks && forall c: nat :: c < cfg.chunks && 0 <= c * g.l + p <= g.d ==> data[c] == Get(g, area, i, c * g.l + p)
  }

  ghost predicate AreasAre(su: S.Setup, g: Geometry, data: seq<seq<seq<Block>>>, areas: seq<seq<Block>>, p: nat)
    requires |areas| == su.areas && forall a :: 0 <= a < su.areas ==> Fits(g, areas[a])
  {
    && |data| == su.areas
    && forall a: nat :: a < su.areas ==> |data[a]| == g.n && forall i: nat :: i < g.n ==> SlotIs(su.cfg, g, data[a][i], areas[a], i, p)
  }

  ghost predicate CellsAre(su: S.Setup, g: Geometry, mem: map<S.Cell, Block>, memory: seq<Block>, p: nat)
    requires Fits(Outputs(g, su.cfg.outputs), memory)
  {
    forall c: nat, o: nat :: S.InGrid(su.cfg, c, o) && 0 <= c * g.l + p <= g.d && (c, o) in mem ==>
      mem[(c, o)] == Get(Outputs(g, su.cfg.outputs), memory, o, c * g.l + p)
  }

  ghost predicate Shows(su: S.Setup, g: Geometry, s: S.State, x: Buffers, p: nat)
    requires BuffersFit(su, g, x)
  {
    && AreasAre(su, g, s.data, x.areas, p) && CellsAre(su, g, s.mem, x.memory, p)
    && Carried(s.transferQ) == DataAt(su.cfg, g.d, x.waiting, p)
  }

  /** What the areas hold before anything was put there. */
  function ViewOf(cfg: Config, g: Geometry, area: seq<Block>, p: nat): (data: seq<seq<Block>>)
    requires Fits(g, area)
  {
    seq(g.n, i requires 0 <= i < g.n => seq(cfg.chunks, c requires 0 <= c < cfg.chunks =>
      if 0 <= c * g.l + p <= g.d then Get(g, area, i, c * g.l + p) else ZeroBlock()))
  }

  /** The scheduler's initial state at block position p. */
  function Start(su: S.Setup, g: Geometry, s0: S.State, x: Buffers, p: nat): S.State
    requires BuffersFit(su, g, x)
  {
    s0.(data := seq(su.areas, a requires 0 <= a < su.areas => ViewOf(su.cfg, g, x.areas[a], p)), mem := map[])
  }

  lemma StartShows(su: S.Setup, g: Geometry, s0: S.State, x: Buffers, p: nat)
    requires Laid(su, g) && BuffersFit(su, g, x) && R.Init(su, s0) && x.waiting == []
    ensures R.Init(su, Start(su, g, s0, x, p)) && Shows(su, g, Start(su, g, s0, x, p), x, p)
    ensures SameControl(Start(su, g, s0, x, 0), Start(su, g, s0, x, p))
  {
    hide Get, ProcRefs;
  }

  // Each step keeps it.

  lemma AddShows(su: S.Setup, g: Geometry, s: S.State, x: Buffers, source: Source, flush: bool, p: nat)
    requires Laid(su, g) && BuffersFit(su, g, x) && Shows(su, g, s, x, p)
    ensures Shows(su, g, S.AddInput(su, s, InputAt(su.cfg, g.d, source, p), flush), x.(waiting := x.waiting + [source]), p)
  {
    hide AreasAre, CellsAre, Carried, BlockAt;
    var y := InputAt(su.cfg, g.d, source, p);
    var m := S.Prepare(s.currentArea, s.currentInputs, y.data, S.SubmitCount(su, s, flush));
    CarriedAppend(s.transferQ, m);
    assert DataAt(su.cfg, g.d, x.waiting + [source], p) == DataAt(su.cfg, g.d, x.waiting, p) + [y.data];
  }

  lemma FlushShows(su: S.Setup, g: Geometry, s: S.State, x: Buffers, p: nat)
    requires Laid(su, g) && BuffersFit(su, g, x) && Shows(su, g, s, x, p)
    ensures Shows(su, g, S.FlushInputs(su, s), x, p)
  {
    hide AreasAre, CellsAre, Carried;
    CarriedAppend(s.transferQ, S.Flush(s.currentArea, s.currentInputs));
  }

  /** Packing a slice into its slot is storing its input there, at every block position. */
  lemma MoveShows(su: S.Setup, g: Geometry, s: S.State, t: S.State, x: Buffers, p: nat)
    requires Laid(su, g) && BuffersFit(su, g, x) && Shows(su, g, t, x, p) && SameControl(s, t) && S.Inv(su, t)
    requires t.transfer == S.Ready && t.transferQ != []
    ensures Shows(su, g, S.TransferStep(su, t), Moved(su, g, s.transferQ[0], x), p)
  {
    hide S.Inv, CellsAre, Put, Get, SliceImage, ProcRefs, DataAt;
    R.MessageBounds(su, t);
    var m := t.transferQ[0];
    assert SameMessage(s.transferQ[0], m);
    if m.Prepare? {
      CarriedHead(su.cfg, g.d, t.transferQ, x.waiting, p);
      StoredAreas(su, g, t.data, x.areas, m.area, m.index, x.waiting[0], p);
    }
  }

  lemma CarriedHead(cfg: Config, d: nat, q: seq<S.Message>, waiting: seq<Source>, p: nat)
    requires q != [] && q[0].Prepare? && Carried(q) == DataAt(cfg, d, waiting, p)
    ensures waiting != [] && q[0].data == InputAt(cfg, d, waiting[0], p).data
    ensures Carried(q[1..]) == DataAt(cfg, d, waiting[1..], p)
  {
    hide InputAt;
    assert Carried(q)[0] == q[0].data && Carried(q)[1..] == Carried(q[1..]);
    assert DataAt(cfg, d, waiting, p)[1..] == DataAt(cfg, d, waiting[1..], p);
  }

  lemma StoredAreas(su: S.Setup, g: Geometry, data: seq<seq<seq<Block>>>, areas: seq<seq<Block>>, a: nat, i: nat, source: Source, p: nat)
    requires Laid(su, g) && |areas| == su.areas && (forall b :: 0 <= b < su.areas ==> Fits(g, areas[b]))
    requires AreasAre(su, g, data, areas, p) && a < su.areas && i < g.n
    ensures AreasAre(su, g, data[a := data[a][i := InputAt(su.cfg, g.d, source, p).data]],
                     areas[a := Put(g, areas[a], i, 0, SliceImage(source.bytes, g.d))], p)
  {
    hide Put, Get, SliceImage;
    var bs, y := SliceImage(source.bytes, g.d), InputAt(su.cfg, g.d, source, p);
    var slots := data[a][i := y.data];
    forall i': nat | i' < g.n ensures SlotIs(su.cfg, g, slots[i'], Put(g, areas[a], i, 0, bs), i', p) {
      assert SlotIs(su.cfg, g, data[a][i'], areas[a], i', p);
      forall c: nat | c < su.cfg.chunks && 0 <= c * g.l + p <= g.d
        ensures slots[i'][c] == Get(g, Put(g, areas[a], i, 0, bs), i', c * g.l + p)
      {
        GetPut(g, areas[a], i, 0, bs, i', c * g.l + p);
      }
    }
  }

  /** A round on the buffers is the scheduler's step at every block position. */
  lemma WorkShows(su: S.Setup, g: Geometry, s: S.State, t: S.State, x: Buffers, w: nat, p: nat)
    requires Laid(su, g) && BuffersFit(su, g, x) && Shows(su, g, t, x, p) && SameControl(s, t) && S.Inv(su, t)
    requires P.CanWork(su, s, w) && P.CanWork(su, t, w) && p < su.cfg.l
    ensures Shows(su, g, S.WorkCell(su, t, w), Computed(su, g, s, w, x), p)
  {
    hide S.Inv, AreasAre, CellsAre, Carried, DataAt, S.CellValue, RoundWritten, Nth, ProcRefs, TaskCoeffs, BuffersFit;
    R.WorkMeans(su, t, w);
    R.SlotsMean(su, t, w);
    BuffersFitMeans(su, g, x);
    var task := t.workers[w].task;
    var (c, o) := R.AtCell(su, t, w);
    ChunkStart(su, g, c);
    SlotsAre(su, g, t, x.areas, task, c, p);
    CoeffsSame(su, s, t, task, o);
    RoundCells(su, g, t, x.areas[task.area], x.memory, task, c, o, p);
  }

  lemma BuffersFitMeans(su: S.Setup, g: Geometry, x: Buffers)
    requires BuffersFit(su, g, x)
    ensures |x.areas| == su.areas && Fits(Outputs(g, su.cfg.outputs), x.memory) && forall a :: 0 <= a < su.areas ==> Fits(g, x.areas[a])
  {
  }

  lemma ChunkStart(su: S.Setup, g: Geometry, c: nat)
    requires Laid(su, g) && c < su.cfg.chunks
    ensures 0 <= c * g.l <= g.d
  {
    MulLe(c, su.cfg.chunks - 1, g.l);
    MulLe(0, c, g.l);
  }

  lemma CoeffsSame(su: S.Setup, s: S.State, t: S.State, task: S.Task, o: nat)
    requires SameControl(s, t) && S.Shaped(su.cfg, S.Slots(t, task.area, task.num)) && o < su.cfg.outputs
    ensures TaskCoeffs(s, task, o) == S.Coeffs(S.Slots(t, task.area, task.num), o)
  {
  }

  /** The slots that a task reads, block by block. */
  lemma SlotsAre(su: S.Setup, g: Geometry, t: S.State, areas: seq<seq<Block>>, task: S.Task, c: nat, p: nat)
    requires |areas| == su.areas && (forall a :: 0 <= a < su.areas ==> Fits(g, areas[a])) && c < su.cfg.chunks
    requires AreasAre(su, g, t.data, areas, p) && task.area < |t.data| && task.num <= |t.data[task.area]|
    ensures task.area < su.areas && task.num <= g.n
    ensures 0 <= c * g.l + p <= g.d ==> var ins := S.Slots(t, task.area, task.num);
              forall i: nat :: i < task.num ==> c < |ins[i].data| && ins[i].data[c] == Get(g, areas[task.area], i, c * g.l + p)
  {
    hide Get, S.Slots, SlotIs;
    assert |t.data[task.area]| == g.n;
    if 0 <= c * g.l + p <= g.d {
      var ins := S.Slots(t, task.area, task.num);
      forall i: nat | i < task.num ensures c < |ins[i].data| && ins[i].data[c] == Get(g, areas[task.area], i, c * g.l + p) {
        SlotMeans(su.cfg, g, t.data[task.area][i], areas[task.area], i, c, p);
        SlotData(t, task.area, task.num, i);
      }
    }
  }

  lemma SlotMeans(cfg: Config, g: Geometry, data: seq<Block>, area: seq<Block>, i: nat, c: nat, p: nat)
    requires Fits(g, area) && i < g.n && SlotIs(cfg, g, data, area, i, p) && c < cfg.chunks && 0 <= c * g.l + p <= g.d
    ensures c < |data| && data[c] == Get(g, area, i, c * g.l + p)
  {
  }

  lemma SlotData(t: S.State, area: nat, num: nat, i: nat)
    requires area < |t.data| && i < num <= |t.data[area]|
    ensures S.Slots(t, area, num)[i].data == t.data[area][i]
  {
  }

  lemma RoundCells(su: S.Setup, g: Geometry, t: S.State, area: seq<Block>, memory: seq<Block>, task: S.Task, c: nat, o: nat, p: nat)
    requires Laid(su, g) && Fits(g, area) && Fits(Outputs(g, su.cfg.outputs), memory) && CellsAre(su, g, t.mem, memory, p)
    requires S.InGrid(su.cfg, c, o) && task.num <= g.n && p < su.cfg.l && 0 <= c * g.l <= g.d && (task.add ==> (c, o) in t.mem)
    requires var ins := S.Slots(t, task.area, task.num);
             && S.Shaped(su.cfg, ins)
             && forall i: nat :: i < task.num && 0 <= c * g.l + p <= g.d ==> ins[i].data[c] == Get(g, area, i, c * g.l + p)
    ensures CellsAre(su, g, t.mem[(c, o) := S.CellValue(su, t, task, c, o)],
                     RoundWritten(g, su.cfg.outputs, area, memory, c, o, task.add, S.Coeffs(S.Slots(t, task.area, task.num), o)), p)
  {
    hide Get, RoundWritten, S.CellValue, Combine, Add, PackedColumn;
    var go, cs := Outputs(g, su.cfg.outputs), S.Coeffs(S.Slots(t, task.area, task.num), o);
    RoundWorked(g, su.cfg.outputs, area, memory, c, o, task.add, cs);
    var r := RoundWritten(g, su.cfg.outputs, area, memory, c, o, task.add, cs);
    var mem := t.mem[(c, o) := S.CellValue(su, t, task, c, o)];
    forall c': nat, o': nat | S.InGrid(su.cfg, c', o') && 0 <= c' * g.l + p <= g.d && (c', o') in mem
      ensures mem[(c', o')] == Get(go, r, o', c' * g.l + p)
    {
      DivUnique(c' * g.l + p, g.l, c', p);
      if c' == c && o' == o { WorkedIsCellValue(su, t, task, c, o, g, area, p); }
    }
  }

  lemma StepShows(su: S.Setup, g: Geometry, s: S.State, t: S.State, x: Buffers, step: Step, p: nat)
    requires Laid(su, g) && BuffersFit(su, g, x) && Shows(su, g, t, x, p) && SameControl(s, t) && S.Inv(su, t) && p < su.cfg.l
    requires R.Enabled(su, s, EventAt(su.cfg, g.d, step, 0)) && R.Enabled(su, t, EventAt(su.cfg, g.d, step, p))
    ensures Shows(su, g, R.Next(su, t, EventAt(su.cfg, g.d, step, p)), BuffersNext(su, g, s, x, step), p)
  {
    hide S.Inv, AreasAre, CellsAre, Carried, DataAt, S.CellValue, BuffersFit, Moved, Computed, InputAt, ProcRefs, Nth;
    match step
    case AddSlice(source, flush) => AddShows(su, g, t, x, source, flush, p);
    case Other(e) =>
      match e
      case FlushEvent => FlushShows(su, g, t, x, p);
      case TransferEvent => if t.transfer == S.Ready { MoveShows(su, g, s, t, x, p); }
      case WorkEvent(w) => WorkShows(su, g, s, t, x, w, p);
      case _ =>
  }

  /**
   Over every run on the buffers: at each block position the same steps are a run of the scheduler,
   its slots are what is packed in the areas, and its cells are the blocks of the outputs.
   */
  lemma {:induction false} RunShows(su: S.Setup, g: Geometry, s: S.State, t: S.State, x: Buffers, steps: seq<Step>, p: nat)
    requires Laid(su, g) && BuffersFit(su, g, x) && Shows(su, g, t, x, p) && SameControl(s, t) && S.Inv(su, t) && p < su.cfg.l
    requires R.IsRun(su, s, EventsAt(su.cfg, g.d, steps, 0))
    ensures R.IsRun(su, t, EventsAt(su.cfg, g.d, steps, p))
    ensures var s', t' := R.After(su, s, EventsAt(su.cfg, g.d, steps, 0)), R.After(su, t, EventsAt(su.cfg, g.d, steps, p));
            SameControl(s', t') && S.Inv(su, t') && Shows(su, g, t', BuffersAfter(su, g, s, x, steps), p)
    decreases |steps|
  {
    hide S.Inv, BuffersFit, Shows, SameControl, R.Enabled, R.Next, BuffersNext, EventAt;
    if steps != [] {
      AtHead(su.cfg, g.d, steps, 0);
      AtHead(su.cfg, g.d, steps, p);
      var e, f := EventAt(su.cfg, g.d, steps[0], 0), EventAt(su.cfg, g.d, steps[0], p);
      ControlStep(su, s, t, g.d, steps[0], p);
      StepShows(su, g, s, t, x, steps[0], p);
      R.StepKept(su, t, f);
      RunShows(su, g, R.Next(su, s, e), R.Next(su, t, f), BuffersNext(su, g, s, x, steps[0]), steps[1..], p);
    }
  }

  /** From any setup, with any areas and memory. */
  lemma BuffersShow(su: S.Setup, g: Geometry, s0: S.State, x0: Buffers, steps: seq<Step>, p: nat)
    requires R.Init(su, s0) && Laid(su, g) && BuffersFit(su, g, x0) && x0.waiting == [] && p < su.cfg.l
    requires R.IsRun(su, Start(su, g, s0, x0, 0), EventsAt(su.cfg, g.d, steps, 0))
    ensures R.IsRun(su, Start(su, g, s0, x0, p), EventsAt(su.cfg, g.d, steps, p))
    ensures var s := R.After(su, Start(su, g, s0, x0, 0), EventsAt(su.cfg, g.d, steps, 0));
            var t := R.After(su, Start(su, g, s0, x0, p), EventsAt(su.cfg, g.d, steps, p));
            && SameControl(s, t) && S.Inv(su, t)
            && Shows(su, g, t, BuffersAfter(su, g, Start(su, g, s0, x0, 0), x0, steps), p)
  {
    hide R.Init, R.IsRun, R.After, EventsAt, Start, BuffersFit, S.Inv, Shows, SameControl, BuffersAfter;
    StartShows(su, g, s0, x0, p);
    R.InitInv(su, Start(su, g, s0, x0, p));
    RunShows(su, g, Start(su, g, s0, x0, 0), Start(su, g, s0, x0, p), x0, steps, p);
  }
}
