/**
 The pipelined scheduler: one main thread, one transfer thread and the workers share a ring of
 staging areas.  A state machine whose steps interleave freely; the grid of output cells is
 written without locks.  A worker counts its request down and, if it was the last, notifies in one
 step; in the program these are two, but nothing that other threads do between them depends on
 which has happened: the counter is read by nobody else once it has run out, and the main thread
 acts only on the notice, so no order of events is hidden by this.
 */
module Scheduler {
  import opened Arith
  import opened Field
  import opened Blocks
  import opened WorkSplit
  import M = Muladd

  /** Counts fixed for a run: the split, staging areas, and the batch sizes. */
  datatype Setup = Setup(cfg: Config, areas: Positive, batch: Positive, minBatch: nat)

  /** One added input: a block for every chunk (it stands for all of them) and a coefficient for every output. */
  datatype Input = Input(data: seq<Block>, coeffs: seq<Word>)

  /** A batch handed to the transfer thread, by its last input or by a separate flush message. */
  datatype Batch = Batch(inputs: seq<Input>, flushed: bool)

  datatype Message = Prepare(area: nat, index: nat, data: seq<Block>, submit: nat) | Flush(area: nat, submit: nat)

  /** What the transfer thread does: waits for a message, or sends request next of a batch. */
  datatype Transfer = Ready | Sending(area: nat, num: nat, add: bool, next: nat)

  /** Request k of batch number batch, in a worker's queue. */
  datatype Task = Task(k: nat, area: nat, num: nat, add: bool, batch: nat)

  datatype Worker = Idle | Busy(task: Task, round: nat, out: nat)

  type Cell = (nat, nat)

  datatype State = State(
    // main thread
    currentArea: nat, currentInputs: nat, activeCount: int, pendingIn: int,
    // staging areas
    active: seq<bool>, procRefs: seq<int>, data: seq<seq<seq<Block>>>, coeffs: seq<seq<seq<Word>>>,
    // transfer thread
    transferQ: seq<Message>, transfer: Transfer, processingAdd: bool,
    // workers
    queues: seq<seq<Task>>, workers: seq<Worker>, mem: map<Cell, Block>,
    // notifications to the main thread
    sentQ: nat, procQ: seq<nat>,
    // history: what was submitted, and how far each thread of work has come
    batches: seq<Batch>, open: seq<Input>, started: nat, moved: nat, complete: nat, notified: nat, done: seq<nat>)

  // The reference result.

  function Coeffs(ins: seq<Input>, o: nat): (cs: seq<Word>)
    requires forall i :: 0 <= i < |ins| ==> o < |ins[i].coeffs|
    ensures |cs| == |ins|
  {
    seq(|ins|, i requires 0 <= i < |ins| => ins[i].coeffs[o])
  }

  function DataOf(ins: seq<Input>, c: nat): (col: seq<Block>)
    requires forall i :: 0 <= i < |ins| ==> c < |ins[i].data|
    ensures |col| == |ins|
  {
    seq(|ins|, i requires 0 <= i < |ins| => ins[i].data[c])
  }

  predicate Shaped(cfg: Config, ins: seq<Input>) {
    forall i :: 0 <= i < |ins| ==> |ins[i].data| == cfg.chunks && |ins[i].coeffs| == cfg.outputs
  }

  predicate InGrid(cfg: Config, c: nat, o: nat) { c < cfg.chunks && o < cfg.outputs }

  /** Coefficient times input, over some inputs, for output o of chunk c. */
  function Sum(cfg: Config, ins: seq<Input>, c: nat, o: nat): Block
    requires Shaped(cfg, ins) && InGrid(cfg, c, o)
  {
    Combine(Coeffs(ins, o), DataOf(ins, c))
  }

  lemma SumAppend(cfg: Config, a: seq<Input>, b: seq<Input>, c: nat, o: nat)
    requires Shaped(cfg, a) && Shaped(cfg, b) && InGrid(cfg, c, o)
    ensures Shaped(cfg, a + b) && Sum(cfg, a + b, c, o) == Add(Sum(cfg, a, c, o), Sum(cfg, b, c, o))
  {
    hide Add, Combine;
    assert Coeffs(a + b, o) == Coeffs(a, o) + Coeffs(b, o);
    assert DataOf(a + b, c) == DataOf(a, c) + DataOf(b, c);
    M.CombineAppend(Coeffs(a, o), Coeffs(b, o), DataOf(a, c), DataOf(b, c));
  }

  predicate ShapedBatches(su: Setup, bs: seq<Batch>) {
    forall b :: 0 <= b < |bs| ==> Shaped(su.cfg, bs[b].inputs) && 1 <= |bs[b].inputs| <= su.batch
  }

  /** The first n batches added up. */
  function Total(su: Setup, bs: seq<Batch>, n: nat, c: nat, o: nat): Block
    requires ShapedBatches(su, bs) && n <= |bs| && InGrid(su.cfg, c, o)
  {
    if n == 0 then ZeroBlock() else Add(Total(su, bs, n - 1, c, o), Sum(su.cfg, bs[n - 1].inputs, c, o))
  }

  function Flatten(bs: seq<Batch>): seq<Input> {
    if bs == [] then [] else Flatten(bs[..|bs| - 1]) + bs[|bs| - 1].inputs
  }

  /** Every accepted input, in order. */
  function Accepted(s: State): seq<Input> { Flatten(s.batches) + s.open }

  lemma {:induction false} FlattenShaped(su: Setup, bs: seq<Batch>)
    requires ShapedBatches(su, bs)
    ensures Shaped(su.cfg, Flatten(bs))
    decreases |bs|
  {
    if bs != [] { FlattenShaped(su, bs[..|bs| - 1]); }
  }

  lemma {:induction false} TotalPrefix(su: Setup, bs: seq<Batch>, bs': seq<Batch>, n: nat, c: nat, o: nat)
    requires ShapedBatches(su, bs) && ShapedBatches(su, bs') && n <= |bs| && bs <= bs' && InGrid(su.cfg, c, o)
    ensures Total(su, bs, n, c, o) == Total(su, bs', n, c, o)
    decreases n
  {
    hide Add, Sum;
    if n > 0 {
      TotalPrefix(su, bs, bs', n - 1, c, o);
      assert bs[n - 1] == bs'[n - 1];
    }
  }

  lemma {:induction false} TotalIsSum(su: Setup, bs: seq<Batch>, c: nat, o: nat)
    requires ShapedBatches(su, bs) && InGrid(su.cfg, c, o)
    ensures Shaped(su.cfg, Flatten(bs)) && Total(su, bs, |bs|, c, o) == Sum(su.cfg, Flatten(bs), c, o)
    decreases |bs|
  {
    hide Add, Sum;
    FlattenShaped(su, bs);
    if bs == [] {
      SumNone(su.cfg, c, o);
    } else {
      var n := |bs| - 1;
      FlattenShaped(su, bs[..n]);
      TotalIsSum(su, bs[..n], c, o);
      TotalPrefix(su, bs[..n], bs, n, c, o);
      SumAppend(su.cfg, Flatten(bs[..n]), bs[n].inputs, c, o);
    }
  }

  lemma SumNone(cfg: Config, c: nat, o: nat)
    requires InGrid(cfg, c, o)
    ensures Sum(cfg, [], c, o) == ZeroBlock()
  {
  }

  // What is in the transfer queue.

  function AreaOf(su: Setup, b: nat): (a: nat)
    ensures a < su.areas
  {
    DivMod(b, su.areas);
    b % su.areas
  }

  /** The messages a batch consists of. */
  function BatchMessages(su: Setup, b: nat, batch: Batch): (ms: seq<Message>)
    ensures |ms| == |batch.inputs| + if batch.flushed then 1 else 0
  {
    var n := |batch.inputs|;
    seq(n, x requires 0 <= x < n =>
      Prepare(AreaOf(su, b), x, batch.inputs[x].data, if x == n - 1 && !batch.flushed then n else 0))
    + if batch.flushed then [Flush(AreaOf(su, b), n)] else []
  }

  /** The messages of the batch being filled. */
  function OpenMessages(su: Setup, b: nat, open: seq<Input>): (ms: seq<Message>)
    ensures |ms| == |open|
  {
    seq(|open|, x requires 0 <= x < |open| => Prepare(AreaOf(su, b), x, open[x].data, 0))
  }

  /** All messages from batch b on. */
  function Messages(su: Setup, bs: seq<Batch>, open: seq<Input>, b: nat): seq<Message>
    requires b <= |bs|
    decreases |bs| - b
  {
    if b == |bs| then OpenMessages(su, b, open) else BatchMessages(su, b, bs[b]) + Messages(su, bs, open, b + 1)
  }

  lemma {:induction false} MessagesAdd(su: Setup, bs: seq<Batch>, open: seq<Input>, x: Input, b: nat)
    requires b <= |bs|
    ensures Messages(su, bs, open + [x], b)
            == Messages(su, bs, open, b) + [Prepare(AreaOf(su, |bs|), |open|, x.data, 0)]
    decreases |bs| - b
  {
    if b == |bs| {
      assert OpenMessages(su, b, open + [x]) == OpenMessages(su, b, open) + [Prepare(AreaOf(su, b), |open|, x.data, 0)];
    } else {
      MessagesAdd(su, bs, open, x, b + 1);
      assert Messages(su, bs, open + [x], b) == BatchMessages(su, b, bs[b]) + Messages(su, bs, open + [x], b + 1);
    }
  }

  lemma {:induction false} MessagesSubmit(su: Setup, bs: seq<Batch>, open: seq<Input>, x: Input, b: nat)
    requires b <= |bs|
    ensures Messages(su, bs + [Batch(open + [x], false)], [], b)
            == Messages(su, bs, open, b) + [Prepare(AreaOf(su, |bs|), |open|, x.data, |open| + 1)]
    decreases |bs| - b
  {
    var bs' := bs + [Batch(open + [x], false)];
    if b == |bs| {
      assert Messages(su, bs', [], b + 1) == [];
      assert BatchMessages(su, b, bs'[b])
             == OpenMessages(su, b, open) + [Prepare(AreaOf(su, b), |open|, x.data, |open| + 1)];
    } else {
      MessagesSubmit(su, bs, open, x, b + 1);
      assert Messages(su, bs', [], b) == BatchMessages(su, b, bs[b]) + Messages(su, bs', [], b + 1);
    }
  }

  lemma {:induction false} MessagesFlush(su: Setup, bs: seq<Batch>, open: seq<Input>, b: nat)
    requires b <= |bs|
    ensures Messages(su, bs + [Batch(open, true)], [], b)
            == Messages(su, bs, open, b) + [Flush(AreaOf(su, |bs|), |open|)]
    decreases |bs| - b
  {
    var bs' := bs + [Batch(open, true)];
    if b == |bs| {
      assert Messages(su, bs', [], b + 1) == [];
      assert BatchMessages(su, b, bs'[b]) == OpenMessages(su, b, open) + [Flush(AreaOf(su, b), |open|)];
    } else {
      MessagesFlush(su, bs, open, b + 1);
      assert Messages(su, bs', [], b) == BatchMessages(su, b, bs[b]) + Messages(su, bs', [], b + 1);
    }
  }

  // The steps.

  function Set<T>(xs: seq<T>, i: nat, v: T): (r: seq<T>)
    ensures |r| == |xs|
  {
    if i < |xs| then xs[i := v] else xs
  }

  function Get<T>(xs: seq<seq<T>>, i: nat): seq<T> { if i < |xs| then xs[i] else [] }

  /** ++currentStagingArea, round the ring. */
  function NextArea(su: Setup, a: nat): nat { if a + 1 == su.areas then 0 else a + 1 }

  /** submitInBufs: how many inputs this add hands over, 0 when the batch stays open. */
  function SubmitCount(su: Setup, s: State, flush: bool): nat {
    var n := s.currentInputs + 1;
    if flush || n == su.batch || (s.activeCount == 0 && su.areas > 1 && n >= su.minBatch) then n else 0
  }

  /** The main thread takes an input (_addInput). */
  function AddInput(su: Setup, s: State, x: Input, flush: bool): State {
    var submit := SubmitCount(su, s, flush);
    var s1 := s.(coeffs := Set(s.coeffs, s.currentArea, Set(Get(s.coeffs, s.currentArea), s.currentInputs, x.coeffs)),
                 transferQ := s.transferQ + [Prepare(s.currentArea, s.currentInputs, x.data, submit)],
                 pendingIn := s.pendingIn + 1);
    if submit > 0 then
      s1.(activeCount := s.activeCount + 1, active := Set(s.active, s.currentArea, true),
          currentInputs := 0, currentArea := NextArea(su, s.currentArea),
          batches := s.batches + [Batch(s.open + [x], false)], open := [])
    else
      s1.(currentInputs := s.currentInputs + 1, open := s.open + [x])
  }

  /** The main thread hands over what it has (flush). */
  function FlushInputs(su: Setup, s: State): State {
    if s.currentInputs == 0 then s
    else
      s.(transferQ := s.transferQ + [Flush(s.currentArea, s.currentInputs)], pendingIn := s.pendingIn + 1,
         activeCount := s.activeCount + 1, active := Set(s.active, s.currentArea, true),
         currentInputs := 0, currentArea := NextArea(su, s.currentArea),
         batches := s.batches + [Batch(s.open, true)], open := [])
  }

  /** The transfer thread moves on: takes a message, sends one request, or reports a message done. */
  function TransferStep(su: Setup, s: State): State
    requires s.transfer == Ready ==> s.transferQ != []
  {
    match s.transfer
    case Sending(area, num, add, next) =>
      if next < ProcRefs(su.cfg) then
        var t := Nth(su.cfg, next).thread;
        s.(queues := Set(s.queues, t, Get(s.queues, t) + [Task(next, area, num, add, if s.started > 0 then s.started - 1 else 0)]),
           transfer := Sending(area, num, add, next + 1))
      else
        s.(transfer := Ready, sentQ := s.sentQ + 1)
    case Ready =>
      var m := s.transferQ[0];
      var s1 := s.(transferQ := s.transferQ[1..],
                   data := if m.Prepare? then Set(s.data, m.area, Set(Get(s.data, m.area), m.index, m.data)) else s.data);
      if m.submit > 0 then
        s1.(transfer := Sending(m.area, m.submit, s.processingAdd, 0), processingAdd := true,
            procRefs := Set(s.procRefs, m.area, ProcRefs(su.cfg)), started := s.started + 1, moved := 0)
      else
        s1.(sentQ := s.sentQ + 1, moved := s.moved + 1)
  }

  /** A worker takes its next request. */
  function StartTask(s: State, t: nat): State
    requires t < |s.queues| && s.queues[t] != []
  {
    s.(queues := s.queues[t := s.queues[t][1..]], workers := Set(s.workers, t, Busy(s.queues[t][0], 0, 0)))
  }

  /** The inputs in an area's slots, as a worker finds them. */
  function Slots(s: State, area: nat, num: nat): (ins: seq<Input>)
    ensures |ins| == num
  {
    seq(num, i requires 0 <= i < num => Input(Get(Get2(s.data, area), i), Get(Get2(s.coeffs, area), i)))
  }

  function Get2<T>(xs: seq<seq<seq<T>>>, i: nat): seq<seq<T>> { if i < |xs| then xs[i] else [] }

  /** What a worker stores in the cell it has come to. */
  function CellValue(su: Setup, s: State, task: Task, c: nat, o: nat): Block {
    var ins := Slots(s, task.area, task.num);
    var before := if task.add && (c, o) in s.mem then s.mem[(c, o)] else ZeroBlock();
    if Shaped(su.cfg, ins) && InGrid(su.cfg, c, o) then Add(before, Sum(su.cfg, ins, c, o)) else before
  }

  /** A worker computes one output of one chunk. */
  function WorkCell(su: Setup, s: State, t: nat): State
    requires t < |s.workers| && s.workers[t].Busy? && s.workers[t].task.k < ProcRefs(su.cfg)
  {
    var w := s.workers[t];
    var r := Nth(su.cfg, w.task.k);
    var cell := (r.chunk + w.round, r.firstOut + w.out);
    s.(mem := s.mem[cell := CellValue(su, s, w.task, cell.0, cell.1)],
       workers := s.workers[t := if w.out + 1 < r.outs then Busy(w.task, w.round, w.out + 1) else Busy(w.task, w.round + 1, 0)])
  }

  /** A worker is through with its request: fetch_sub, and a notification when it was the last one. */
  function FinishTask(su: Setup, s: State, t: nat): State
    requires t < |s.workers| && s.workers[t].Busy? && s.workers[t].task.area < |s.procRefs|
    requires s.workers[t].task.k < |s.done|
  {
    var task := s.workers[t].task;
    var last := s.procRefs[task.area] <= 1;
    s.(procRefs := s.procRefs[task.area := s.procRefs[task.area] - 1], workers := s.workers[t := Idle],
       done := s.done[task.k := s.done[task.k] + 1],
       procQ := if last then s.procQ + [task.area] else s.procQ,
       complete := if last then s.complete + 1 else s.complete)
  }

  /** The main thread hears that a message was dealt with (_notifySent). */
  function NotifySent(s: State): State
    requires s.sentQ > 0
  {
    s.(sentQ := s.sentQ - 1, pendingIn := s.pendingIn - 1)
  }

  /** The main thread hears that a batch is computed (_notifyProc). */
  function NotifyProc(s: State): State
    requires s.procQ != []
  {
    s.(procQ := s.procQ[1..], activeCount := s.activeCount - 1, active := Set(s.active, s.procQ[0], false),
       notified := s.notified + 1)
  }

  // The invariant, part by part; each part names the fields it is about.

  predicate Dims(su: Setup, s: State) {
    && |s.active| == |s.procRefs| == |s.data| == |s.coeffs| == su.areas
    && (forall a :: 0 <= a < su.areas ==> |s.data[a]| == su.batch && |s.coeffs[a]| == su.batch)
    && |s.queues| == |s.workers| == su.cfg.threads
    && |s.done| == ProcRefs(su.cfg)
  }

  predicate MainInv(su: Setup, currentArea: nat, currentInputs: nat, batches: seq<Batch>, open: seq<Input>) {
    && currentArea == AreaOf(su, |batches|) && currentInputs == |open| < su.batch
    && ShapedBatches(su, batches) && Shaped(su.cfg, open)
  }

  function CountTrue(xs: seq<bool>): nat {
    if xs == [] then 0 else CountTrue(xs[..|xs| - 1]) + if xs[|xs| - 1] then 1 else 0
  }

  /** Areas of batches handed over and not yet notified are active, and no others. */
  ghost predicate RingInv(su: Setup, active: seq<bool>, activeCount: int, nb: nat, open: seq<Input>, notified: nat) {
    && |active| == su.areas && notified <= nb <= notified + su.areas
    && (open != [] ==> nb < notified + su.areas)
    && activeCount == nb - notified == CountTrue(active)
    && (forall b: nat :: notified <= b < nb ==> active[AreaOf(su, b)])
    && (forall a :: 0 <= a < su.areas && active[a] ==> exists b: nat :: notified <= b < nb && AreaOf(su, b) == a)
  }

  predicate TransferInv(su: Setup, transferQ: seq<Message>, transfer: Transfer, processingAdd: bool,
                        batches: seq<Batch>, open: seq<Input>, started: nat, moved: nat) {
    && started <= |batches|
    && (if started < |batches| then moved < |BatchMessages(su, started, batches[started])| else moved <= |open|)
    && moved <= |Messages(su, batches, open, started)|
    && transferQ == Messages(su, batches, open, started)[moved..]
    && processingAdd == (started > 0)
    && (transfer.Sending? ==>
          && started > 0 && moved == 0 && transfer.next <= ProcRefs(su.cfg)
          && transfer.area == AreaOf(su, started - 1) && transfer.num == |batches[started - 1].inputs|
          && transfer.add == (started > 1))
  }

  predicate PendingInv(pendingIn: int, transferQ: seq<Message>, transfer: Transfer, sentQ: nat) {
    pendingIn == |transferQ| + sentQ + if transfer.Sending? then 1 else 0
  }

  /** The inputs of batch b, which may be the open one. */
  function InputsOf(batches: seq<Batch>, open: seq<Input>, b: nat): seq<Input> {
    if b < |batches| then batches[b].inputs else open
  }

  predicate DataHeld(su: Setup, data: seq<seq<seq<Block>>>, b: nat, ins: seq<Input>, n: nat)
    requires |data| == su.areas
  {
    && n <= |ins| && n <= |data[AreaOf(su, b)]|
    && forall i :: 0 <= i < n ==> data[AreaOf(su, b)][i] == ins[i].data
  }

  predicate CoeffsHeld(su: Setup, coeffs: seq<seq<seq<Word>>>, b: nat, ins: seq<Input>)
    requires |coeffs| == su.areas
  {
    && |ins| <= |coeffs[AreaOf(su, b)]|
    && forall i :: 0 <= i < |ins| ==> coeffs[AreaOf(su, b)][i] == ins[i].coeffs
  }

  /** Areas hold the inputs of the batches that still need them. */
  ghost predicate SlotsInv(su: Setup, data: seq<seq<seq<Block>>>, coeffs: seq<seq<seq<Word>>>, batches: seq<Batch>,
                           open: seq<Input>, started: nat, moved: nat, notified: nat) {
    && |data| == |coeffs| == su.areas && started <= |batches|
    && (forall b: nat :: notified <= b < started ==> DataHeld(su, data, b, batches[b].inputs, |batches[b].inputs|))
    && DataHeld(su, data, started, InputsOf(batches, open, started), moved)
    && (forall b: nat :: notified <= b < |batches| ==> CoeffsHeld(su, coeffs, b, batches[b].inputs))
    && CoeffsHeld(su, coeffs, |batches|, open)
  }

  /** How many batches' request k has been sent. */
  function SentOf(transfer: Transfer, started: nat, k: nat): nat {
    if transfer.Sending? && transfer.next <= k && started > 0 then started - 1 else started
  }

  function Range(a: nat, b: nat): (r: seq<nat>)
    ensures a <= b ==> |r| == b - a
  {
    if b <= a then [] else seq(b - a, i requires 0 <= i => a + i)
  }

  /** What a thread has in hand and in its queue. */
  function Pending(w: Worker, q: seq<Task>): seq<Task> { if w.Busy? then [w.task] + q else q }

  /** The batch numbers of request k's tasks, in order. */
  function Project(q: seq<Task>, k: nat): seq<nat> {
    if q == [] then []
    else Project(q[..|q| - 1], k) + if q[|q| - 1].k == k then [q[|q| - 1].batch] else []
  }

  predicate TaskOk(su: Setup, x: Task, t: nat, batches: seq<Batch>) {
    && x.k < ProcRefs(su.cfg) && Nth(su.cfg, x.k).thread == t && x.batch < |batches|
    && x.area == AreaOf(su, x.batch) && x.num == |batches[x.batch].inputs| && x.add == (x.batch > 0)
  }

  /** Every queue holds, request by request, the batches sent and not done, in order. */
  ghost predicate TaskInv(su: Setup, queues: seq<seq<Task>>, workers: seq<Worker>, done: seq<nat>, transfer: Transfer,
                          started: nat, batches: seq<Batch>) {
    && |queues| == |workers| == su.cfg.threads && |done| == ProcRefs(su.cfg)
    && (forall t: nat, i: nat :: t < su.cfg.threads && i < |Pending(workers[t], queues[t])| ==>
          TaskOk(su, Pending(workers[t], queues[t])[i], t, batches))
    && (forall k: nat, t: nat :: k < ProcRefs(su.cfg) && t < su.cfg.threads && Nth(su.cfg, k).thread == t ==>
          Project(Pending(workers[t], queues[t]), k) == Range(done[k], SentOf(transfer, started, k)))
  }

  /** complete counts the batches of which every request is done. */
  ghost predicate DoneInv(su: Setup, done: seq<nat>, complete: nat, transfer: Transfer, started: nat) {
    && |done| == ProcRefs(su.cfg) && complete <= started
    && (forall k: nat :: k < |done| ==> complete <= done[k] <= SentOf(transfer, started, k))
    && (complete < started ==> exists k: nat :: k < |done| && done[k] == complete)
  }

  /** Requests of batch b still to be finished. */
  function Remaining(done: seq<nat>, b: nat): nat {
    if done == [] then 0 else Remaining(done[..|done| - 1], b) + if done[|done| - 1] <= b then 1 else 0
  }

  /** procRefs counts them. */
  ghost predicate RefsInv(su: Setup, procRefs: seq<int>, done: seq<nat>, complete: nat, started: nat) {
    && |procRefs| == su.areas
    && forall b: nat :: complete <= b < started ==> procRefs[AreaOf(su, b)] == Remaining(done, b)
  }

  /** Batches complete in order, and wait to be notified in order. */
  predicate NotifyInv(su: Setup, procQ: seq<nat>, notified: nat, complete: nat) {
    && notified <= complete && |procQ| == complete - notified
    && forall i :: 0 <= i < |procQ| ==> procQ[i] == AreaOf(su, notified + i)
  }

  /** A worker is somewhere inside its request. */
  predicate BusyOk(su: Setup, w: Worker) {
    w.Busy? ==>
      && w.task.k < ProcRefs(su.cfg)
      && var r := Nth(su.cfg, w.task.k);
         w.round <= r.chunks && w.out < r.outs && (w.round == r.chunks ==> w.out == 0)
  }

  /** Whether a worker has passed a cell of its request. */
  predicate Passed(su: Setup, w: Worker, k: nat, c: nat, o: nat) {
    && w.Busy? && w.task.k == k && k < ProcRefs(su.cfg)
    && var r := Nth(su.cfg, k);
       c < r.chunk + w.round || (c == r.chunk + w.round && o < r.firstOut + w.out)
  }

  /** How many batches have gone into a cell. */
  function Applied(su: Setup, workers: seq<Worker>, done: seq<nat>, c: nat, o: nat): nat
    requires InGrid(su.cfg, c, o) && |workers| == su.cfg.threads && |done| == ProcRefs(su.cfg)
  {
    OwnerCovers(su.cfg, c, o);
    var k := OwnerIndex(su.cfg, c, o);
    RequestInGrid(su.cfg, k);
    done[k] + if Passed(su, workers[Nth(su.cfg, k).thread], k, c, o) then 1 else 0
  }

  /** A cell that batches have gone into holds their sum; nothing is said of it before. */
  ghost predicate MemInv(su: Setup, mem: map<Cell, Block>, batches: seq<Batch>, workers: seq<Worker>, done: seq<nat>) {
    && |workers| == su.cfg.threads && |done| == ProcRefs(su.cfg) && ShapedBatches(su, batches)
    && forall c: nat, o: nat :: InGrid(su.cfg, c, o) ==>
         var n := Applied(su, workers, done, c, o);
         n > 0 ==> n <= |batches| && (c, o) in mem && mem[(c, o)] == Total(su, batches, n, c, o)
  }

  ghost predicate Inv(su: Setup, s: State) {
    && Dims(su, s)
    && MainInv(su, s.currentArea, s.currentInputs, s.batches, s.open)
    && RingInv(su, s.active, s.activeCount, |s.batches|, s.open, s.notified)
    && TransferInv(su, s.transferQ, s.transfer, s.processingAdd, s.batches, s.open, s.started, s.moved)
    && PendingInv(s.pendingIn, s.transferQ, s.transfer, s.sentQ)
    && SlotsInv(su, s.data, s.coeffs, s.batches, s.open, s.started, s.moved, s.notified)
    && TaskInv(su, s.queues, s.workers, s.done, s.transfer, s.started, s.batches)
    && DoneInv(su, s.done, s.complete, s.transfer, s.started)
    && RefsInv(su, s.procRefs, s.done, s.complete, s.started)
    && NotifyInv(su, s.procQ, s.notified, s.complete)
    && (forall t :: 0 <= t < |s.workers| ==> BusyOk(su, s.workers[t]))
    && MemInv(su, s.mem, s.batches, s.workers, s.done)
  }
}
