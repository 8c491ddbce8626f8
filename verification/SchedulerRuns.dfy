/**
 What holds in every run of the scheduler: the drained result, freedom from races, the meaning of
 the counters, and that it never gets stuck.
 */
module SchedulerRuns {
  import opened Arith
  import opened WorkSplit
  import opened Scheduler
  import opened SchedulerProof

  datatype Event =
    | AddEvent(input: Input, flush: bool)
    | FlushEvent
    | TransferEvent
    | StartEvent(thread: nat)
    | WorkEvent(thread: nat)
    | FinishEvent(thread: nat)
    | SentEvent
    | ProcEvent

  predicate Enabled(su: Setup, s: State, e: Event) {
    match e
    case AddEvent(x, flush) => CanAdd(su, s, x)
    case FlushEvent => true
    case TransferEvent => s.transfer.Sending? || s.transferQ != []
    case StartEvent(t) => t < |s.workers| && t < |s.queues| && s.workers[t] == Idle && s.queues[t] != []
    case WorkEvent(t) => CanWork(su, s, t)
    case FinishEvent(t) => CanFinish(su, s, t)
    case SentEvent => s.sentQ > 0
    case ProcEvent => s.procQ != []
  }

  function Next(su: Setup, s: State, e: Event): State
    requires Enabled(su, s, e)
  {
    match e
    case AddEvent(x, flush) => AddInput(su, s, x, flush)
    case FlushEvent => FlushInputs(su, s)
    case TransferEvent => TransferStep(su, s)
    case StartEvent(t) => StartTask(s, t)
    case WorkEvent(t) => WorkCell(su, s, t)
    case FinishEvent(t) => FinishTask(su, s, t)
    case SentEvent => NotifySent(s)
    case ProcEvent => NotifyProc(s)
  }

  /** Freshly set up: nothing active, memory and slots holding anything. */
  predicate Init(su: Setup, s: State) {
    && Dims(su, s)
    && s.currentArea == 0 && s.currentInputs == 0 && s.activeCount == 0 && s.pendingIn == 0
    && (forall a :: 0 <= a < |s.active| ==> !s.active[a])
    && s.transferQ == [] && s.transfer == Ready && !s.processingAdd && s.sentQ == 0 && s.procQ == []
    && (forall t :: 0 <= t < |s.workers| ==> s.workers[t] == Idle && s.queues[t] == [])
    && s.batches == [] && s.open == [] && s.started == s.moved == s.complete == s.notified == 0
    && (forall k :: 0 <= k < |s.done| ==> s.done[k] == 0)
  }

  lemma {:induction false} CountTrueNone(xs: seq<bool>)
    requires forall a :: 0 <= a < |xs| ==> !xs[a]
    ensures CountTrue(xs) == 0
  {
    if xs != [] { CountTrueNone(xs[..|xs| - 1]); }
  }

  lemma InitInv(su: Setup, s: State)
    requires Init(su, s)
    ensures Inv(su, s)
  {
    hide Nth, ProcRefs, OwnerIndex, MemInv, TaskInv, AreaOf;
    CountTrueNone(s.active);
    AreaRound(su, 0);
    assert Messages(su, [], [], 0) == [];
    InitTasks(su, s);
    InitMem(su, s);
  }

  lemma InitTasks(su: Setup, s: State)
    requires Init(su, s)
    ensures TaskInv(su, s.queues, s.workers, s.done, s.transfer, s.started, s.batches)
  {
    hide Nth, ProcRefs;
    forall t: nat | t < su.cfg.threads ensures Pending(s.workers[t], s.queues[t]) == [] {
      assert s.workers[t] == Idle;
    }
  }

  lemma InitMem(su: Setup, s: State)
    requires Init(su, s)
    ensures MemInv(su, s.mem, s.batches, s.workers, s.done)
  {
    hide Nth, ProcRefs, OwnerIndex;
    forall c: nat, o: nat | InGrid(su.cfg, c, o) ensures Applied(su, s.workers, s.done, c, o) == 0 {
      OwnerCovers(su.cfg, c, o);
      RequestInGrid(su.cfg, OwnerIndex(su.cfg, c, o));
      assert s.workers[Nth(su.cfg, OwnerIndex(su.cfg, c, o)).thread] == Idle;
    }
  }

  lemma StepKept(su: Setup, s: State, e: Event)
    requires Inv(su, s) && Enabled(su, s, e)
    ensures Inv(su, Next(su, s, e))
  {
    hide MainInv, RingInv, TransferInv, SlotsInv, TaskInv, DoneInv, RefsInv, NotifyInv, MemInv, ProcRefs, Nth, BusyOk;
    match e
    case AddEvent(x, flush) => if SubmitCount(su, s, flush) == 0 { AddInputOpen(su, s, x, flush); } else { AddInputSubmit(su, s, x, flush); }
    case FlushEvent => FlushKept(su, s);
    case TransferEvent =>
      if s.transfer.Sending? { TransferSend(su, s); }
      else if s.transferQ[0].submit == 0 { TransferMove(su, s); }
      else { TransferStart(su, s); }
    case StartEvent(t) => TaskDims(su, s); StartKept(su, s, t);
    case WorkEvent(t) => WorkKept(su, s, t);
    case FinishEvent(t) => FinishKept(su, s, t);
    case SentEvent =>
    case ProcEvent => NotifyKept(su, s);
  }

  lemma TaskDims(su: Setup, s: State)
    requires Inv(su, s)
    ensures |s.queues| == |s.workers| == su.cfg.threads
  {
  }

  /** A run: the events are enabled one after the other. */
  predicate IsRun(su: Setup, s: State, es: seq<Event>)
    decreases |es|
  {
    es == [] || (Enabled(su, s, es[0]) && IsRun(su, Next(su, s, es[0]), es[1..]))
  }

  function After(su: Setup, s: State, es: seq<Event>): State
    requires IsRun(su, s, es)
    decreases |es|
  {
    if es == [] then s else After(su, Next(su, s, es[0]), es[1..])
  }

  lemma {:induction false} RunKept(su: Setup, s: State, es: seq<Event>)
    requires Inv(su, s) && IsRun(su, s, es)
    ensures Inv(su, After(su, s, es))
    decreases |es|
  {
    hide Inv, Enabled, Next;
    if es != [] {
      StepKept(su, s, es[0]);
      RunKept(su, Next(su, s, es[0]), es[1..]);
    }
  }

  /** The inputs a run adds, in order. */
  function Added(es: seq<Event>): seq<Input> {
    if es == [] then [] else (if es[0].AddEvent? then [es[0].input] else []) + Added(es[1..])
  }

  lemma StepAccepted(su: Setup, s: State, e: Event)
    requires Inv(su, s) && Enabled(su, s, e)
    ensures Accepted(Next(su, s, e)) == Accepted(s) + if e.AddEvent? then [e.input] else []
  {
    hide RingInv, TransferInv, SlotsInv, TaskInv, DoneInv, RefsInv, NotifyInv, MemInv, ProcRefs, Nth, BusyOk, CellValue;
    match e
    case AddEvent(x, flush) =>
      assert (s.batches + [Batch(s.open + [x], false)])[..|s.batches|] == s.batches;
      assert Accepted(s) + [x] == Flatten(s.batches) + (s.open + [x]);
    case FlushEvent =>
      assert (s.batches + [Batch(s.open, true)])[..|s.batches|] == s.batches;
    case _ =>
  }

  lemma {:induction false} RunAccepted(su: Setup, s: State, es: seq<Event>)
    requires Inv(su, s) && IsRun(su, s, es)
    ensures Accepted(After(su, s, es)) == Accepted(s) + Added(es)
    decreases |es|
  {
    hide Inv, Enabled, Next, Accepted;
    if es != [] {
      StepKept(su, s, es[0]);
      StepAccepted(su, s, es[0]);
      RunAccepted(su, Next(su, s, es[0]), es[1..]);
    }
  }

  /** isEmpty(): nothing active, nothing on its way. */
  predicate IsEmpty(s: State) { s.activeCount == 0 && s.pendingIn == 0 }

  lemma DrainedCounters(su: Setup, s: State)
    requires Inv(su, s) && IsEmpty(s) && s.currentInputs == 0
    ensures s.started == s.complete == s.notified == |s.batches| && s.open == []
    ensures forall k: nat :: k < |s.done| ==> s.done[k] == |s.batches|
    ensures forall t :: 0 <= t < |s.workers| ==> s.workers[t] == Idle && s.queues[t] == []
  {
    hide MemInv, SlotsInv, RefsInv, Nth, BusyOk, AreaOf, Messages, BatchMessages, CountTrue, ProcRefs, Project, Range;
    forall t: nat | t < |s.workers| ensures s.workers[t] == Idle && s.queues[t] == [] {
      if Pending(s.workers[t], s.queues[t]) != [] { PendingTask(su, s, t); }
    }
  }

  /** A thread with work holds some request of a batch that is not complete. */
  lemma PendingTask(su: Setup, s: State, t: nat)
    requires Inv(su, s) && t < |s.workers| && Pending(s.workers[t], s.queues[t]) != []
    ensures s.complete < s.started
  {
    hide MemInv, SlotsInv, RefsInv, Nth, BusyOk, AreaOf, Messages, BatchMessages, CountTrue, ProcRefs, Range;
    var p := Pending(s.workers[t], s.queues[t]);
    var x := p[0];
    assert TaskOk(su, x, t, s.batches);
    ProjectHead(x, p[1..], x.k);
    assert p == [x] + p[1..];
    RangeHead(s.done[x.k], SentOf(s.transfer, s.started, x.k));
  }

  /**
   Whatever the interleaving: once drained, every output cell is the sum of coefficient times
   input over all inputs of the run, each exactly once.
   */
  lemma DrainedResult(su: Setup, s0: State, es: seq<Event>, c: nat, o: nat)
    requires Init(su, s0) && IsRun(su, s0, es) && InGrid(su.cfg, c, o)
    requires var s := After(su, s0, es); IsEmpty(s) && s.currentInputs == 0
    ensures var s := After(su, s0, es);
            && Shaped(su.cfg, Added(es))
            && (Added(es) != [] ==> (c, o) in s.mem && s.mem[(c, o)] == Sum(su.cfg, Added(es), c, o))
  {
    hide Inv, IsRun, After, Init, OwnerIndex, Nth, ProcRefs, Sum, Total, CountTrue, Messages;
    InitInv(su, s0);
    RunKept(su, s0, es);
    RunAccepted(su, s0, es);
    var s := After(su, s0, es);
    InitAccepted(su, s0);
    DrainedCell(su, s, c, o);
    assert [] + Added(es) == Added(es);
  }

  lemma InitAccepted(su: Setup, s: State)
    requires Init(su, s)
    ensures Accepted(s) == []
  {
  }

  lemma DrainedCell(su: Setup, s: State, c: nat, o: nat)
    requires Inv(su, s) && IsEmpty(s) && s.currentInputs == 0 && InGrid(su.cfg, c, o)
    ensures Shaped(su.cfg, Accepted(s))
    ensures Accepted(s) != [] ==> (c, o) in s.mem && s.mem[(c, o)] == Sum(su.cfg, Accepted(s), c, o)
  {
    hide RingInv, SlotsInv, TransferInv, TaskInv, DoneInv, RefsInv, NotifyInv, OwnerIndex, Nth, ProcRefs, Sum, Total, PendingInv;
    DrainedCounters(su, s);
    FlattenShaped(su, s.batches);
    assert Accepted(s) == Flatten(s.batches);
    TotalIsSum(su, s.batches, c, o);
    OwnerCovers(su.cfg, c, o);
    RequestInGrid(su.cfg, OwnerIndex(su.cfg, c, o));
    assert Applied(su, s.workers, s.done, c, o) == |s.batches|;
  }

  // Handing batches over.

  /**
   An input hands over the open batch, with itself at the end, and locks its area: on request, when
   the batch is full, or early while no batch is under way.  Otherwise it waits with the others.
   */
  lemma AddMeans(su: Setup, s: State, x: Input, flush: bool)
    requires Inv(su, s) && CanAdd(su, s, x)
    ensures var s' := AddInput(su, s, x, flush);
            var inputs := |s.open| + 1;
            if flush || inputs == su.batch || (s.notified == |s.batches| && su.areas > 1 && inputs >= su.minBatch) then
              && s'.batches == s.batches + [Batch(s.open + [x], false)] && s'.open == [] && s'.currentInputs == 0
              && s'.activeCount == s.activeCount + 1
              && s.currentArea < |s.active| && s'.active == s.active[s.currentArea := true]
              && s'.transferQ == s.transferQ + [Prepare(s.currentArea, |s.open|, x.data, inputs)]
            else
              && s'.batches == s.batches && s'.open == s.open + [x] && s'.currentInputs == s.currentInputs + 1
              && s'.activeCount == s.activeCount && s'.active == s.active
              && s'.transferQ == s.transferQ + [Prepare(s.currentArea, |s.open|, x.data, 0)]
  {
    hide TransferInv, PendingInv, SlotsInv, TaskInv, DoneInv, RefsInv, NotifyInv, MemInv, CountTrue;
  }

  /** A flush hands over exactly what waits; with nothing waiting it does nothing. */
  lemma FlushMeans(su: Setup, s: State)
    requires Inv(su, s)
    ensures var s' := FlushInputs(su, s);
            && s'.open == [] && s'.currentInputs == 0
            && if s.open == [] then s' == s
               else
                 && s'.batches == s.batches + [Batch(s.open, true)] && s'.activeCount == s.activeCount + 1
                 && s.currentArea < |s.active| && s'.active == s.active[s.currentArea := true]
                 && s'.transferQ == s.transferQ + [Flush(s.currentArea, |s.open|)]
  {
    hide TransferInv, PendingInv, SlotsInv, TaskInv, DoneInv, RefsInv, NotifyInv, MemInv, CountTrue;
  }

  /** Event k asks for what is open to be handed over, and nothing is added after it. */
  predicate FlushedLast(es: seq<Event>, k: nat) {
    && k < |es| && (es[k].FlushEvent? || (es[k].AddEvent? && es[k].flush))
    && forall j :: k < j < |es| ==> !es[j].AddEvent?
  }

  lemma {:induction false} NothingWaits(su: Setup, s: State, es: seq<Event>)
    requires Inv(su, s) && IsRun(su, s, es) && s.open == [] && forall j :: 0 <= j < |es| ==> !es[j].AddEvent?
    ensures var s' := After(su, s, es); s'.open == [] && s'.currentInputs == 0
    decreases |es|
  {
    hide Inv, Enabled, Next;
    if es == [] {
      OpenCounted(su, s);
    } else {
      StepKept(su, s, es[0]);
      StillNone(su, s, es[0]);
      NothingWaits(su, Next(su, s, es[0]), es[1..]);
    }
  }

  lemma OpenCounted(su: Setup, s: State)
    requires Inv(su, s)
    ensures s.currentInputs == |s.open|
  {
  }

  lemma StillNone(su: Setup, s: State, e: Event)
    requires Inv(su, s) && Enabled(su, s, e) && s.open == [] && !e.AddEvent?
    ensures Next(su, s, e).open == []
  {
    hide Inv;
    if e.FlushEvent? { FlushMeans(su, s); }
  }

  lemma FlushedStep(su: Setup, s: State, e: Event)
    requires Inv(su, s) && Enabled(su, s, e) && (e.FlushEvent? || (e.AddEvent? && e.flush))
    ensures Next(su, s, e).open == []
  {
    hide Inv;
    if e.FlushEvent? { FlushMeans(su, s); } else { AddMeans(su, s, e.input, e.flush); }
  }

  /** A run whose last input is flushed, with itself or by a flush after it, leaves no input waiting. */
  lemma {:induction false} FlushedRun(su: Setup, s: State, es: seq<Event>, k: nat)
    requires Inv(su, s) && IsRun(su, s, es) && FlushedLast(es, k)
    ensures After(su, s, es).currentInputs == 0
    decreases |es|
  {
    hide Inv, Enabled, Next;
    StepKept(su, s, es[0]);
    if k == 0 {
      FlushedStep(su, s, es[0]);
      NothingWaits(su, Next(su, s, es[0]), es[1..]);
    } else {
      FlushedRun(su, Next(su, s, es[0]), es[1..], k - 1);
    }
  }

  /**
   So after any such run the threads can drain it by themselves, and then every output cell is the
   sum over all inputs of the run.
   */
  lemma FlushedResult(su: Setup, s0: State, es: seq<Event>, k: nat) returns (more: seq<Event>)
    requires Init(su, s0) && IsRun(su, s0, es) && FlushedLast(es, k)
    ensures IsRun(su, After(su, s0, es), more) && Added(more) == []
    ensures var s := After(su, After(su, s0, es), more);
            && IsEmpty(s) && s.currentInputs == 0 && Shaped(su.cfg, Added(es))
            && forall c: nat, o: nat :: InGrid(su.cfg, c, o) && Added(es) != [] ==>
                 (c, o) in s.mem && s.mem[(c, o)] == Sum(su.cfg, Added(es), c, o)
  {
    hide Inv, IsRun, After, Init, Sum, IsEmpty, Accepted, Shaped;
    InitInv(su, s0);
    InitAccepted(su, s0);
    RunKept(su, s0, es);
    RunAccepted(su, s0, es);
    FlushedRun(su, s0, es, k);
    var s1 := After(su, s0, es);
    more := Drains(su, s1);
    RunKept(su, s1, more);
    RunAccepted(su, s1, more);
    NoneAdded(more);
    OpenCounted(su, s1);
    NothingWaits(su, s1, more);
    assert [] + Added(es) + [] == Added(es);
    forall c: nat, o: nat | InGrid(su.cfg, c, o)
      ensures Shaped(su.cfg, Added(es))
      ensures Added(es) != [] ==>
                (c, o) in After(su, s1, more).mem && After(su, s1, more).mem[(c, o)] == Sum(su.cfg, Added(es), c, o)
    {
      DrainedCell(su, After(su, s1, more), c, o);
    }
    assert InGrid(su.cfg, 0, 0);
  }

  lemma {:induction false} NoneAdded(es: seq<Event>)
    requires Added(es) == []
    ensures forall j :: 0 <= j < |es| ==> !es[j].AddEvent?
    decreases |es|
  {
    if es != [] {
      NoneAdded(es[1..]);
      assert forall j :: 1 <= j < |es| ==> es[j] == es[1..][j - 1];
    }
  }

  // Races.

  /** The cell a working thread is at. */
  function AtCell(su: Setup, s: State, t: nat): Cell
    requires CanWork(su, s, t)
  {
    var w := s.workers[t];
    var r := Nth(su.cfg, w.task.k);
    (r.chunk + w.round, r.firstOut + w.out)
  }

  /** Two threads are never at the same cell, nor will their current requests ever bring them to one. */
  lemma NoSharedCell(su: Setup, s: State, t: nat, t': nat, c: nat, o: nat)
    requires Inv(su, s) && CanWork(su, s, t) && CanWork(su, s, t') && t != t'
    ensures AtCell(su, s, t) != AtCell(su, s, t')
    ensures !(Covers(Nth(su.cfg, s.workers[t].task.k), c, o) && Covers(Nth(su.cfg, s.workers[t'].task.k), c, o))
  {
    hide Inv, OwnerIndex, ProcRefs, Nth;
    CurrentCell(su, s, t);
    CurrentCell(su, s, t');
    var k, k' := s.workers[t].task.k, s.workers[t'].task.k;
    if Covers(Nth(su.cfg, k), c, o) && Covers(Nth(su.cfg, k'), c, o) {
      CoverUnique(su.cfg, k, c, o);
      CoverUnique(su.cfg, k', c, o);
    }
  }

  /** An area a worker reads is active, so the main thread will not write its coefficients. */
  lemma ReaderIsActive(su: Setup, s: State, t: nat)
    requires Inv(su, s) && t < su.cfg.threads && s.workers[t].Busy?
    ensures var a := s.workers[t].task.area; a < |s.active| && s.active[a]
    ensures !s.active[AreaOf(su, |s.batches|)] ==> s.workers[t].task.area != AreaOf(su, |s.batches|)
  {
    hide MainInv, TransferInv, PendingInv, SlotsInv, TaskInv, DoneInv, RefsInv, NotifyInv, MemInv, BusyOk, AreaOf, CountTrue;
    CurrentTask(su, s, t);
    assert s.active[AreaOf(su, s.workers[t].task.batch)];
  }

  /** Nor does the transfer thread store into it. */
  lemma TransferElsewhere(su: Setup, s: State, t: nat)
    requires Inv(su, s) && t < su.cfg.threads && s.workers[t].Busy?
    requires s.transfer == Ready && s.transferQ != []
    ensures s.transferQ[0].area != s.workers[t].task.area
  {
    hide TaskInv, MemInv, SlotsInv, RefsInv, PendingInv, AreaOf, BusyOk, RingInv, DoneInv, NotifyInv, Messages, BatchMessages, ProcRefs, CountTrue, Project;
    CurrentTask(su, s, t);
    NextMessage(su, s);
    MoveBounds(su, s);
    AreaDistinct(su, s.workers[t].task.batch, s.started);
  }

  /** An inactive area has no request left, waiting or running. */
  lemma InactiveIsIdle(su: Setup, s: State, a: nat, t: nat, i: nat)
    requires Inv(su, s) && a < su.areas && !s.active[a]
    requires t < su.cfg.threads && i < |Pending(s.workers[t], s.queues[t])|
    ensures Pending(s.workers[t], s.queues[t])[i].area != a
  {
    hide MainInv, PendingInv, SlotsInv, RefsInv, MemInv, BusyOk, AreaOf, CountTrue, Range, Project, Messages, BatchMessages, Nth, ProcRefs;
    var p := Pending(s.workers[t], s.queues[t]);
    var x := p[i];
    assert TaskOk(su, x, t, s.batches);
    ProjectMember(p, i);
    assert x.batch in Project(p, x.k);
    RangeMember(s.done[x.k], SentOf(s.transfer, s.started, x.k), x.batch);
    assert s.active[AreaOf(su, x.batch)];
  }

  lemma {:induction false} ProjectMember(q: seq<Task>, i: nat)
    requires i < |q|
    ensures q[i].batch in Project(q, q[i].k)
    decreases |q|
  {
    if i < |q| - 1 { ProjectMember(q[..|q| - 1], i); }
  }

  lemma RangeMember(a: nat, b: nat, x: nat)
    requires x in Range(a, b)
    ensures a <= x < b
  {
  }

  /** The active counter is the number of active areas. */
  lemma ActiveCounted(su: Setup, s0: State, es: seq<Event>)
    requires Init(su, s0) && IsRun(su, s0, es)
    ensures var s := After(su, s0, es); s.activeCount == CountTrue(s.active) && s.pendingIn >= 0
  {
    hide IsRun, After, Init, CountTrue;
    InitInv(su, s0);
    RunKept(su, s0, es);
  }

  // Progress.

  /** A step that needs nobody outside: everything but adding and flushing. */
  predicate Internal(e: Event) { !e.AddEvent? && !e.FlushEvent? }

  /** While anything is active or on its way, some thread can move. */
  lemma NeverStuck(su: Setup, s: State) returns (e: Event)
    requires Inv(su, s) && !IsEmpty(s)
    ensures Internal(e) && Enabled(su, s, e)
  {
    hide MemInv, SlotsInv, RefsInv, Nth, AreaOf, BatchMessages, CountTrue, ProcRefs, Project, Range, Messages, CanWork, CanFinish, TaskInv;
    if s.transfer.Sending? || s.transferQ != [] { return TransferEvent; }
    if s.sentQ > 0 { return SentEvent; }
    if s.procQ != [] { return ProcEvent; }
    if s.started < |s.batches| { QueueNotEmpty(su, s); assert false; }
    var k: nat :| k < |s.done| && s.done[k] == s.complete;
    e := WorkerMoves(su, s, k);
  }

  lemma QueueNotEmpty(su: Setup, s: State)
    requires Inv(su, s) && s.started < |s.batches|
    ensures s.transferQ != []
  {
    hide MemInv, SlotsInv, RefsInv, TaskInv, RingInv, DoneInv, NotifyInv, Nth, AreaOf, BatchMessages, CountTrue;
    assert Messages(su, s.batches, s.open, s.started)
           == BatchMessages(su, s.started, s.batches[s.started]) + Messages(su, s.batches, s.open, s.started + 1);
  }

  lemma WorkerMoves(su: Setup, s: State, k: nat) returns (e: Event)
    requires Inv(su, s) && s.transfer == Ready && k < |s.done| && s.done[k] < s.started
    ensures Internal(e) && Enabled(su, s, e)
  {
    hide MemInv, SlotsInv, RefsInv, RingInv, TransferInv, Nth, AreaOf, CountTrue, ProcRefs, Messages, NotifyInv, MainInv;
    RequestInGrid(su.cfg, k);
    var t := Nth(su.cfg, k).thread;
    var p := Pending(s.workers[t], s.queues[t]);
    assert Project(p, k) == Range(s.done[k], s.started);
    assert p != [];
    if s.workers[t] == Idle { return StartEvent(t); }
    CurrentTask(su, s, t);
    assert BusyOk(su, s.workers[t]);
    if s.workers[t].round < Nth(su.cfg, s.workers[t].task.k).chunks { return WorkEvent(t); }
    return FinishEvent(t);
  }

  /** What a worker still has to do for its request. */
  function Effort(su: Setup, w: Worker): int {
    if w.Busy? && w.task.k < ProcRefs(su.cfg) then
      var r := Nth(su.cfg, w.task.k);
      1 + (r.chunks - w.round) * (r.outs + 1) - w.out
    else 0
  }

  function TotalEffort(su: Setup, ws: seq<Worker>): int {
    if ws == [] then 0 else TotalEffort(su, ws[..|ws| - 1]) + Effort(su, ws[|ws| - 1])
  }

  function Queued(qs: seq<seq<Task>>): nat {
    if qs == [] then 0 else Queued(qs[..|qs| - 1]) + |qs[|qs| - 1]|
  }

  function ToSend(su: Setup, t: Transfer): int {
    if t.Sending? then ProcRefs(su.cfg) - t.next + 1 else 0
  }

  lemma {:induction false} EffortSet(su: Setup, ws: seq<Worker>, t: nat, w: Worker)
    requires t < |ws|
    ensures TotalEffort(su, ws[t := w]) == TotalEffort(su, ws) - Effort(su, ws[t]) + Effort(su, w)
    decreases |ws|
  {
    hide Effort;
    var n := |ws| - 1;
    if t == n {
      assert ws[t := w][..n] == ws[..n];
    } else {
      EffortSet(su, ws[..n], t, w);
      assert ws[t := w][..n] == ws[..n][t := w];
    }
  }

  lemma {:induction false} EffortPositive(su: Setup, ws: seq<Worker>)
    requires forall t :: 0 <= t < |ws| ==> BusyOk(su, ws[t])
    ensures TotalEffort(su, ws) >= 0
    decreases |ws|
  {
    hide Effort, BusyOk;
    if ws != [] {
      EffortPositive(su, ws[..|ws| - 1]);
      EffortOne(su, ws[|ws| - 1]);
    }
  }

  lemma EffortOne(su: Setup, w: Worker)
    requires BusyOk(su, w)
    ensures Effort(su, w) >= 0 && (w.Busy? ==> Effort(su, w) >= 1)
  {
    hide Nth, ProcRefs;
    if w.Busy? {
      var r := Nth(su.cfg, w.task.k);
      if w.round < r.chunks { MulLe(1, r.chunks - w.round, r.outs + 1); }
    }
  }

  lemma EffortStep(su: Setup, w: Worker)
    requires BusyOk(su, w) && w.Busy? && w.round < Nth(su.cfg, w.task.k).chunks
    ensures var r := Nth(su.cfg, w.task.k);
            var w' := if w.out + 1 < r.outs then Busy(w.task, w.round, w.out + 1) else Busy(w.task, w.round + 1, 0);
            Effort(su, w') < Effort(su, w)
  {
    hide Nth, ProcRefs;
    var r := Nth(su.cfg, w.task.k);
    Distribute(r.chunks - w.round - 1, 1, r.outs + 1);
  }

  lemma {:induction false} QueuedTail(qs: seq<seq<Task>>, t: nat)
    requires t < |qs| && qs[t] != []
    ensures Queued(qs[t := qs[t][1..]]) < Queued(qs)
    decreases |qs|
  {
    var n := |qs| - 1;
    if t == n {
      assert qs[t := qs[t][1..]][..n] == qs[..n];
    } else {
      QueuedTail(qs[..n], t);
      assert qs[t := qs[t][1..]][..n] == qs[..n][t := qs[t][1..]];
    }
  }

  /** Messages, requests to send, requests queued, cells to compute, notifications: in that order. */
  predicate Closer(su: Setup, a: State, b: State) {
    || |a.transferQ| < |b.transferQ|
    || (|a.transferQ| == |b.transferQ| &&
        (|| ToSend(su, a.transfer) < ToSend(su, b.transfer)
         || (ToSend(su, a.transfer) == ToSend(su, b.transfer) &&
             (|| Queued(a.queues) < Queued(b.queues)
              || (Queued(a.queues) == Queued(b.queues) &&
                  (|| TotalEffort(su, a.workers) < TotalEffort(su, b.workers)
                   || (TotalEffort(su, a.workers) == TotalEffort(su, b.workers)
                       && a.sentQ + |a.procQ| < b.sentQ + |b.procQ|)))))))
  }

  /** Every internal step brings the drained state closer, whichever thread takes it. */
  lemma StepCloser(su: Setup, s: State, e: Event)
    requires Inv(su, s) && Enabled(su, s, e) && Internal(e)
    ensures Closer(su, Next(su, s, e), s)
  {
    hide MainInv, RingInv, TransferInv, SlotsInv, TaskInv, DoneInv, RefsInv, NotifyInv, MemInv, ProcRefs, Nth, BusyOk, Queued, TotalEffort, Effort, CellValue;
    match e
    case TransferEvent => SendingBounds(su, s.transferQ, s.transfer, s.processingAdd, s.batches, s.open, s.started, s.moved);
    case StartEvent(t) => QueuedTail(s.queues, t);
    case WorkEvent(t) =>
      assert BusyOk(su, s.workers[t]);
      EffortStep(su, s.workers[t]);
      EffortSet(su, s.workers, t, WorkCell(su, s, t).workers[t]);
    case FinishEvent(t) =>
      assert BusyOk(su, s.workers[t]);
      EffortOne(su, s.workers[t]);
      EffortSet(su, s.workers, t, Idle);
      IdleEffort(su);
    case SentEvent =>
    case ProcEvent =>
  }

  lemma SendingBounds(su: Setup, transferQ: seq<Message>, transfer: Transfer, processingAdd: bool,
                      batches: seq<Batch>, open: seq<Input>, started: nat, moved: nat)
    requires TransferInv(su, transferQ, transfer, processingAdd, batches, open, started, moved)
    ensures transfer.Sending? ==> transfer.next <= ProcRefs(su.cfg)
  {
  }

  lemma IdleEffort(su: Setup)
    ensures Effort(su, Idle) == 0
  {
  }

  lemma MeasureBounds(su: Setup, s: State)
    requires Inv(su, s)
    ensures ToSend(su, s.transfer) >= 0 && TotalEffort(su, s.workers) >= 0
  {
    hide MainInv, RingInv, SlotsInv, TaskInv, DoneInv, RefsInv, NotifyInv, MemInv, ProcRefs, Nth, BusyOk, TotalEffort, Messages, BatchMessages;
    EffortPositive(su, s.workers);
  }

  /** From every state of every run the threads can drain what was added, without the main thread's help. */
  lemma Drains(su: Setup, s: State) returns (es: seq<Event>)
    requires Inv(su, s)
    ensures IsRun(su, s, es) && Added(es) == [] && IsEmpty(After(su, s, es))
    decreases |s.transferQ|, ToSend(su, s.transfer), Queued(s.queues), TotalEffort(su, s.workers), s.sentQ + |s.procQ|
  {
    hide Inv, Enabled, Next, Queued, TotalEffort, ToSend, IsEmpty;
    if IsEmpty(s) {
      es := [];
    } else {
      var e := NeverStuck(su, s);
      MeasureBounds(su, s);
      StepKept(su, s, e);
      MeasureBounds(su, Next(su, s, e));
      StepCloser(su, s, e);
      var rest := Drains(su, Next(su, s, e));
      es := [e] + rest;
      assert es[1..] == rest;
    }
  }

  // What a step finds where it reads.

  lemma MessageBounds(su: Setup, s: State)
    requires Inv(su, s) && s.transfer == Ready && s.transferQ != []
    ensures var m := s.transferQ[0];
            && m.area < |s.data| == |s.procRefs|
            && (m.Prepare? ==> m.index < |s.data[m.area]|)
  {
    NextMessage(su, s);
    MoveBounds(su, s);
  }

  /** Where a worker is, and that what it adds to is there. */
  lemma WorkMeans(su: Setup, s: State, t: nat)
    requires Inv(su, s) && CanWork(su, s, t)
    ensures t < |s.workers| && s.workers[t].Busy? && s.workers[t].task.k < ProcRefs(su.cfg)
    ensures var w := s.workers[t]; var r := Nth(su.cfg, w.task.k); var cell := AtCell(su, s, t);
            && cell == (r.chunk + w.round, r.firstOut + w.out) && InGrid(su.cfg, cell.0, cell.1)
            && (w.task.add ==> cell in s.mem)
  {
    hide Inv, Nth, Applied, ProcRefs;
    TaskDims(su, s);
    CurrentTask(su, s, t);
    CurrentCell(su, s, t);
    var cell := AtCell(su, s, t);
    MemHas(su, s, cell.0, cell.1);
  }

  /** The slots a worker reads are there. */
  lemma SlotsMean(su: Setup, s: State, t: nat)
    requires Inv(su, s) && CanWork(su, s, t)
    ensures t < |s.workers| && s.workers[t].Busy?
    ensures var x := s.workers[t].task; var ins := Slots(s, x.area, x.num);
            && Shaped(su.cfg, ins) && x.area < |s.data| == |s.coeffs|
            && x.num <= |s.data[x.area]| && x.num <= |s.coeffs[x.area]|
            && forall i :: 0 <= i < x.num ==> ins[i] == Input(s.data[x.area][i], s.coeffs[x.area][i])
  {
    hide MainInv, RingInv, TransferInv, PendingInv, SlotsInv, TaskInv, DoneInv, RefsInv, NotifyInv, MemInv, Nth, ProcRefs, BusyOk;
    CurrentTask(su, s, t);
    SlotsHold(su, s, t);
    BatchShape(su, s, s.workers[t].task.batch);
  }

  lemma BatchShape(su: Setup, s: State, b: nat)
    requires Inv(su, s) && b < |s.batches|
    ensures Shaped(su.cfg, s.batches[b].inputs) && |s.batches[b].inputs| <= su.batch
  {
  }

  lemma MemHas(su: Setup, s: State, c: nat, o: nat)
    requires Inv(su, s) && InGrid(su.cfg, c, o)
    ensures |s.workers| == su.cfg.threads && |s.done| == ProcRefs(su.cfg)
    ensures Applied(su, s.workers, s.done, c, o) > 0 ==> (c, o) in s.mem
  {
  }
}
