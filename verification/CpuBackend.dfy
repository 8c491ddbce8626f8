/**
 The CPU backend as an object: each method is one step of one thread, proved to be the step of
 the state machine and so to keep its invariant.
 */
module CpuBackend {
  import opened Field
  import opened Blocks
  import opened WorkSplit
  import opened Scheduler
  import opened SchedulerProof
  import opened SchedulerRuns

  datatype AddResult = AddOk | AddOkBusy | AddFull

  /** Fields of the main thread. */
  datatype MainThread = MainThread(stagingArea: nat, stagingInputs: nat, activeCount: int, pendingIn: int)

  /** The staging areas, field by field. */
  datatype Staging = Staging(active: seq<bool>, procRefs: seq<int>, src: seq<seq<seq<Block>>>, procCoeffs: seq<seq<seq<Word>>>)

  /** Fields of the transfer thread; sent counts the batches it has begun to send. */
  datatype TransferThread = TransferThread(queue: seq<Message>, phase: Transfer, processingAdd: bool, sent: nat)

  /** Notifications on their way to the main thread. */
  datatype Notices = Notices(sent: nat, proc: seq<nat>)

  /** What happened so far, for the proof only. */
  datatype History = History(batches: seq<Batch>, open: seq<Input>, started: nat, moved: nat, complete: nat,
                             notified: nat, done: seq<nat>)

  class Backend {
    const su: Setup
    var main: MainThread
    var staging: Staging
    var transfer: TransferThread
    var queues: seq<seq<Task>>
    var workers: seq<Worker>
    var memProcessing: map<Cell, Block>
    var notices: Notices
    ghost var past: History

    ghost function Now(): State
      reads this
    {
      State.State(main.stagingArea, main.stagingInputs, main.activeCount, main.pendingIn,
                  staging.active, staging.procRefs, staging.src, staging.procCoeffs,
                  transfer.queue, transfer.phase, transfer.processingAdd,
                  queues, workers, memProcessing, notices.sent, notices.proc,
                  past.batches, past.open, past.started, past.moved, past.complete, past.notified, past.done)
    }

    ghost predicate Valid()
      reads this
    {
      Inv(su, Now()) && transfer.sent == past.started
    }

    constructor (setup: Setup)
      ensures Valid() && su == setup && Init(su, Now())
    {
      su := setup;
      main := MainThread(0, 0, 0, 0);
      staging := Staging(seq(setup.areas, _ => false), seq(setup.areas, _ => 0),
                         seq(setup.areas, _ => seq(setup.batch, _ => [])), seq(setup.areas, _ => seq(setup.batch, _ => [])));
      transfer := TransferThread([], Ready, false, 0);
      queues := seq(setup.cfg.threads, _ => []);
      workers := seq(setup.cfg.threads, _ => Idle);
      memProcessing, notices := map[], Notices(0, []);
      past := History([], [], 0, 0, 0, 0, seq(ProcRefs(setup.cfg), _ => 0));
      new;
      InitInv(su, Now());
    }

    /** canAdd: the next staging area decides, and the one before it tells whether work goes on. */
    method CanAddInput() returns (r: AddResult)
      requires Valid()
      ensures r == AddFull <==> |past.batches| == past.notified + su.areas
      ensures r == AddOk <==> |past.batches| == past.notified
    {
      hide Inv;
      CountersMean(su, Now());
      FreeArea(su, staging.active, main.activeCount, |past.batches|, past.open, past.notified);
      PreviousArea(su, staging.active, main.activeCount, |past.batches|, past.open, past.notified);
      if staging.active[main.stagingArea] { return AddFull; }
      var previous := (if main.stagingArea == 0 then |staging.active| else main.stagingArea) - 1;
      return if staging.active[previous] then AddOkBusy else AddOk;
    }

    /** addInput: refused callers aside, the input joins the open batch, which may be handed over. */
    method AddInput(x: Input, flush: bool)
      requires Valid() && CanAdd(su, Now(), x)
      modifies this
      ensures Valid() && Now() == Scheduler.AddInput(su, old(Now()), x, flush)
      ensures Accepted(Now()) == old(Accepted(Now())) + [x]
      ensures var inputs := old(main.stagingInputs) + 1;
              if flush || inputs == su.batch || (old(main.activeCount) == 0 && su.areas > 1 && inputs >= su.minBatch) then
                && past.batches == old(past.batches) + [Batch(old(past.open) + [x], false)] && main.stagingInputs == 0
                && main.activeCount == old(main.activeCount) + 1
                && old(main.stagingArea) < |old(staging.active)|
                && staging.active == old(staging.active)[old(main.stagingArea) := true]
                && transfer.queue == old(transfer.queue) + [Prepare(old(main.stagingArea), inputs - 1, x.data, inputs)]
              else
                && past.batches == old(past.batches) && past.open == old(past.open) + [x] && main.stagingInputs == inputs
                && main.activeCount == old(main.activeCount) && staging.active == old(staging.active)
                && transfer.queue == old(transfer.queue) + [Prepare(old(main.stagingArea), inputs - 1, x.data, 0)]
    {
      hide Inv, Accepted, Scheduler.AddInput, CanAdd;
      CountersMean(su, Now());
      AddMeans(su, Now(), x, flush);
      var area, index := main.stagingArea, main.stagingInputs;
      var coeffs := staging.procCoeffs[area := staging.procCoeffs[area][index := x.coeffs]];
      var inputs := index + 1;
      var submit := if flush || inputs == su.batch || (main.activeCount == 0 && su.areas > 1 && inputs >= su.minBatch)
                    then inputs else 0;
      if submit > 0 { HandOver(x, flush, coeffs, submit); } else { KeepOpen(x, flush, coeffs); }
    }

    /** The message with the last input of a batch: the area is locked and the next one begun. */
    method HandOver(x: Input, ghost flush: bool, coeffs: seq<seq<seq<Word>>>, submit: nat)
      requires Valid() && CanAdd(su, Now(), x) && submit == SubmitCount(su, Now(), flush) > 0
      requires main.stagingArea < |staging.procCoeffs| && main.stagingInputs < |staging.procCoeffs[main.stagingArea]|
      requires coeffs == staging.procCoeffs[main.stagingArea := staging.procCoeffs[main.stagingArea][main.stagingInputs := x.coeffs]]
      modifies this
      ensures Valid() && Now() == Scheduler.AddInput(su, old(Now()), x, flush)
      ensures Accepted(Now()) == old(Accepted(Now())) + [x]
    {
      hide Inv, Accepted, Scheduler.AddInput, CanAdd, SubmitCount;
      ghost var s := Now();
      CountersMean(su, s);
      var area := main.stagingArea;
      transfer := transfer.(queue := transfer.queue + [Prepare(area, main.stagingInputs, x.data, submit)]);
      staging := staging.(procCoeffs := coeffs, active := staging.active[area := true]);
      main := MainThread(if area + 1 == |staging.active| then 0 else area + 1, 0, main.activeCount + 1, main.pendingIn + 1);
      past := past.(batches := past.batches + [Batch(past.open + [x], false)], open := []);
      AddSubmitIs(su, s, x, flush, coeffs, Now());
    }

    /** A message whose batch stays open. */
    method KeepOpen(x: Input, ghost flush: bool, coeffs: seq<seq<seq<Word>>>)
      requires Valid() && CanAdd(su, Now(), x) && SubmitCount(su, Now(), flush) == 0
      requires main.stagingArea < |staging.procCoeffs| && main.stagingInputs < |staging.procCoeffs[main.stagingArea]|
      requires coeffs == staging.procCoeffs[main.stagingArea := staging.procCoeffs[main.stagingArea][main.stagingInputs := x.coeffs]]
      modifies this
      ensures Valid() && Now() == Scheduler.AddInput(su, old(Now()), x, flush)
      ensures Accepted(Now()) == old(Accepted(Now())) + [x]
    {
      hide Inv, Accepted, Scheduler.AddInput, CanAdd, SubmitCount;
      ghost var s := Now();
      transfer := transfer.(queue := transfer.queue + [Prepare(main.stagingArea, main.stagingInputs, x.data, 0)]);
      staging := staging.(procCoeffs := coeffs);
      main := main.(stagingInputs := main.stagingInputs + 1, pendingIn := main.pendingIn + 1);
      past := past.(open := past.open + [x]);
      AddOpenIs(su, s, x, flush, coeffs, Now());
    }

    /** flush: what has been added so far is handed over with a message of its own. */
    method Flush()
      requires Valid()
      modifies this
      ensures Valid() && Now() == FlushInputs(su, old(Now()))
      ensures main.stagingInputs == 0 && Accepted(Now()) == old(Accepted(Now()))
      ensures if old(main.stagingInputs) == 0 then Now() == old(Now())
              else
                && past.batches == old(past.batches) + [Batch(old(past.open), true)] && past.open == []
                && main.activeCount == old(main.activeCount) + 1
                && old(main.stagingArea) < |old(staging.active)|
                && staging.active == old(staging.active)[old(main.stagingArea) := true]
    {
      hide Inv, Accepted, FlushInputs;
      ghost var s := Now();
      CountersMean(su, s);
      FlushMeans(su, s);
      if main.stagingInputs != 0 {
        var area := main.stagingArea;
        transfer := transfer.(queue := transfer.queue + [Message.Flush(area, main.stagingInputs)]);
        staging := staging.(active := staging.active[area := true]);
        main := MainThread(if area + 1 == |staging.active| then 0 else area + 1, 0, main.activeCount + 1, main.pendingIn + 1);
        past := past.(batches := past.batches + [Batch(past.open, true)], open := []);
      }
      FlushIs(su, s, Now());
    }

    /**
     transfer_slice takes a message; if it hands over a batch, run_kernel begins: the slots hold that
     batch, and its requests will start from zero only if it is the first.  No worker reads the area
     that is written.
     */
    method TransferMessage()
      requires Valid() && transfer.phase == Ready && transfer.queue != []
      modifies this
      ensures Valid() && Now() == TransferStep(su, old(Now()))
      ensures Accepted(Now()) == old(Accepted(Now())) && memProcessing == old(memProcessing)
      ensures transfer.phase.Sending? ==> HandingOver(su, Now())
      ensures !BeingRead(Now(), old(transfer.queue[0].area))
    {
      hide Inv, TransferStep, ProcRefs, Accepted, HandingOver, BeingRead;
      ghost var s := Now();
      MessageBounds(su, s);
      var message := transfer.queue[0];
      if message.Prepare? {
        staging := staging.(src := staging.src[message.area := staging.src[message.area][message.index := message.data]]);
      }
      if message.submit > 0 {
        staging := staging.(procRefs := staging.procRefs[message.area := ProcRefs(su.cfg)]);
        transfer := TransferThread(transfer.queue[1..], Sending(message.area, message.submit, transfer.processingAdd, 0),
                                   true, transfer.sent + 1);
        past := past.(started := past.started + 1, moved := 0);
      } else {
        transfer := transfer.(queue := transfer.queue[1..]);
        notices := notices.(sent := notices.sent + 1);
        past := past.(moved := past.moved + 1);
      }
      MessageIs(su, s, Now());
      MessageEffect(su, s);
    }

    /** run_kernel sends its next request, to the thread it is for, while the slots keep the batch; or it is done sending. */
    method SendNext()
      requires Valid() && transfer.phase.Sending?
      modifies this
      ensures Valid() && Now() == TransferStep(su, old(Now()))
      ensures Accepted(Now()) == old(Accepted(Now())) && memProcessing == old(memProcessing)
      ensures transfer.phase == Ready <==> old(transfer.phase.next) == ProcRefs(su.cfg)
      ensures transfer.phase.Sending? ==> RequestSent(su, old(Now()), Now())
    {
      hide Inv, TransferStep, Nth, ProcRefs, Accepted, RequestSent;
      ghost var s := Now();
      SendingMeans(su, s);
      var phase := transfer.phase;
      if phase.next < ProcRefs(su.cfg) {
        RequestInGrid(su.cfg, phase.next);
        var thread := Nth(su.cfg, phase.next).thread;
        var task := Task(phase.next, phase.area, phase.num, phase.add, transfer.sent - 1);
        queues := queues[thread := queues[thread] + [task]];
        transfer := transfer.(phase := phase.(next := phase.next + 1));
      } else {
        transfer := transfer.(phase := Ready);
        notices := notices.(sent := notices.sent + 1);
      }
      SendIs(su, s, Now());
      SendEffect(su, s);
    }

    /** compute_worker takes a request from its queue: the first batch that this request is due for, whose inputs it finds. */
    method TakeRequest(t: nat)
      requires Valid() && Enabled(su, Now(), StartEvent(t))
      modifies this
      ensures Valid() && Now() == StartTask(old(Now()), t)
      ensures Accepted(Now()) == old(Accepted(Now())) && memProcessing == old(memProcessing)
      ensures t < |workers| && workers[t] == Busy(old(queues[t][0]), 0, 0) && FindsBatch(Now(), workers[t].task)
    {
      hide Inv, Accepted, FindsBatch;
      TakeEffect(su, Now(), t);
      StepKept(su, Now(), StartEvent(t));
      workers := workers[t := Busy(queues[t][0], 0, 0)];
      queues := queues[t := queues[t][1..]];
    }

    /**
     One output of one chunk: cleared on the first batch, then every input multiplied and added.  It
     then holds the sum over all batches up to this one; no other cell changes, and no other thread
     is at this one.
     */
    method ComputeCell(t: nat)
      requires Valid() && CanWork(su, Now(), t)
      modifies this
      ensures Valid() && Now() == WorkCell(su, old(Now()), t)
      ensures Accepted(Now()) == old(Accepted(Now()))
      ensures HoldsTotal(su, Now(), old(AtCell(su, Now(), t)), old(workers[t].task.batch) + 1)
      ensures forall other :: other != old(AtCell(su, Now(), t)) ==>
                (other in memProcessing <==> other in old(memProcessing))
                && (other in memProcessing ==> memProcessing[other] == old(memProcessing)[other])
      ensures forall t' :: t' != t && old(CanWork(su, Now(), t')) ==> old(AtCell(su, Now(), t')) != old(AtCell(su, Now(), t))
    {
      hide Inv, WorkCell, Nth, ProcRefs, CellValue, Accepted, HoldsTotal, CanWork, AtCell;
      ghost var s := Now();
      WorkMeans(su, s, t);
      var task, round, out := workers[t].task, workers[t].round, workers[t].out;
      var request := Nth(su.cfg, task.k);
      var cell := (request.chunk + round, request.firstOut + out);
      var sum := MultiplyAdd(t, cell);
      memProcessing := memProcessing[cell := sum];
      workers := workers[t := if out + 1 < request.outs then Busy(task, round, out + 1) else Busy(task, round + 1, 0)];
      WorkIs(su, s, t, sum, Now());
      WorkEffect(su, s, t);
    }

    /** memset and the multiply-add over the batch's inputs. */
    method MultiplyAdd(t: nat, cell: Cell) returns (sum: Block)
      requires Valid() && CanWork(su, Now(), t) && cell == AtCell(su, Now(), t)
      ensures sum == CellValue(su, Now(), workers[t].task, cell.0, cell.1)
    {
      hide Inv, Nth, ProcRefs, Combine, Add, Scale, CanWork, AtCell, CellValue, Slots;
      ghost var s := Now();
      WorkMeans(su, s, t);
      SlotsMean(su, s, t);
      var (c, o) := cell;
      var task := workers[t].task;
      ghost var ins := Slots(s, task.area, task.num);
      sum := if task.add then memProcessing[cell] else ZeroBlock();
      ghost var before := sum;
      ghost var cs, xs := Coeffs(ins, o), DataOf(ins, c);
      CombineNone(cs, xs, before);
      var i := 0;
      while i < task.num
        invariant 0 <= i <= task.num
        invariant sum == Add(before, Combine(cs[..i], xs[..i]))
      {
        CombineNext(cs, xs, i, before);
        assert ins[i] == Input(staging.src[task.area][i], staging.procCoeffs[task.area][i]);
        sum := Add(sum, Scale(staging.procCoeffs[task.area][i][o], staging.src[task.area][i][c]));
        i := i + 1;
      }
      assert cs[..i] == cs && xs[..i] == xs;
      ValueIs(su, s, task, c, o);
    }

    /**
     The request is done: the countdown drops, and the main thread is notified of the oldest batch's
     area exactly when every request has gone through that batch.
     */
    method FinishRequest(t: nat)
      requires Valid() && CanFinish(su, Now(), t)
      modifies this
      ensures Valid() && Now() == FinishTask(su, old(Now()), t)
      ensures Accepted(Now()) == old(Accepted(Now())) && memProcessing == old(memProcessing)
      ensures notices.proc == old(notices.proc) + if Through(Now(), old(past.complete)) then [AreaOf(su, old(past.complete))] else []
    {
      hide Inv, Nth, ProcRefs, FinishTask, Accepted, Through, AreaOf;
      ghost var s := Now();
      var task := workers[t].task;
      var before := staging.procRefs[task.area];
      staging := staging.(procRefs := staging.procRefs[task.area := before - 1]);
      workers := workers[t := Idle];
      past := past.(done := past.done[task.k := past.done[task.k] + 1],
                    complete := if before <= 1 then past.complete + 1 else past.complete);
      if before <= 1 {
        notices := notices.(proc := notices.proc + [task.area]);
      }
      FinishIs(su, s, t, Now());
      FinishEffect(su, s, t);
    }

    /** _notifySent: what is left of the count are the messages still on their way there or back. */
    method NotifySent()
      requires Valid() && notices.sent > 0
      modifies this
      ensures Valid() && Now() == Scheduler.NotifySent(old(Now()))
      ensures Accepted(Now()) == old(Accepted(Now())) && memProcessing == old(memProcessing)
      ensures main.pendingIn == |transfer.queue| + notices.sent + if transfer.phase.Sending? then 1 else 0
    {
      hide Inv, Accepted;
      SentEffect(su, Now());
      StepKept(su, Now(), SentEvent);
      notices := notices.(sent := notices.sent - 1);
      main := main.(pendingIn := main.pendingIn - 1);
    }

    /** _notifyProc: the area may be used again, for no thread has or will get a request that reads it. */
    method NotifyProc()
      requires Valid() && notices.proc != []
      modifies this
      ensures Valid() && Now() == Scheduler.NotifyProc(old(Now()))
      ensures Accepted(Now()) == old(Accepted(Now())) && memProcessing == old(memProcessing)
      ensures var a := old(notices.proc[0]);
              a < |staging.active| && staging.active == old(staging.active)[a := false] && !BeingRead(Now(), a)
      ensures main.activeCount == old(main.activeCount) - 1 == CountTrue(staging.active)
    {
      hide Inv, Scheduler.NotifyProc, Accepted, BeingRead, CountTrue;
      ghost var s := Now();
      NotifyBounds(su, s);
      main := main.(activeCount := main.activeCount - 1);
      staging := staging.(active := staging.active[notices.proc[0] := false]);
      notices := notices.(proc := notices.proc[1..]);
      past := past.(notified := past.notified + 1);
      ProcIs(su, s, Now());
      ProcEffect(su, s);
    }

    /** What getOutput finds once the backend is empty: the sum over everything accepted. */
    method ReadOutput(c: nat, o: nat) returns (b: Block)
      requires Valid() && IsEmpty(Now()) && main.stagingInputs == 0 && InGrid(su.cfg, c, o)
      requires Accepted(Now()) != []
      ensures Shaped(su.cfg, Accepted(Now())) && b == Sum(su.cfg, Accepted(Now()), c, o)
    {
      hide Inv, Accepted, Sum;
      DrainedCell(su, Now(), c, o);
      b := memProcessing[(c, o)];
    }
  }

  // What the steps mean for those outside.

  /** A request that reads area a is under way or waits in a queue. */
  ghost predicate BeingRead(s: State, a: nat) {
    exists t: nat, i: nat :: t < |s.workers| && t < |s.queues| && i < |Pending(s.workers[t], s.queues[t])|
                             && Pending(s.workers[t], s.queues[t])[i].area == a
  }

  /** The first num slots of an area hold the inputs of batch b, all of them. */
  predicate HoldsBatch(s: State, area: nat, num: nat, b: nat) {
    b < |s.batches| && Slots(s, area, num) == s.batches[b].inputs
  }

  /** While requests are sent, the area holds the batch they are for, and adding is off for the first batch only. */
  predicate HandingOver(su: Setup, s: State) {
    && s.transfer.Sending? && s.started > 0 && s.transfer.area == AreaOf(su, s.started - 1)
    && HoldsBatch(s, s.transfer.area, s.transfer.num, s.started - 1) && (s.transfer.add <==> s.started > 1)
  }

  /** The next request has gone to the end of its thread's queue and nowhere else; its batch is there to be read. */
  predicate RequestSent(su: Setup, s: State, s': State) {
    && s.transfer.Sending? && s.transfer.next < ProcRefs(su.cfg) && |s'.queues| == |s.queues|
    && s'.transfer == s.transfer.(next := s.transfer.next + 1)
    && var t := Nth(su.cfg, s.transfer.next).thread;
       && t < |s.queues| && |s'.queues[t]| == |s.queues[t]| + 1 && s'.queues[t][..|s.queues[t]|] == s.queues[t]
       && (forall t' :: 0 <= t' < |s.queues| && t' != t ==> s'.queues[t'] == s.queues[t'])
       && var x := s'.queues[t][|s.queues[t]|];
          x.k == s.transfer.next && x.batch + 1 == s'.started && HoldsBatch(s', x.area, x.num, x.batch) && (x.add <==> x.batch > 0)
  }

  /** A request finds the inputs of its batch, which is the first that it has not been done for. */
  predicate FindsBatch(s: State, x: Task) {
    HoldsBatch(s, x.area, x.num, x.batch) && x.k < |s.done| && x.batch == s.done[x.k]
  }

  ghost predicate HoldsTotal(su: Setup, s: State, cell: Cell, n: nat) {
    && ShapedBatches(su, s.batches) && n <= |s.batches| && InGrid(su.cfg, cell.0, cell.1)
    && cell in s.mem && s.mem[cell] == Total(su, s.batches, n, cell.0, cell.1)
  }

  /** Every request has gone through batch b. */
  predicate Through(s: State, b: nat) { forall k :: 0 <= k < |s.done| ==> s.done[k] > b }

  lemma SlotsHanded(su: Setup, s: State)
    requires Inv(su, s) && s.transfer.Sending? && s.transfer.next < ProcRefs(su.cfg)
    ensures HandingOver(su, s)
  {
    hide MainInv, PendingInv, TaskInv, RefsInv, MemInv, BusyOk, AreaOf, Messages, BatchMessages, RingInv, ProcRefs, DoneInv;
    var b := s.started - 1;
    SendingFrom(su, s);
    assert DataHeld(su, s.data, b, s.batches[b].inputs, |s.batches[b].inputs|);
    assert CoeffsHeld(su, s.coeffs, b, s.batches[b].inputs);
    forall i | 0 <= i < s.transfer.num ensures Slots(s, s.transfer.area, s.transfer.num)[i] == s.batches[b].inputs[i] {}
  }

  /** A batch with requests still to be sent is not complete. */
  lemma SendingFrom(su: Setup, s: State)
    requires Inv(su, s) && s.transfer.Sending? && s.transfer.next < ProcRefs(su.cfg)
    ensures s.notified <= s.complete < s.started
  {
    hide MainInv, PendingInv, TaskInv, RefsInv, MemInv, BusyOk, AreaOf, Messages, BatchMessages, RingInv, ProcRefs, SlotsInv;
    assert s.complete <= s.done[s.transfer.next] <= SentOf(s.transfer, s.started, s.transfer.next);
  }

  lemma MessageEffect(su: Setup, s: State)
    requires Inv(su, s) && s.transfer == Ready && s.transferQ != []
    ensures var s' := TransferStep(su, s);
            Accepted(s') == Accepted(s) && s'.mem == s.mem && (s'.transfer.Sending? ==> HandingOver(su, s')) && !BeingRead(s', s.transferQ[0].area)
  {
    hide Inv, Accepted, HandingOver;
    StepKept(su, s, TransferEvent);
    StepAccepted(su, s, TransferEvent);
    SomeRequest(su.cfg);
    if TransferStep(su, s).transfer.Sending? { SlotsHanded(su, TransferStep(su, s)); }
    FreshArea(su, s);
  }

  lemma FreshArea(su: Setup, s: State)
    requires Inv(su, s) && s.transfer == Ready && s.transferQ != []
    ensures !BeingRead(s, s.transferQ[0].area)
  {
    hide MemInv, SlotsInv, RefsInv, PendingInv, AreaOf, BusyOk, RingInv, NotifyInv, Messages, BatchMessages, ProcRefs, CountTrue, Project, Nth, Range;
    NextMessage(su, s);
    MoveBounds(su, s);
    forall t: nat, i: nat | t < |s.workers| && t < |s.queues| && i < |Pending(s.workers[t], s.queues[t])|
      ensures Pending(s.workers[t], s.queues[t])[i].area != s.transferQ[0].area
    {
      var p := Pending(s.workers[t], s.queues[t]);
      assert TaskOk(su, p[i], t, s.batches);
      ProjectMember(p, i);
      assert p[i].batch in Project(p, p[i].k);
      RangeMember(s.done[p[i].k], SentOf(s.transfer, s.started, p[i].k), p[i].batch);
      AreaDistinct(su, p[i].batch, s.started);
    }
  }

  lemma SendEffect(su: Setup, s: State)
    requires Inv(su, s) && s.transfer.Sending?
    ensures var s' := TransferStep(su, s);
            && Accepted(s') == Accepted(s) && s'.mem == s.mem && (s'.transfer.Sending? ==> RequestSent(su, s, s'))
            && (s'.transfer == Ready <==> s.transfer.next == ProcRefs(su.cfg))
  {
    hide Inv, Accepted, ProcRefs, Nth;
    StepAccepted(su, s, TransferEvent);
    SendingBound(su, s);
    if s.transfer.next < ProcRefs(su.cfg) {
      RequestInGrid(su.cfg, s.transfer.next);
      TaskDims(su, s);
      SlotsHanded(su, s);
      assert Slots(TransferStep(su, s), s.transfer.area, s.transfer.num) == Slots(s, s.transfer.area, s.transfer.num);
    }
  }

  lemma SendingBound(su: Setup, s: State)
    requires Inv(su, s) && s.transfer.Sending?
    ensures s.transfer.next <= ProcRefs(su.cfg)
  {
  }

  lemma TakeEffect(su: Setup, s: State, t: nat)
    requires Inv(su, s) && Enabled(su, s, StartEvent(t))
    ensures var s' := StartTask(s, t);
            Accepted(s') == Accepted(s) && s'.mem == s.mem && s'.workers[t] == Busy(s.queues[t][0], 0, 0) && FindsBatch(s', s'.workers[t].task)
  {
    hide Inv, Accepted;
    StepKept(su, s, StartEvent(t));
    StepAccepted(su, s, StartEvent(t));
    TaskDims(su, s);
    CurrentTask(su, StartTask(s, t), t);
    SlotsHold(su, StartTask(s, t), t);
  }

  lemma WorkEffect(su: Setup, s: State, t: nat)
    requires Inv(su, s) && CanWork(su, s, t)
    ensures var s' := WorkCell(su, s, t); var cell := AtCell(su, s, t);
            && Accepted(s') == Accepted(s) && HoldsTotal(su, s', cell, s.workers[t].task.batch + 1)
            && (forall other :: other != cell ==> (other in s'.mem <==> other in s.mem)
                                                  && (other in s'.mem ==> s'.mem[other] == s.mem[other]))
            && forall t' :: t' != t && CanWork(su, s, t') ==> AtCell(su, s, t') != cell
  {
    hide Inv, Accepted, Nth, ProcRefs, CellValue, Total;
    StepAccepted(su, s, WorkEvent(t));
    CellIsTotal(su, s, t);
    forall t' | t' != t && CanWork(su, s, t') ensures AtCell(su, s, t') != AtCell(su, s, t) { NoSharedCell(su, s, t, t', 0, 0); }
  }

  lemma FinishEffect(su: Setup, s: State, t: nat)
    requires Inv(su, s) && CanFinish(su, s, t)
    ensures var s' := FinishTask(su, s, t);
            && Accepted(s') == Accepted(s) && s'.mem == s.mem
            && s'.procQ == s.procQ + if Through(s', s.complete) then [AreaOf(su, s.complete)] else []
  {
    hide Inv, Accepted, Nth, ProcRefs, AreaOf;
    StepKept(su, s, FinishEvent(t));
    StepAccepted(su, s, FinishEvent(t));
    TaskDims(su, s);
    CurrentTask(su, s, t);
    CompleteMeans(su, s);
    CompleteMeans(su, FinishTask(su, s, t));
  }

  /** Completed batches are those that all requests have gone through, and their notices are in order. */
  lemma CompleteMeans(su: Setup, s: State)
    requires Inv(su, s)
    ensures s.complete < s.started ==> !Through(s, s.complete)
    ensures forall k :: 0 <= k < |s.done| ==> s.done[k] >= s.complete
    ensures s.procQ != [] ==> s.complete > 0 && s.procQ[|s.procQ| - 1] == AreaOf(su, s.complete - 1)
  {
    hide MainInv, RingInv, TransferInv, PendingInv, SlotsInv, TaskInv, RefsInv, MemInv, ProcRefs, AreaOf, BusyOk;
  }

  lemma SentEffect(su: Setup, s: State)
    requires Inv(su, s) && s.sentQ > 0
    ensures Accepted(NotifySent(s)) == Accepted(s)
    ensures s.pendingIn == |s.transferQ| + s.sentQ + if s.transfer.Sending? then 1 else 0
  {
    hide Accepted;
    StepAccepted(su, s, SentEvent);
  }

  lemma ProcEffect(su: Setup, s: State)
    requires Inv(su, s) && s.procQ != []
    ensures var s' := NotifyProc(s); var a := s.procQ[0];
            && Accepted(s') == Accepted(s) && s'.mem == s.mem
            && a < |s.active| && s'.active == s.active[a := false] && !BeingRead(s', a)
            && s'.activeCount == s.activeCount - 1 == CountTrue(s'.active)
  {
    hide Inv, Accepted, CountTrue;
    StepKept(su, s, ProcEvent);
    StepAccepted(su, s, ProcEvent);
    NotifyBounds(su, s);
    var s', a := NotifyProc(s), s.procQ[0];
    ActiveMeans(su, s');
    forall t: nat, i: nat | t < |s'.workers| && t < |s'.queues| && i < |Pending(s'.workers[t], s'.queues[t])|
      ensures Pending(s'.workers[t], s'.queues[t])[i].area != a
    {
      TaskDims(su, s');
      InactiveIsIdle(su, s', a, t, i);
    }
  }

  lemma ActiveMeans(su: Setup, s: State)
    requires Inv(su, s)
    ensures |s.active| == su.areas && s.activeCount == CountTrue(s.active)
  {
  }

  lemma CountersMean(su: Setup, s: State)
    requires Inv(su, s)
    ensures |s.active| == |s.coeffs| == su.areas && s.currentArea == AreaOf(su, |s.batches|)
    ensures s.currentInputs == |s.open| < su.batch
    ensures |s.coeffs[s.currentArea]| == su.batch
    ensures RingInv(su, s.active, s.activeCount, |s.batches|, s.open, s.notified)
    ensures s.activeCount == |s.batches| - s.notified && |s.batches| <= s.notified + su.areas
  {
  }

  lemma SendingMeans(su: Setup, s: State)
    requires Inv(su, s) && s.transfer.Sending?
    ensures s.started > 0 && |s.queues| == su.cfg.threads
  {
  }

  // What the assignments of each method add up to.

  lemma AddSubmitIs(su: Setup, s: State, x: Input, flush: bool, coeffs: seq<seq<seq<Word>>>, s': State)
    requires Inv(su, s) && CanAdd(su, s, x) && SubmitCount(su, s, flush) > 0
    requires s.currentArea < |s.coeffs| && s.currentInputs < |s.coeffs[s.currentArea]| && s.currentArea < |s.active| == su.areas
    requires coeffs == s.coeffs[s.currentArea := s.coeffs[s.currentArea][s.currentInputs := x.coeffs]]
    requires s' == s.(coeffs := coeffs, pendingIn := s.pendingIn + 1, activeCount := s.activeCount + 1,
                      transferQ := s.transferQ + [Prepare(s.currentArea, s.currentInputs, x.data, SubmitCount(su, s, flush))],
                      active := s.active[s.currentArea := true], currentInputs := 0, currentArea := NextArea(su, s.currentArea),
                      batches := s.batches + [Batch(s.open + [x], false)], open := [])
    ensures s' == AddInput(su, s, x, flush) && Inv(su, s') && Accepted(s') == Accepted(s) + [x]
  {
    hide Inv, Accepted, CanAdd, SubmitCount;
    StepKept(su, s, AddEvent(x, flush));
    StepAccepted(su, s, AddEvent(x, flush));
  }

  lemma AddOpenIs(su: Setup, s: State, x: Input, flush: bool, coeffs: seq<seq<seq<Word>>>, s': State)
    requires Inv(su, s) && CanAdd(su, s, x) && SubmitCount(su, s, flush) == 0
    requires s.currentArea < |s.coeffs| && s.currentInputs < |s.coeffs[s.currentArea]|
    requires coeffs == s.coeffs[s.currentArea := s.coeffs[s.currentArea][s.currentInputs := x.coeffs]]
    requires s' == s.(coeffs := coeffs, pendingIn := s.pendingIn + 1, currentInputs := s.currentInputs + 1, open := s.open + [x],
                      transferQ := s.transferQ + [Prepare(s.currentArea, s.currentInputs, x.data, 0)])
    ensures s' == AddInput(su, s, x, flush) && Inv(su, s') && Accepted(s') == Accepted(s) + [x]
  {
    hide Inv, Accepted, CanAdd, SubmitCount;
    StepKept(su, s, AddEvent(x, flush));
    StepAccepted(su, s, AddEvent(x, flush));
  }

  lemma FlushIs(su: Setup, s: State, s': State)
    requires Inv(su, s) && s.currentArea < |s.active| == su.areas
    requires s' == if s.currentInputs == 0 then s
             else s.(transferQ := s.transferQ + [Message.Flush(s.currentArea, s.currentInputs)],
                     activeCount := s.activeCount + 1, active := s.active[s.currentArea := true], currentInputs := 0,
                     currentArea := NextArea(su, s.currentArea), batches := s.batches + [Batch(s.open, true)],
                     open := [], pendingIn := s.pendingIn + 1)
    ensures s' == FlushInputs(su, s) && Inv(su, s') && Accepted(s') == Accepted(s)
  {
    hide Inv, Accepted;
    StepKept(su, s, FlushEvent);
    StepAccepted(su, s, FlushEvent);
  }

  lemma MessageIs(su: Setup, s: State, s': State)
    requires Inv(su, s) && s.transfer == Ready && s.transferQ != []
    requires var m := s.transferQ[0];
             && m.area < |s.data| == |s.procRefs| && (m.Prepare? ==> m.index < |s.data[m.area]|)
             && var data := if m.Prepare? then s.data[m.area := s.data[m.area][m.index := m.data]] else s.data;
                s' == if m.submit > 0 then
                  s.(transferQ := s.transferQ[1..], data := data, transfer := Sending(m.area, m.submit, s.processingAdd, 0),
                     processingAdd := true, procRefs := s.procRefs[m.area := ProcRefs(su.cfg)], started := s.started + 1, moved := 0)
                else s.(transferQ := s.transferQ[1..], data := data, sentQ := s.sentQ + 1, moved := s.moved + 1)
    ensures s' == TransferStep(su, s) && Inv(su, s')
  {
    hide Inv, ProcRefs;
    StepKept(su, s, TransferEvent);
  }

  lemma SendIs(su: Setup, s: State, s': State)
    requires Inv(su, s) && s.transfer.Sending? && s.started > 0 && |s.queues| == su.cfg.threads
    requires var tr := s.transfer;
             s' == if tr.next < ProcRefs(su.cfg) then
               RequestInGrid(su.cfg, tr.next);
               var t := Nth(su.cfg, tr.next).thread;
               s.(queues := s.queues[t := s.queues[t] + [Task(tr.next, tr.area, tr.num, tr.add, s.started - 1)]],
                  transfer := tr.(next := tr.next + 1))
             else s.(transfer := Ready, sentQ := s.sentQ + 1)
    ensures s' == TransferStep(su, s) && Inv(su, s')
  {
    hide Inv, ProcRefs, Nth;
    if s.transfer.next < ProcRefs(su.cfg) { RequestInGrid(su.cfg, s.transfer.next); }
    StepKept(su, s, TransferEvent);
  }

  lemma ValueIs(su: Setup, s: State, task: Task, c: nat, o: nat)
    requires InGrid(su.cfg, c, o) && (task.add ==> (c, o) in s.mem)
    requires Shaped(su.cfg, Slots(s, task.area, task.num))
    ensures var ins := Slots(s, task.area, task.num);
            CellValue(su, s, task, c, o)
            == Add(if task.add then s.mem[(c, o)] else ZeroBlock(), Combine(Coeffs(ins, o), DataOf(ins, c)))
  {
  }

  lemma WorkIs(su: Setup, s: State, t: nat, sum: Block, s': State)
    requires Inv(su, s) && CanWork(su, s, t)
    requires var cell := AtCell(su, s, t); sum == CellValue(su, s, s.workers[t].task, cell.0, cell.1)
    requires var w := s.workers[t]; var r := Nth(su.cfg, w.task.k);
             s' == s.(mem := s.mem[AtCell(su, s, t) := sum],
                      workers := s.workers[t := if w.out + 1 < r.outs then Busy(w.task, w.round, w.out + 1)
                                                else Busy(w.task, w.round + 1, 0)])
    ensures s' == WorkCell(su, s, t) && Inv(su, s')
  {
    hide Inv, Nth, ProcRefs, CellValue;
    StepKept(su, s, WorkEvent(t));
  }

  lemma FinishIs(su: Setup, s: State, t: nat, s': State)
    requires Inv(su, s) && CanFinish(su, s, t)
    requires var x := s.workers[t].task; var last := s.procRefs[x.area] <= 1;
             s' == s.(procRefs := s.procRefs[x.area := s.procRefs[x.area] - 1], workers := s.workers[t := Idle],
                      done := s.done[x.k := s.done[x.k] + 1],
                      procQ := if last then s.procQ + [x.area] else s.procQ,
                      complete := if last then s.complete + 1 else s.complete)
    ensures s' == FinishTask(su, s, t) && Inv(su, s')
  {
    hide Inv, Nth, ProcRefs;
    StepKept(su, s, FinishEvent(t));
  }

  lemma ProcIs(su: Setup, s: State, s': State)
    requires Inv(su, s) && s.procQ != [] && s.procQ[0] < |s.active|
    requires s' == s.(procQ := s.procQ[1..], activeCount := s.activeCount - 1, active := s.active[s.procQ[0] := false],
                      notified := s.notified + 1)
    ensures s' == NotifyProc(s) && Inv(su, s')
  {
    hide Inv;
    StepKept(su, s, ProcEvent);
  }

  lemma NotifyBounds(su: Setup, s: State)
    requires Inv(su, s) && s.procQ != []
    ensures s.procQ[0] < |s.active|
  {
  }

  lemma CombineNone(cs: seq<Word>, x: seq<Block>, before: Block)
    requires |cs| == |x|
    ensures before == Add(before, Combine(cs[..0], x[..0]))
  {
    hide Add;
    AddLaws(before, ZeroBlock());
  }

  lemma CombineNext(cs: seq<Word>, x: seq<Block>, i: nat, before: Block)
    requires |cs| == |x| && i < |cs|
    ensures Add(Add(before, Combine(cs[..i], x[..i])), Scale(cs[i], x[i])) == Add(before, Combine(cs[..i + 1], x[..i + 1]))
  {
    hide Add, Scale;
    assert cs[..i + 1][..i] == cs[..i] && x[..i + 1][..i] == x[..i];
    AddAssoc(before, Combine(cs[..i], x[..i]), Scale(cs[i], x[i]));
  }
}
