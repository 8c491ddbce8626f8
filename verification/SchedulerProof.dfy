/**
 Every step of the scheduler keeps the invariant, part by part.
 */
module SchedulerProof {
  import opened Arith
  import opened Field
  import opened Blocks
  import opened WorkSplit
  import opened Scheduler

  // The ring.

  /** Batches less than a round apart use different areas; a round later the area is the same. */
  lemma AreaDistinct(su: Setup, b: nat, b': nat)
    requires b < b' < b + su.areas
    ensures AreaOf(su, b) != AreaOf(su, b')
  {
    DivMod(b, su.areas);
    DivMod(b', su.areas);
    var q, q' := b / su.areas, b' / su.areas;
    if b % su.areas == b' % su.areas {
      if q < q' { MulLess(q, q', su.areas); } else { MulLe(q', q, su.areas); }
    }
  }

  lemma AreaRound(su: Setup, b: nat)
    ensures AreaOf(su, b + su.areas) == AreaOf(su, b)
    ensures AreaOf(su, b + 1) == NextArea(su, AreaOf(su, b))
    ensures AreaOf(su, 0) == 0
  {
    DivMod(b, su.areas);
    var q, r := b / su.areas, b % su.areas;
    Distribute(q, 1, su.areas);
    DivUnique(b + su.areas, su.areas, q + 1, r);
    if r + 1 == su.areas { DivUnique(b + 1, su.areas, q + 1, 0); } else { DivUnique(b + 1, su.areas, q, r + 1); }
    DivUnique(0, su.areas, 0, 0);
  }

  lemma {:induction false} CountTrueSet(xs: seq<bool>, i: nat, v: bool)
    requires i < |xs|
    ensures CountTrue(xs[i := v]) == CountTrue(xs) + (if v then 1 else 0) - (if xs[i] then 1 else 0)
    decreases |xs|
  {
    var n := |xs| - 1;
    if i == n {
      assert xs[i := v][..n] == xs[..n];
    } else {
      CountTrueSet(xs[..n], i, v);
      assert xs[i := v][..n] == xs[..n][i := v];
    }
  }

  /** An area is free exactly when its last batch has been notified. */
  lemma FreeArea(su: Setup, active: seq<bool>, activeCount: int, nb: nat, open: seq<Input>, notified: nat)
    requires RingInv(su, active, activeCount, nb, open, notified)
    ensures !active[AreaOf(su, nb)] <==> nb < notified + su.areas
  {
    if nb == notified + su.areas {
      AreaRound(su, notified);
      assert active[AreaOf(su, notified)];
    }
    if active[AreaOf(su, nb)] && nb < notified + su.areas {
      var b: nat :| notified <= b < nb && AreaOf(su, b) == AreaOf(su, nb);
      AreaDistinct(su, b, nb);
    }
  }

  /** The area before is active exactly when some batch is in work. */
  lemma PreviousArea(su: Setup, active: seq<bool>, activeCount: int, nb: nat, open: seq<Input>, notified: nat)
    requires RingInv(su, active, activeCount, nb, open, notified)
    ensures var area := AreaOf(su, nb); active[(if area == 0 then su.areas else area) - 1] <==> nb > notified
  {
    if nb > notified {
      AreaRound(su, nb - 1);
      assert active[AreaOf(su, nb - 1)];
    }
  }

  lemma RingSubmit(su: Setup, active: seq<bool>, activeCount: int, nb: nat, open: seq<Input>, notified: nat)
    requires RingInv(su, active, activeCount, nb, open, notified) && nb < notified + su.areas
    ensures RingInv(su, active[AreaOf(su, nb) := true], activeCount + 1, nb + 1, [], notified)
  {
    hide AreaOf;
    FreeArea(su, active, activeCount, nb, open, notified);
    var a := AreaOf(su, nb);
    CountTrueSet(active, a, true);
    var active' := active[a := true];
    forall a' | 0 <= a' < su.areas && active'[a'] ensures exists b: nat :: notified <= b < nb + 1 && AreaOf(su, b) == a' {
      if a' == a {
        assert notified <= nb < nb + 1;
      } else {
        var b: nat :| notified <= b < nb && AreaOf(su, b) == a';
        assert notified <= b < nb + 1;
      }
    }
  }

  lemma RingNotify(su: Setup, active: seq<bool>, activeCount: int, nb: nat, open: seq<Input>, notified: nat)
    requires RingInv(su, active, activeCount, nb, open, notified) && notified < nb
    ensures RingInv(su, active[AreaOf(su, notified) := false], activeCount - 1, nb, open, notified + 1)
  {
    hide AreaOf;
    var a := AreaOf(su, notified);
    CountTrueSet(active, a, false);
    var active' := active[a := false];
    forall b: nat | notified + 1 <= b < nb ensures active'[AreaOf(su, b)] {
      AreaDistinct(su, notified, b);
    }
    forall a' | 0 <= a' < su.areas && active'[a'] ensures exists b: nat :: notified + 1 <= b < nb && AreaOf(su, b) == a' {
      var b: nat :| notified <= b < nb && AreaOf(su, b) == a';
      assert notified + 1 <= b < nb;
    }
  }

  // Slots.

  lemma CoeffsAdd(su: Setup, coeffs: seq<seq<seq<Word>>>, batches: seq<Batch>, open: seq<Input>, x: Input, notified: nat)
    requires |coeffs| == su.areas && |open| < |coeffs[AreaOf(su, |batches|)]| && |batches| < notified + su.areas
    requires forall b: nat :: notified <= b < |batches| ==> CoeffsHeld(su, coeffs, b, batches[b].inputs)
    requires CoeffsHeld(su, coeffs, |batches|, open)
    ensures var a := AreaOf(su, |batches|); var coeffs' := coeffs[a := coeffs[a][|open| := x.coeffs]];
            && (forall b: nat :: notified <= b < |batches| ==> CoeffsHeld(su, coeffs', b, batches[b].inputs))
            && CoeffsHeld(su, coeffs', |batches|, open + [x])
  {
    hide AreaOf;
    var a := AreaOf(su, |batches|);
    var coeffs' := coeffs[a := coeffs[a][|open| := x.coeffs]];
    forall b: nat | notified <= b < |batches| ensures CoeffsHeld(su, coeffs', b, batches[b].inputs) {
      AreaDistinct(su, b, |batches|);
      CoeffsSame(su, coeffs, coeffs', b, batches[b].inputs);
    }
  }

  lemma CoeffsSame(su: Setup, coeffs: seq<seq<seq<Word>>>, coeffs': seq<seq<seq<Word>>>, b: nat, ins: seq<Input>)
    requires |coeffs| == |coeffs'| == su.areas && coeffs[AreaOf(su, b)] == coeffs'[AreaOf(su, b)]
    requires CoeffsHeld(su, coeffs, b, ins)
    ensures CoeffsHeld(su, coeffs', b, ins)
  {
    forall i | 0 <= i < |ins| ensures coeffs'[AreaOf(su, b)][i] == ins[i].coeffs {
      assert coeffs[AreaOf(su, b)][i] == ins[i].coeffs;
    }
  }

  lemma DataSame(su: Setup, data: seq<seq<seq<Block>>>, data': seq<seq<seq<Block>>>, b: nat, ins: seq<Input>,
                 ins': seq<Input>, n: nat)
    requires |data| == |data'| == su.areas && data[AreaOf(su, b)] == data'[AreaOf(su, b)]
    requires DataHeld(su, data, b, ins, n) && n <= |ins'| && forall i :: 0 <= i < n ==> ins[i] == ins'[i]
    ensures DataHeld(su, data', b, ins', n)
  {
    forall i | 0 <= i < n ensures data'[AreaOf(su, b)][i] == ins'[i].data {
      assert data[AreaOf(su, b)][i] == ins[i].data;
    }
  }

  /** Closing the open batch changes which inputs are where in name only. */
  lemma SlotsSubmit(su: Setup, data: seq<seq<seq<Block>>>, coeffs: seq<seq<seq<Word>>>, coeffs': seq<seq<seq<Word>>>,
                    batches: seq<Batch>, open: seq<Input>, batch: Batch, started: nat, moved: nat, notified: nat)
    requires SlotsInv(su, data, coeffs, batches, open, started, moved, notified) && |coeffs'| == |coeffs|
    requires open <= batch.inputs && (started == |batches| ==> moved <= |open|)
    requires forall b: nat :: notified <= b < |batches| ==> CoeffsHeld(su, coeffs', b, batches[b].inputs)
    requires CoeffsHeld(su, coeffs', |batches|, batch.inputs)
    ensures SlotsInv(su, data, coeffs', batches + [batch], [], started, moved, notified)
  {
    hide AreaOf, CoeffsHeld;
    var bs := batches + [batch];
    NoCoeffs(su, coeffs', |bs|);
    DataSame(su, data, data, started, InputsOf(batches, open, started), InputsOf(bs, [], started), moved);
    forall b: nat | notified <= b < started ensures DataHeld(su, data, b, bs[b].inputs, |bs[b].inputs|) {
      assert bs[b] == batches[b];
    }
  }

  lemma TransferSubmit(su: Setup, transferQ: seq<Message>, transfer: Transfer, processingAdd: bool, batches: seq<Batch>,
                       open: seq<Input>, started: nat, moved: nat, batch: Batch, m: Message)
    requires TransferInv(su, transferQ, transfer, processingAdd, batches, open, started, moved)
    requires |open| < |BatchMessages(su, |batches|, batch)|
    requires Messages(su, batches + [batch], [], started) == Messages(su, batches, open, started) + [m]
    ensures TransferInv(su, transferQ + [m], transfer, processingAdd, batches + [batch], [], started, moved)
  {
    hide AreaOf, Messages, BatchMessages;
    var bs := batches + [batch];
    assert started < |batches| ==> bs[started] == batches[started];
    assert transfer.Sending? ==> bs[started - 1] == batches[started - 1];
  }

  lemma MainSubmit(su: Setup, currentArea: nat, currentInputs: nat, batches: seq<Batch>, open: seq<Input>, batch: Batch)
    requires MainInv(su, currentArea, currentInputs, batches, open) && ShapedBatches(su, batches + [batch])
    ensures MainInv(su, NextArea(su, currentArea), 0, batches + [batch], [])
  {
    hide AreaOf, NextArea, ShapedBatches;
    AreaRound(su, |batches|);
  }

  // Adding an input.

  predicate CanAdd(su: Setup, s: State, x: Input) {
    Dims(su, s) && s.currentArea < su.areas && !s.active[s.currentArea] && Shaped(su.cfg, [x])
  }

  lemma AddKept(su: Setup, s: State, x: Input, flush: bool)
    requires Inv(su, s) && CanAdd(su, s, x)
    ensures |s.batches| < s.notified + su.areas && s.open + [x] != []
    ensures Shaped(su.cfg, s.open + [x]) && |s.open| + 1 <= su.batch
    ensures var a := AreaOf(su, |s.batches|);
            a < |s.coeffs| && |s.open| < |s.coeffs[a]|
            && AddInput(su, s, x, flush).coeffs == s.coeffs[a := s.coeffs[a][|s.open| := x.coeffs]]
  {
    FreeArea(su, s.active, s.activeCount, |s.batches|, s.open, s.notified);
    assert [x][0] == x;
  }

  lemma AddInputOpen(su: Setup, s: State, x: Input, flush: bool)
    requires Inv(su, s) && CanAdd(su, s, x) && SubmitCount(su, s, flush) == 0
    ensures Inv(su, AddInput(su, s, x, flush))
  {
    hide AreaOf, TaskInv, DoneInv, RefsInv, NotifyInv, BusyOk, MemInv, Messages, BatchMessages, CoeffsHeld, SentOf, CountTrue, ProcRefs;
    AddKept(su, s, x, flush);
    MessagesAdd(su, s.batches, s.open, x, s.started);
    CoeffsAdd(su, s.coeffs, s.batches, s.open, x, s.notified);
  }

  /** A batch is closed: what the steps that submit one have in common. */
  lemma BatchesGrow(su: Setup, s: State, batch: Batch)
    requires Inv(su, s) && Shaped(su.cfg, batch.inputs) && 1 <= |batch.inputs| <= su.batch
    ensures var bs := s.batches + [batch];
            && ShapedBatches(su, bs)
            && TaskInv(su, s.queues, s.workers, s.done, s.transfer, s.started, bs)
            && MemInv(su, s.mem, bs, s.workers, s.done)
  {
    hide AreaOf, RingInv, TransferInv, SlotsInv, DoneInv, RefsInv, NotifyInv, BusyOk, Project, Range, SentOf, Nth, Total, Applied, Sum, ProcRefs;
    var bs := s.batches + [batch];
    assert s.batches <= bs;
    forall c: nat, o: nat | InGrid(su.cfg, c, o) && Applied(su, s.workers, s.done, c, o) > 0
      ensures s.mem[(c, o)] == Total(su, bs, Applied(su, s.workers, s.done, c, o), c, o)
    {
      TotalPrefix(su, s.batches, bs, Applied(su, s.workers, s.done, c, o), c, o);
    }
  }

  lemma AddInputSubmit(su: Setup, s: State, x: Input, flush: bool)
    requires Inv(su, s) && CanAdd(su, s, x) && SubmitCount(su, s, flush) > 0
    ensures Inv(su, AddInput(su, s, x, flush))
  {
    hide AreaOf, TaskInv, DoneInv, RefsInv, NotifyInv, BusyOk, MemInv, Messages, CoeffsHeld, SentOf, CountTrue, ProcRefs, TransferInv, SlotsInv, RingInv, MainInv, ShapedBatches;
    AddKept(su, s, x, flush);
    MainMeans(su, s.currentArea, s.currentInputs, s.batches, s.open);
    TransferMeans(su, s.transferQ, s.transfer, s.processingAdd, s.batches, s.open, s.started, s.moved);
    SlotsMeans(su, s.data, s.coeffs, s.batches, s.open, s.started, s.moved, s.notified);
    var batch := Batch(s.open + [x], false);
    MessagesSubmit(su, s.batches, s.open, x, s.started);
    CoeffsAdd(su, s.coeffs, s.batches, s.open, x, s.notified);
    RingSubmit(su, s.active, s.activeCount, |s.batches|, s.open, s.notified);
    BatchesGrow(su, s, batch);
    MainSubmit(su, s.currentArea, s.currentInputs, s.batches, s.open, batch);
    TransferSubmit(su, s.transferQ, s.transfer, s.processingAdd, s.batches, s.open, s.started, s.moved, batch,
                   Prepare(s.currentArea, s.currentInputs, x.data, s.currentInputs + 1));
    SlotsSubmit(su, s.data, s.coeffs, AddInput(su, s, x, flush).coeffs, s.batches, s.open, batch, s.started, s.moved, s.notified);
  }

  lemma MainMeans(su: Setup, currentArea: nat, currentInputs: nat, batches: seq<Batch>, open: seq<Input>)
    requires MainInv(su, currentArea, currentInputs, batches, open)
    ensures currentArea == AreaOf(su, |batches|) && currentInputs == |open| < su.batch && Shaped(su.cfg, open)
    ensures ShapedBatches(su, batches)
  {
  }

  lemma TransferMeans(su: Setup, transferQ: seq<Message>, transfer: Transfer, processingAdd: bool,
                      batches: seq<Batch>, open: seq<Input>, started: nat, moved: nat)
    requires TransferInv(su, transferQ, transfer, processingAdd, batches, open, started, moved)
    ensures started <= |batches| && (started == |batches| ==> moved <= |open|)
  {
  }

  lemma SlotsMeans(su: Setup, data: seq<seq<seq<Block>>>, coeffs: seq<seq<seq<Word>>>, batches: seq<Batch>,
                   open: seq<Input>, started: nat, moved: nat, notified: nat)
    requires SlotsInv(su, data, coeffs, batches, open, started, moved, notified)
    ensures |data| == |coeffs| == su.areas
    ensures forall b: nat :: notified <= b < |batches| ==> CoeffsHeld(su, coeffs, b, batches[b].inputs)
    ensures CoeffsHeld(su, coeffs, |batches|, open)
  {
  }

  lemma NoCoeffs(su: Setup, coeffs: seq<seq<seq<Word>>>, b: nat)
    requires |coeffs| == su.areas
    ensures CoeffsHeld(su, coeffs, b, [])
  {
  }

  lemma FlushKept(su: Setup, s: State)
    requires Inv(su, s)
    ensures Inv(su, FlushInputs(su, s))
  {
    hide AreaOf, TaskInv, DoneInv, RefsInv, NotifyInv, BusyOk, MemInv, Messages, CoeffsHeld, SentOf, CountTrue, ProcRefs, TransferInv, SlotsInv, RingInv, MainInv, ShapedBatches;
    MainMeans(su, s.currentArea, s.currentInputs, s.batches, s.open);
    if s.currentInputs != 0 {
      TransferMeans(su, s.transferQ, s.transfer, s.processingAdd, s.batches, s.open, s.started, s.moved);
      SlotsMeans(su, s.data, s.coeffs, s.batches, s.open, s.started, s.moved, s.notified);
      RingOpen(su, s.active, s.activeCount, |s.batches|, s.open, s.notified);
      var batch := Batch(s.open, true);
      MessagesFlush(su, s.batches, s.open, s.started);
      RingSubmit(su, s.active, s.activeCount, |s.batches|, s.open, s.notified);
      BatchesGrow(su, s, batch);
      MainSubmit(su, s.currentArea, s.currentInputs, s.batches, s.open, batch);
      TransferSubmit(su, s.transferQ, s.transfer, s.processingAdd, s.batches, s.open, s.started, s.moved, batch,
                     Flush(s.currentArea, s.currentInputs));
      SlotsSubmit(su, s.data, s.coeffs, s.coeffs, s.batches, s.open, batch, s.started, s.moved, s.notified);
    }
  }

  lemma RingOpen(su: Setup, active: seq<bool>, activeCount: int, nb: nat, open: seq<Input>, notified: nat)
    requires RingInv(su, active, activeCount, nb, open, notified)
    ensures |active| == su.areas && notified <= nb && (open != [] ==> nb < notified + su.areas)
  {
  }

  // The transfer thread.

  /** The message at the head of the queue, and what follows it. */
  lemma NextMessage(su: Setup, s: State)
    requires TransferInv(su, s.transferQ, s.transfer, s.processingAdd, s.batches, s.open, s.started, s.moved)
    requires s.transferQ != [] && ShapedBatches(su, s.batches)
    ensures var m := s.transferQ[0]; var ins := InputsOf(s.batches, s.open, s.started); var a := AreaOf(su, s.started);
            && m.area == a
            && (m.Prepare? ==> m.index == s.moved < |ins| && m.data == ins[s.moved].data)
            && (m.Flush? ==> s.moved == |ins| && s.started < |s.batches|)
            && (m.submit > 0 ==>
                  && s.started < |s.batches| && m.submit == |ins| && (m.Prepare? ==> s.moved + 1 == |ins|)
                  && s.transferQ[1..] == Messages(su, s.batches, s.open, s.started + 1))
            && (m.submit == 0 ==>
                  && m.Prepare? && s.moved < |Messages(su, s.batches, s.open, s.started)|
                  && s.transferQ[1..] == Messages(su, s.batches, s.open, s.started)[s.moved + 1..]
                  && (if s.started < |s.batches| then s.moved + 1 < |BatchMessages(su, s.started, s.batches[s.started])|
                      else s.moved + 1 <= |s.open|))
  {
    hide AreaOf;
    var all := Messages(su, s.batches, s.open, s.started);
    assert s.transferQ[0] == all[s.moved];
    assert s.transferQ[1..] == all[s.moved + 1..];
    if s.started < |s.batches| {
      var ms := BatchMessages(su, s.started, s.batches[s.started]);
      assert all[s.moved] == ms[s.moved];
      if s.moved + 1 == |ms| {
        assert all[s.moved + 1..] == Messages(su, s.batches, s.open, s.started + 1);
      }
    }
  }

  lemma {:induction false} RemainingAll(done: seq<nat>, b: nat)
    requires forall k :: 0 <= k < |done| ==> done[k] <= b
    ensures Remaining(done, b) == |done|
    decreases |done|
  {
    if done != [] { RemainingAll(done[..|done| - 1], b); }
  }

  /** Some request is always sent. */
  lemma SomeRequest(cfg: Config)
    ensures ProcRefs(cfg) > 0
  {
    FullOrLeftover(cfg);
    if LeftoverChunks(cfg) > 0 { MulLe(1, LeftoverChunks(cfg), ThreadsPerChunk(cfg)); }
  }

  /** A slot of the batch being moved is written: no batch that is still needed shares its area. */
  lemma DataMove(su: Setup, data: seq<seq<seq<Block>>>, coeffs: seq<seq<seq<Word>>>, batches: seq<Batch>,
                 open: seq<Input>, started: nat, moved: nat, notified: nat)
    requires SlotsInv(su, data, coeffs, batches, open, started, moved, notified)
    requires started < notified + su.areas && moved < |InputsOf(batches, open, started)|
    requires moved < |data[AreaOf(su, started)]|
    ensures var a := AreaOf(su, started); var ins := InputsOf(batches, open, started);
            SlotsInv(su, data[a := data[a][moved := ins[moved].data]], coeffs, batches, open, started, moved + 1, notified)
  {
    hide AreaOf, CoeffsHeld;
    var a, ins := AreaOf(su, started), InputsOf(batches, open, started);
    var data' := data[a := data[a][moved := ins[moved].data]];
    forall b: nat | notified <= b < started ensures DataHeld(su, data', b, batches[b].inputs, |batches[b].inputs|) {
      AreaDistinct(su, b, started);
      DataSame(su, data, data', b, batches[b].inputs, batches[b].inputs, |batches[b].inputs|);
    }
  }

  /** A whole batch is in place. */
  lemma SlotsStart(su: Setup, data: seq<seq<seq<Block>>>, coeffs: seq<seq<seq<Word>>>, batches: seq<Batch>,
                   open: seq<Input>, started: nat, notified: nat)
    requires started < |batches|
    requires SlotsInv(su, data, coeffs, batches, open, started, |batches[started].inputs|, notified)
    ensures SlotsInv(su, data, coeffs, batches, open, started + 1, 0, notified)
  {
    hide AreaOf, CoeffsHeld;
  }

  lemma MoveBounds(su: Setup, s: State)
    requires Inv(su, s) && s.transfer == Ready && s.transferQ != []
    ensures s.started < s.notified + su.areas && s.notified <= s.complete <= s.started <= |s.batches|
    ensures |s.data| == su.areas && forall a :: 0 <= a < su.areas ==> |s.data[a]| == su.batch
    ensures |InputsOf(s.batches, s.open, s.started)| <= su.batch
  {
    hide TaskInv, MemInv, SlotsInv, RefsInv, PendingInv, Project, AreaOf, CountTrue, BusyOk, BatchMessages;
    NextMessage(su, s);
    RingOpen(su, s.active, s.activeCount, |s.batches|, s.open, s.notified);
    RingBounds(su, s.active, s.activeCount, |s.batches|, s.open, s.notified);
  }

  lemma RingBounds(su: Setup, active: seq<bool>, activeCount: int, nb: nat, open: seq<Input>, notified: nat)
    requires RingInv(su, active, activeCount, nb, open, notified)
    ensures notified <= nb <= notified + su.areas && activeCount == nb - notified
  {
  }

  /** The data of the message at the head is stored where it belongs. */
  lemma MovedSlots(su: Setup, s: State)
    requires Inv(su, s) && s.transfer == Ready && s.transferQ != []
    ensures var m := s.transferQ[0]; var n := s.moved + if m.Prepare? then 1 else 0;
            SlotsInv(su, TransferStep(su, s).data, s.coeffs, s.batches, s.open, s.started, n, s.notified)
  {
    hide TaskInv, MemInv, SlotsInv, RefsInv, PendingInv, AreaOf, BusyOk, RingInv, DoneInv, NotifyInv, Messages, BatchMessages, ProcRefs, CountTrue, Project;
    NextMessage(su, s);
    MoveBounds(su, s);
    if s.transferQ[0].Prepare? {
      DataMove(su, s.data, s.coeffs, s.batches, s.open, s.started, s.moved, s.notified);
    }
  }

  lemma TransferMove(su: Setup, s: State)
    requires Inv(su, s) && s.transfer == Ready && s.transferQ != [] && s.transferQ[0].submit == 0
    ensures Inv(su, TransferStep(su, s))
  {
    hide TaskInv, MemInv, SlotsInv, RefsInv, AreaOf, BusyOk, RingInv, DoneInv, NotifyInv, Messages, BatchMessages, ProcRefs, CountTrue, Project, MainInv;
    MainMeans(su, s.currentArea, s.currentInputs, s.batches, s.open);
    NextMessage(su, s);
    MovedSlots(su, s);
  }

  /** The tasks in the queues and the countdowns do not notice that a batch is about to be sent. */
  lemma StartCounts(su: Setup, s: State)
    requires Inv(su, s) && s.transfer == Ready && s.transferQ != [] && s.transferQ[0].submit > 0
    ensures var s' := TransferStep(su, s);
            && TaskInv(su, s'.queues, s'.workers, s'.done, s'.transfer, s'.started, s'.batches)
            && DoneInv(su, s'.done, s'.complete, s'.transfer, s'.started)
            && RefsInv(su, s'.procRefs, s'.done, s'.complete, s'.started)
  {
    hide MemInv, SlotsInv, AreaOf, BusyOk, RingInv, NotifyInv, Messages, BatchMessages, ProcRefs, CountTrue, Project, MainInv, TransferInv, TaskOk, Range, Nth, Remaining;
    MainMeans(su, s.currentArea, s.currentInputs, s.batches, s.open);
    NextMessage(su, s);
    MoveBounds(su, s);
    SomeRequest(su.cfg);
    RemainingAll(s.done, s.started);
    forall b: nat | s.complete <= b < s.started ensures AreaOf(su, b) != AreaOf(su, s.started) {
      AreaDistinct(su, b, s.started);
    }
    if s.complete == s.started { assert s.done[0] == s.complete; }
  }

  lemma TransferStart(su: Setup, s: State)
    requires Inv(su, s) && s.transfer == Ready && s.transferQ != [] && s.transferQ[0].submit > 0
    ensures Inv(su, TransferStep(su, s))
  {
    hide TaskInv, MemInv, SlotsInv, RefsInv, AreaOf, BusyOk, RingInv, DoneInv, NotifyInv, Messages, ProcRefs, CountTrue, Project, MainInv;
    MainMeans(su, s.currentArea, s.currentInputs, s.batches, s.open);
    NextMessage(su, s);
    MovedSlots(su, s);
    StartCounts(su, s);
    SlotsStart(su, TransferStep(su, s).data, s.coeffs, s.batches, s.open, s.started, s.notified);
  }

  lemma PendingSnoc(w: Worker, q: seq<Task>, x: Task, k: nat)
    ensures Pending(w, q + [x]) == Pending(w, q) + [x]
    ensures Project(Pending(w, q + [x]), k) == Project(Pending(w, q), k) + if x.k == k then [x.batch] else []
  {
    assert Pending(w, q + [x]) == Pending(w, q) + [x];
    assert (Pending(w, q) + [x])[..|Pending(w, q)|] == Pending(w, q);
  }

  lemma RangeSnoc(a: nat, b: nat)
    requires a <= b
    ensures Range(a, b) + [b] == Range(a, b + 1)
  {
  }

  /** One request is sent to its thread. */
  lemma SendTasks(su: Setup, s: State)
    requires Inv(su, s) && s.transfer.Sending? && s.transfer.next < ProcRefs(su.cfg)
    ensures var s' := TransferStep(su, s);
            && TaskInv(su, s'.queues, s'.workers, s'.done, s'.transfer, s'.started, s'.batches)
  {
    hide MemInv, SlotsInv, AreaOf, BusyOk, RingInv, NotifyInv, RefsInv, Messages, BatchMessages, ProcRefs, CountTrue, Project, MainInv, Range, Nth, Pending;
    var s', next := TransferStep(su, s), s.transfer.next;
    RequestInGrid(su.cfg, next);
    var t0 := Nth(su.cfg, next).thread;
    var x := Task(next, s.transfer.area, s.transfer.num, s.transfer.add, s.started - 1);
    forall t: nat, i: nat | t < su.cfg.threads && i < |Pending(s'.workers[t], s'.queues[t])|
      ensures TaskOk(su, Pending(s'.workers[t], s'.queues[t])[i], t, s.batches)
    {
      if t == t0 { PendingSnoc(s.workers[t], s.queues[t], x, 0); }
    }
    forall k: nat, t: nat | k < ProcRefs(su.cfg) && t < su.cfg.threads && Nth(su.cfg, k).thread == t
      ensures Project(Pending(s'.workers[t], s'.queues[t]), k) == Range(s.done[k], SentOf(s'.transfer, s.started, k))
    {
      if t == t0 { PendingSnoc(s.workers[t], s.queues[t], x, k); }
      if k == next { RangeSnoc(s.done[k], s.started - 1); }
    }
  }

  lemma TransferSend(su: Setup, s: State)
    requires Inv(su, s) && s.transfer.Sending?
    ensures Inv(su, TransferStep(su, s))
  {
    hide TaskInv, MemInv, SlotsInv, RefsInv, AreaOf, BusyOk, RingInv, NotifyInv, Messages, BatchMessages, ProcRefs, CountTrue, Project, MainInv, Nth;
    if s.transfer.next < ProcRefs(su.cfg) {
      SendTasks(su, s);
    } else {
      SentAll(su, s.queues, s.workers, s.done, s.transfer, s.started, s.batches);
    }
  }

  lemma SentAll(su: Setup, queues: seq<seq<Task>>, workers: seq<Worker>, done: seq<nat>, transfer: Transfer,
                started: nat, batches: seq<Batch>)
    requires TaskInv(su, queues, workers, done, transfer, started, batches)
    requires transfer.Sending? && transfer.next >= ProcRefs(su.cfg)
    ensures TaskInv(su, queues, workers, done, Ready, started, batches)
  {
    hide ProcRefs, Nth, Project, Range, Pending, TaskOk;
  }

  // The workers.

  lemma {:induction false} ProjectHead(x: Task, q: seq<Task>, k: nat)
    ensures Project([x] + q, k) == (if x.k == k then [x.batch] else []) + Project(q, k)
    decreases |q|
  {
    if q == [] {
      assert [x] + q == [x] && [x][..0] == [];
    } else {
      var n := |q| - 1;
      ProjectHead(x, q[..n], k);
      assert ([x] + q)[..|[x] + q| - 1] == [x] + q[..n];
    }
  }

  lemma RangeHead(a: nat, b: nat)
    requires Range(a, b) != []
    ensures a < b && Range(a, b) == [a] + Range(a + 1, b)
  {
  }

  lemma StartKept(su: Setup, s: State, t: nat)
    requires Inv(su, s) && t < su.cfg.threads && s.workers[t] == Idle && s.queues[t] != []
    ensures Inv(su, StartTask(s, t))
  {
    hide MainInv, RingInv, TransferInv, PendingInv, SlotsInv, DoneInv, RefsInv, NotifyInv, TaskInv, MemInv, ProcRefs, Nth;
    StartTasks(su, s, t);
    StartMem(su, s, t);
  }

  lemma StartTasks(su: Setup, s: State, t: nat)
    requires Inv(su, s) && t < su.cfg.threads && s.workers[t] == Idle && s.queues[t] != []
    ensures var s' := StartTask(s, t);
            && TaskInv(su, s'.queues, s'.workers, s'.done, s'.transfer, s'.started, s'.batches)
            && s.queues[t][0].k < ProcRefs(su.cfg) && BusyOk(su, s'.workers[t])
  {
    hide MainInv, RingInv, TransferInv, PendingInv, SlotsInv, DoneInv, RefsInv, NotifyInv, MemInv, ProcRefs, Nth, Project, Range, SentOf;
    var s' := StartTask(s, t);
    assert Pending(s'.workers[t], s'.queues[t]) == Pending(s.workers[t], s.queues[t]);
    assert TaskOk(su, Pending(s.workers[t], s.queues[t])[0], t, s.batches);
  }

  /** At the start of a request none of its cells has been passed. */
  lemma StartMem(su: Setup, s: State, t: nat)
    requires Inv(su, s) && t < su.cfg.threads && s.workers[t] == Idle && s.queues[t] != []
    ensures MemInv(su, s.mem, s.batches, StartTask(s, t).workers, s.done)
  {
    hide MainInv, RingInv, TransferInv, PendingInv, SlotsInv, DoneInv, RefsInv, NotifyInv, TaskInv, ProcRefs, Nth, OwnerIndex, Total;
    var ws := StartTask(s, t).workers;
    forall c: nat, o: nat | InGrid(su.cfg, c, o) ensures Applied(su, ws, s.done, c, o) == Applied(su, s.workers, s.done, c, o) {
      OwnerCovers(su.cfg, c, o);
      RequestInGrid(su.cfg, OwnerIndex(su.cfg, c, o));
    }
  }

  /** A worker's request belongs to the first batch its cells still wait for, and that batch is in its area. */
  lemma CurrentTask(su: Setup, s: State, t: nat)
    requires Inv(su, s) && t < su.cfg.threads && s.workers[t].Busy?
    ensures var x := s.workers[t].task;
            && x.k < ProcRefs(su.cfg) == |s.done| && Nth(su.cfg, x.k).thread == t
            && s.notified <= s.complete <= x.batch == s.done[x.k] < s.started <= |s.batches|
            && x.batch < SentOf(s.transfer, s.started, x.k)
            && x.area == AreaOf(su, x.batch) && x.num == |s.batches[x.batch].inputs| && x.add == (x.batch > 0)
  {
    hide MainInv, RingInv, PendingInv, SlotsInv, RefsInv, MemInv, ProcRefs, Nth, Project, Range, Messages, BatchMessages, BusyOk, AreaOf;
    var x := s.workers[t].task;
    var p := Pending(s.workers[t], s.queues[t]);
    assert TaskOk(su, p[0], t, s.batches);
    ProjectHead(x, s.queues[t], x.k);
    assert Project(p, x.k) == Range(s.done[x.k], SentOf(s.transfer, s.started, x.k));
    assert Project(p, x.k)[0] == x.batch;
    RangeHead(s.done[x.k], SentOf(s.transfer, s.started, x.k));
    assert Range(s.done[x.k], SentOf(s.transfer, s.started, x.k))[0] == s.done[x.k];
  }

  /** A worker reads the inputs of its batch, undisturbed. */
  lemma SlotsHold(su: Setup, s: State, t: nat)
    requires Inv(su, s) && t < su.cfg.threads && s.workers[t].Busy?
    ensures var x := s.workers[t].task; x.batch < |s.batches| && Slots(s, x.area, x.num) == s.batches[x.batch].inputs
  {
    hide MainInv, RingInv, TransferInv, PendingInv, TaskInv, DoneInv, RefsInv, NotifyInv, MemInv, AreaOf, BusyOk;
    CurrentTask(su, s, t);
    var x := s.workers[t].task;
    var ins := s.batches[x.batch].inputs;
    assert DataHeld(su, s.data, x.batch, ins, |ins|);
    assert CoeffsHeld(su, s.coeffs, x.batch, ins);
    forall i | 0 <= i < |ins| ensures Slots(s, x.area, x.num)[i] == ins[i] {
    }
  }

  predicate CanWork(su: Setup, s: State, t: nat) {
    && t < |s.workers| && s.workers[t].Busy? && s.workers[t].task.k < ProcRefs(su.cfg)
    && s.workers[t].round < Nth(su.cfg, s.workers[t].task.k).chunks
  }

  /** The cell a worker has come to, and that it owns it. */
  lemma CurrentCell(su: Setup, s: State, t: nat)
    requires Inv(su, s) && CanWork(su, s, t)
    ensures var w := s.workers[t]; var r := Nth(su.cfg, w.task.k); var c := r.chunk + w.round; var o := r.firstOut + w.out;
            && t < su.cfg.threads && r.thread == t && InGrid(su.cfg, c, o) && Covers(r, c, o)
            && OwnerIndex(su.cfg, c, o) == w.task.k
            && Applied(su, s.workers, s.done, c, o) == w.task.batch
  {
    hide MainInv, RingInv, TransferInv, PendingInv, SlotsInv, TaskInv, DoneInv, RefsInv, NotifyInv, MemInv, ProcRefs, Nth, OwnerIndex;
    CurrentTask(su, s, t);
    var w := s.workers[t];
    var r := Nth(su.cfg, w.task.k);
    assert BusyOk(su, w);
    CoverUnique(su.cfg, w.task.k, r.chunk + w.round, r.firstOut + w.out);
  }

  /** What it stores there: the sum up to and including its batch. */
  lemma CellIsTotal(su: Setup, s: State, t: nat)
    requires Inv(su, s) && CanWork(su, s, t)
    ensures var w := s.workers[t]; var r := Nth(su.cfg, w.task.k); var c := r.chunk + w.round; var o := r.firstOut + w.out;
            && InGrid(su.cfg, c, o) && ShapedBatches(su, s.batches) && w.task.batch < |s.batches|
            && CellValue(su, s, w.task, c, o) == Total(su, s.batches, w.task.batch + 1, c, o)
  {
    hide MainInv, RingInv, TransferInv, PendingInv, SlotsInv, TaskInv, DoneInv, RefsInv, NotifyInv, ProcRefs, Nth, OwnerIndex, Add, Sum, Slots, AreaOf, BusyOk, Applied;
    CurrentTask(su, s, t);
    CurrentCell(su, s, t);
    SlotsHold(su, s, t);
  }

  /** Working on a cell passes that cell and no other. */
  lemma PassOne(su: Setup, w: Worker, k: nat, c: nat, o: nat)
    requires w.Busy? && w.task.k < ProcRefs(su.cfg) && BusyOk(su, w) && w.round < Nth(su.cfg, w.task.k).chunks
    requires k < ProcRefs(su.cfg) && Covers(Nth(su.cfg, k), c, o)
    ensures var r := Nth(su.cfg, w.task.k);
            var w' := if w.out + 1 < r.outs then Busy(w.task, w.round, w.out + 1) else Busy(w.task, w.round + 1, 0);
            && BusyOk(su, w')
            && (Passed(su, w', k, c, o) <==>
                Passed(su, w, k, c, o) || (k == w.task.k && c == r.chunk + w.round && o == r.firstOut + w.out))
  {
    hide Nth, ProcRefs;
  }

  lemma WorkMem(su: Setup, s: State, t: nat)
    requires Inv(su, s) && CanWork(su, s, t)
    ensures var s' := WorkCell(su, s, t); MemInv(su, s'.mem, s'.batches, s'.workers, s'.done)
    ensures BusyOk(su, WorkCell(su, s, t).workers[t])
  {
    hide MainInv, RingInv, TransferInv, PendingInv, SlotsInv, TaskInv, DoneInv, RefsInv, NotifyInv, ProcRefs, Nth, OwnerIndex, Total, CellValue, BusyOk, Passed;
    var s', w := WorkCell(su, s, t), s.workers[t];
    var r := Nth(su.cfg, w.task.k);
    var c0, o0 := r.chunk + w.round, r.firstOut + w.out;
    CurrentTask(su, s, t);
    CurrentCell(su, s, t);
    CellIsTotal(su, s, t);
    assert BusyOk(su, w);
    PassOne(su, w, w.task.k, c0, o0);
    assert s'.mem == s.mem[(c0, o0) := CellValue(su, s, w.task, c0, o0)];
    forall c: nat, o: nat | InGrid(su.cfg, c, o)
      ensures var n := Applied(su, s'.workers, s.done, c, o);
              n > 0 ==> n <= |s.batches| && (c, o) in s'.mem && s'.mem[(c, o)] == Total(su, s.batches, n, c, o)
    {
      var k := OwnerIndex(su.cfg, c, o);
      OwnerCovers(su.cfg, c, o);
      RequestInGrid(su.cfg, k);
      if Nth(su.cfg, k).thread == t { PassOne(su, w, k, c, o); }
    }
  }

  /** A step inside a request leaves the queues' contents alone. */
  lemma WorkTasks(su: Setup, s: State, t: nat)
    requires Inv(su, s) && CanWork(su, s, t)
    ensures var s' := WorkCell(su, s, t); TaskInv(su, s'.queues, s'.workers, s'.done, s'.transfer, s'.started, s'.batches)
  {
    hide MainInv, RingInv, TransferInv, PendingInv, SlotsInv, DoneInv, RefsInv, NotifyInv, MemInv, ProcRefs, Nth, Project, Range, SentOf, CellValue, BusyOk, TaskOk;
    var s' := WorkCell(su, s, t);
    forall t': nat | t' < su.cfg.threads
      ensures Pending(s'.workers[t'], s'.queues[t']) == Pending(s.workers[t'], s.queues[t'])
    {
    }
  }

  lemma WorkKept(su: Setup, s: State, t: nat)
    requires Inv(su, s) && CanWork(su, s, t)
    ensures Inv(su, WorkCell(su, s, t))
  {
    hide MainInv, RingInv, TransferInv, PendingInv, SlotsInv, TaskInv, DoneInv, RefsInv, NotifyInv, MemInv, ProcRefs, Nth, CellValue, BusyOk;
    WorkTasks(su, s, t);
    WorkMem(su, s, t);
  }

  // The end of a request.

  lemma {:induction false} RemainingSet(done: seq<nat>, k: nat, b: nat)
    requires k < |done|
    ensures Remaining(done[k := done[k] + 1], b) == Remaining(done, b) - if b == done[k] then 1 else 0
    decreases |done|
  {
    var n := |done| - 1;
    var done' := done[k := done[k] + 1];
    if k == n {
      assert done'[..n] == done[..n];
    } else {
      RemainingSet(done[..n], k, b);
      assert done'[..n] == done[..n][k := done[k] + 1];
    }
  }

  lemma {:induction false} RemainingPositive(done: seq<nat>, b: nat, k: nat)
    requires k < |done| && done[k] <= b
    ensures Remaining(done, b) > 0
    decreases |done|
  {
    if k < |done| - 1 { RemainingPositive(done[..|done| - 1], b, k); }
  }

  lemma {:induction false} RemainingWitness(done: seq<nat>, b: nat) returns (k: nat)
    requires Remaining(done, b) > 0
    ensures k < |done| && done[k] <= b
    decreases |done|
  {
    var n := |done| - 1;
    if done[n] <= b { k := n; } else { k := RemainingWitness(done[..n], b); }
  }

  predicate CanFinish(su: Setup, s: State, t: nat) {
    && t < |s.workers| && s.workers[t].Busy? && s.workers[t].task.k < ProcRefs(su.cfg)
    && s.workers[t].round == Nth(su.cfg, s.workers[t].task.k).chunks
    && s.workers[t].task.area < |s.procRefs| && s.workers[t].task.k < |s.done|
  }

  /** The countdown reaches zero exactly at the last request of the oldest batch still computed. */
  lemma LastRequest(done: seq<nat>, done': seq<nat>, complete: nat, k: nat, started: nat)
    requires k < |done| && complete <= done[k] < started && done' == done[k := done[k] + 1]
    requires forall h :: 0 <= h < |done| ==> complete <= done[h]
    requires exists h: nat :: h < |done| && done[h] == complete
    ensures Remaining(done, done[k]) <= 1 ==>
              done[k] == complete && forall h :: 0 <= h < |done'| ==> complete + 1 <= done'[h]
    ensures Remaining(done, done[k]) > 1 ==> exists h: nat :: h < |done'| && done'[h] == complete
  {
    var b := done[k];
    RemainingSet(done, k, b);
    RemainingPositive(done, b, k);
    var h: nat :| h < |done| && done[h] == complete;
    if Remaining(done, b) <= 1 {
      if b > complete { RemainingPositive(done', b, h); }
      forall g | 0 <= g < |done| ensures complete + 1 <= done'[g] {
        if done'[g] <= b { RemainingPositive(done', b, g); }
      }
    } else if b > complete {
      assert done'[h] == complete;
    } else {
      var g := RemainingWitness(done', b);
      assert done'[g] == complete;
    }
  }

  lemma FinishCounts(su: Setup, s: State, t: nat)
    requires Inv(su, s) && CanFinish(su, s, t)
    ensures var s' := FinishTask(su, s, t);
            && DoneInv(su, s'.done, s'.complete, s'.transfer, s'.started)
            && RefsInv(su, s'.procRefs, s'.done, s'.complete, s'.started)
            && NotifyInv(su, s'.procQ, s'.notified, s'.complete)
  {
    hide MainInv, TransferInv, PendingInv, SlotsInv, TaskInv, MemInv, ProcRefs, Nth, AreaOf, BusyOk, Remaining, CountTrue;
    CurrentTask(su, s, t);
    var s', x := FinishTask(su, s, t), s.workers[t].task;
    var b := x.batch;
    LastRequest(s.done, s'.done, s.complete, x.k, s.started);
    RingBounds(su, s.active, s.activeCount, |s.batches|, s.open, s.notified);
    forall b': nat | s.complete <= b' < s.started ensures s'.procRefs[AreaOf(su, b')] == Remaining(s'.done, b') {
      RemainingSet(s.done, x.k, b');
      if b' < b { AreaDistinct(su, b', b); }
      if b < b' { AreaDistinct(su, b, b'); }
    }
    FinishDone(su, s, t);
  }

  lemma FinishDone(su: Setup, s: State, t: nat)
    requires Inv(su, s) && CanFinish(su, s, t)
    ensures var s' := FinishTask(su, s, t); DoneInv(su, s'.done, s'.complete, s'.transfer, s'.started)
  {
    hide MainInv, TransferInv, PendingInv, SlotsInv, TaskInv, MemInv, ProcRefs, Nth, AreaOf, BusyOk, Remaining, CountTrue, RingInv;
    CurrentTask(su, s, t);
    var s', x := FinishTask(su, s, t), s.workers[t].task;
    LastRequest(s.done, s'.done, s.complete, x.k, s.started);
    assert s.procRefs[AreaOf(su, x.batch)] == Remaining(s.done, x.batch);
    assert s'.done[x.k] == x.batch + 1;
    forall k: nat | k < |s'.done| ensures s'.complete <= s'.done[k] <= SentOf(s.transfer, s.started, k) {
      assert s.complete <= s.done[k] <= SentOf(s.transfer, s.started, k);
    }
    if s'.complete < s.started {
      var last := s.procRefs[x.area] <= 1;
      if last {
        assert s'.done[x.k] == s'.complete;
      } else {
        assert exists h: nat :: h < |s'.done| && s'.done[h] == s.complete;
      }
    }
  }

  lemma FinishTasks(su: Setup, s: State, t: nat)
    requires Inv(su, s) && CanFinish(su, s, t)
    ensures var s' := FinishTask(su, s, t); TaskInv(su, s'.queues, s'.workers, s'.done, s'.transfer, s'.started, s'.batches)
  {
    hide MainInv, RingInv, TransferInv, PendingInv, SlotsInv, DoneInv, RefsInv, NotifyInv, MemInv, ProcRefs, Nth, Project, Range, SentOf, BusyOk, TaskOk, AreaOf;
    CurrentTask(su, s, t);
    var s', x := FinishTask(su, s, t), s.workers[t].task;
    var p := Pending(s.workers[t], s.queues[t]);
    assert p == [x] + Pending(s'.workers[t], s'.queues[t]);
    forall i: nat | i < |s.queues[t]| ensures TaskOk(su, s.queues[t][i], t, s.batches) {
      assert p[i + 1] == s.queues[t][i];
      assert TaskOk(su, p[i + 1], t, s.batches);
    }
    forall k: nat, t': nat | k < ProcRefs(su.cfg) && t' < su.cfg.threads && Nth(su.cfg, k).thread == t'
      ensures Project(Pending(s'.workers[t'], s'.queues[t']), k) == Range(s'.done[k], SentOf(s.transfer, s.started, k))
    {
      assert Project(Pending(s.workers[t'], s.queues[t']), k) == Range(s.done[k], SentOf(s.transfer, s.started, k));
      if t' == t {
        ProjectHead(x, s.queues[t], k);
        if k == x.k {
          RangeHead(s.done[k], SentOf(s.transfer, s.started, k));
          SameTail([x.batch], Project(s.queues[t], k), [s.done[k]], Range(s.done[k] + 1, SentOf(s.transfer, s.started, k)));
        } else {
          assert [] + Project(s.queues[t], k) == Project(s.queues[t], k);
        }
      }
    }
  }

  lemma SameTail<T>(a: seq<T>, b: seq<T>, a': seq<T>, b': seq<T>)
    requires |a| == |a'| && a + b == a' + b'
    ensures b == b'
  {
    assert b == (a + b)[|a|..] && b' == (a' + b')[|a'|..];
  }

  /** At the end of a request all of its cells have been passed. */
  lemma FinishMem(su: Setup, s: State, t: nat)
    requires Inv(su, s) && CanFinish(su, s, t)
    ensures var s' := FinishTask(su, s, t); MemInv(su, s'.mem, s'.batches, s'.workers, s'.done)
  {
    hide MainInv, RingInv, TransferInv, PendingInv, SlotsInv, DoneInv, RefsInv, NotifyInv, TaskInv, ProcRefs, Nth, OwnerIndex, Total, AreaOf, BusyOk;
    CurrentTask(su, s, t);
    var s' := FinishTask(su, s, t);
    forall c: nat, o: nat | InGrid(su.cfg, c, o)
      ensures Applied(su, s'.workers, s'.done, c, o) == Applied(su, s.workers, s.done, c, o)
    {
      OwnerCovers(su.cfg, c, o);
      RequestInGrid(su.cfg, OwnerIndex(su.cfg, c, o));
    }
  }

  lemma FinishKept(su: Setup, s: State, t: nat)
    requires Inv(su, s) && CanFinish(su, s, t)
    ensures Inv(su, FinishTask(su, s, t))
  {
    hide MainInv, RingInv, TransferInv, PendingInv, SlotsInv, TaskInv, DoneInv, RefsInv, NotifyInv, MemInv, ProcRefs, Nth;
    FinishCounts(su, s, t);
    FinishTasks(su, s, t);
    FinishMem(su, s, t);
  }

  // Notifications.

  lemma NotifyKept(su: Setup, s: State)
    requires Inv(su, s) && s.procQ != []
    ensures Inv(su, NotifyProc(s))
  {
    hide MainInv, RingInv, TransferInv, PendingInv, TaskInv, RefsInv, MemInv, ProcRefs, BusyOk, AreaOf, DataHeld, CoeffsHeld;
    RingOpen(su, s.active, s.activeCount, |s.batches|, s.open, s.notified);
    TransferMeans(su, s.transferQ, s.transfer, s.processingAdd, s.batches, s.open, s.started, s.moved);
    assert s.procQ[0] == AreaOf(su, s.notified);
    RingNotify(su, s.active, s.activeCount, |s.batches|, s.open, s.notified);
    forall i | 0 <= i < |s.procQ| - 1 ensures s.procQ[1..][i] == AreaOf(su, s.notified + 1 + i) {
      assert s.procQ[i + 1] == AreaOf(su, s.notified + (i + 1));
    }
  }
}
