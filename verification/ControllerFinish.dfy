/**
 Finishing over whole runs: every endInput has its callback called once, when all backends are
 empty, unless it is made from within such a callback while some backend is at work.
 */
module ControllerFinish {
  import opened Allocation
  import opened Controller

  /** ended: the callbacks handed to endInput, in order; lost: those that the return of another one cleared. */
  datatype State = State(ends: Ends, ended: seq<nat>, lost: seq<nat>)

  datatype Event =
    | BusyEvent(backend: nat, handsOver: bool)
    | FlushEvent
    | EndEvent(cb: nat)
    | SentEvent(backend: nat)
    | ProcEvent(backend: nat)
    | ReturnEvent

  function Init(parts: seq<Part>): State { State(NewEnds(parts), [], []) }

  /** Inputs and ends come only while no end is signalled, a flush at any time; while a finish callback runs, backends are not heard. */
  predicate Enabled(parts: seq<Part>, s: State, e: Event)
    requires Counted(parts, s.ends)
  {
    match e
    case BusyEvent(b, _) => !s.ends.endSignalled && b < |parts| && parts[b].currentSliceSize > 0
    case FlushEvent => true
    case EndEvent(_) => !s.ends.endSignalled
    case SentEvent(b) => s.ends.calling == 0 && b < |parts| && s.ends.pending[b] > 0
    case ProcEvent(b) => s.ends.calling == 0 && b < |parts| && s.ends.active[b] > 0
    case ReturnEvent => s.ends.calling > 0
  }

  /** The callback that is still to be called. */
  function Waiting(s: Ends): seq<nat> { if s.endSignalled && s.finishCb.Some? then [s.finishCb.value] else [] }

  function Next(parts: seq<Part>, s: State, e: Event): State
    requires Counted(parts, s.ends) && Enabled(parts, s, e)
  {
    match e
    case BusyEvent(b, handsOver) => s.(ends := Busy(s.ends, b, handsOver))
    case FlushEvent => s.(ends := Flushed(parts, s.ends, |parts|))
    case EndEvent(cb) => s.(ends := EndStep(parts, s.ends, cb), ended := s.ended + [cb])
    case SentEvent(b) => s.(ends := SentStep(parts, s.ends, b))
    case ProcEvent(b) => s.(ends := ProcStep(parts, s.ends, b))
    case ReturnEvent => s.(ends := ReturnStep(s.ends), lost := s.lost + Waiting(s.ends))
  }

  /** An end signalled while a finish callback runs, and some backend is at work or has inputs that wait. */
  predicate Nested(parts: seq<Part>, s: State, e: Event)
    requires Counted(parts, s.ends) && Enabled(parts, s, e)
  {
    e.EndEvent? && s.ends.calling > 0 && !Idle(s.ends)
  }

  predicate IsRun(parts: seq<Part>, s: State, es: seq<Event>)
    decreases |es|
  {
    es == [] || (Counted(parts, s.ends) && Enabled(parts, s, es[0]) && IsRun(parts, Next(parts, s, es[0]), es[1..]))
  }

  function After(parts: seq<Part>, s: State, es: seq<Event>): State
    requires IsRun(parts, s, es)
    decreases |es|
  {
    if es == [] then s else After(parts, Next(parts, s, es[0]), es[1..])
  }

  /** How many ends of a run are. */
  function NestedEnds(parts: seq<Part>, s: State, es: seq<Event>): nat
    requires IsRun(parts, s, es)
    decreases |es|
  {
    if es == [] then 0
    else NestedEnds(parts, Next(parts, s, es[0]), es[1..]) + if Nested(parts, s, es[0]) then 1 else 0
  }

  /** A callback that waits while another one runs. */
  function Endangered(s: Ends): nat { if s.calling > 0 then |Waiting(s)| else 0 }

  ghost predicate Inv(parts: seq<Part>, s: State) { ValidEnd(parts, s.ends) && Accounted(s) }

  /** Every end is accounted for, and in order unless some callback is, or is about to be, lost. */
  predicate Accounted(s: State) {
    && multiset(s.ends.finished) + multiset(s.lost) + multiset(Waiting(s.ends)) == multiset(s.ended)
    && |s.ends.finished| + |s.lost| + |Waiting(s.ends)| == |s.ended|
    && (s.lost == [] && Endangered(s.ends) == 0 ==> s.ends.finished + Waiting(s.ends) == s.ended)
    && (s.ends.endSignalled && s.ends.finishCb.None? ==> s.lost != [])
  }

  lemma InitInv(parts: seq<Part>)
    ensures Inv(parts, Init(parts))
  {
  }

  /** Finishing, if all is empty, moves the callback that waits to those that were called. */
  lemma ProcessedAccounted(parts: seq<Part>, s: State)
    requires Counted(parts, s.ends) && Accounted(s) && (s.ends.endSignalled && AllEmpty(s.ends) ==> Endangered(s.ends) == 0)
    ensures var s' := s.(ends := Processed(parts, s.ends));
            && Accounted(s') && (s'.ends.finished != s.ends.finished ==> AllEmpty(s'.ends))
            && Endangered(s'.ends) == Endangered(s.ends)
  {
    var t := Processed(parts, s.ends);
    SameEmpty(s.ends, t);
    if t != s.ends {
      assert Waiting(t) == [] && t.finished == s.ends.finished + Waiting(s.ends);
      assert multiset(t.finished) == multiset(s.ends.finished) + multiset(Waiting(s.ends));
      assert t.finished + [] == t.finished;
    }
  }

  /** One step of an end: it waits, or is over. */
  lemma EndKept(parts: seq<Part>, s: State, e: Event)
    requires Inv(parts, s) && Enabled(parts, s, e) && e.EndEvent?
    ensures Inv(parts, Next(parts, s, e))
    ensures var s' := Next(parts, s, e);
            |s'.lost| + Endangered(s'.ends) == |s.lost| + Endangered(s.ends) + if Nested(parts, s, e) then 1 else 0
    ensures var s' := Next(parts, s, e); s'.ends.finished != s.ends.finished ==> AllEmpty(s'.ends)
  {
    hide ValidEnd, Flushed, Processed, AllEmpty, Idle;
    ValidMeans(parts, s.ends);
    var f := Flushed(parts, s.ends, |parts|);
    FlushedValid(parts, s.ends);
    var t := f.(finishCb := Some(e.cb), endSignalled := true, backendEnd := With(parts));
    EndValid(parts, f, e.cb);
    EmptyIdle(s.ends, t);
    SameEmpty(t, t.(backendEnd := Without(parts)));
    EndAccounted(parts, s, t, e.cb);
  }

  lemma EndAccounted(parts: seq<Part>, s: State, t: Ends, cb: nat)
    requires Accounted(s) && !s.ends.endSignalled && Counted(parts, t)
    requires t.finishCb == Some(cb) && t.endSignalled && t.finished == s.ends.finished && t.calling == s.ends.calling
    ensures var s' := State(Processed(parts, t), s.ended + [cb], s.lost);
            && Accounted(s') && (s'.ends.finished != s.ends.finished ==> AllEmpty(s'.ends))
            && Endangered(s'.ends) == if t.calling > 0 && !AllEmpty(t) then 1 else 0
  {
    var r := Processed(parts, t);
    SameEmpty(t, r);
    assert s.ends.finished + [] == s.ends.finished;
    assert r.finished + Waiting(r) == s.ends.finished + [cb];
  }

  lemma ValidMeans(parts: seq<Part>, s: Ends)
    requires ValidEnd(parts, s)
    ensures Counted(parts, s) && (s.endSignalled ==> !AllEmpty(s))
    ensures s.endSignalled ==> forall b :: 0 <= b < |parts| ==> s.waiting[b] == 0
  {
  }

  /** A backend reports. */
  lemma ReportKept(parts: seq<Part>, s: State, e: Event)
    requires Inv(parts, s) && Enabled(parts, s, e) && (e.SentEvent? || e.ProcEvent?)
    ensures Inv(parts, Next(parts, s, e))
    ensures var s' := Next(parts, s, e);
            |s'.lost| + Endangered(s'.ends) == |s.lost| + Endangered(s.ends)
    ensures var s' := Next(parts, s, e); s'.ends.finished != s.ends.finished ==> AllEmpty(s'.ends)
  {
    hide AllEmpty, ValidEnd, Accounted;
    ValidMeans(parts, s.ends);
    var b := e.backend;
    var t := if e.SentEvent? then s.ends.(pending := s.ends.pending[b := s.ends.pending[b] - 1])
             else s.ends.(active := s.ends.active[b := s.ends.active[b] - 1]);
    ReportedValid(parts, s.ends, t, b);
    ReportedAccounted(s, t);
    ProcessedAccounted(parts, s.(ends := t));
  }

  lemma ReportedAccounted(s: State, t: Ends)
    requires Accounted(s) && t == s.ends.(waiting := t.waiting, active := t.active, pending := t.pending)
    ensures Accounted(s.(ends := t))
  {
  }

  lemma ReportedValid(parts: seq<Part>, s: Ends, t: Ends, b: nat)
    requires ValidEnd(parts, s) && b < |parts| && !IsEmpty(s, b) && Counted(parts, t)
    requires t == s.(active := t.active, pending := t.pending)
    requires forall c :: 0 <= c < |parts| && c != b ==> t.active[c] == s.active[c] && t.pending[c] == s.pending[c]
    ensures ValidEnd(parts, Processed(parts, t))
  {
    hide Processed;
    ReportedCounts(parts, s, t, b);
    ProcessedValid(parts, t);
  }

  lemma ReportedCounts(parts: seq<Part>, s: Ends, t: Ends, b: nat)
    requires ValidEnd(parts, s) && b < |parts| && !IsEmpty(s, b) && Counted(parts, t)
    requires forall c :: 0 <= c < |parts| && c != b ==> t.active[c] == s.active[c] && t.pending[c] == s.pending[c]
    ensures forall c :: 0 <= c < |parts| && parts[c].currentSliceSize == 0 ==> IsEmpty(t, c)
  {
    forall c | 0 <= c < |parts| && parts[c].currentSliceSize == 0 ensures IsEmpty(t, c) { assert IsEmpty(s, c) && c != b; }
  }

  lemma OtherKept(parts: seq<Part>, s: State, e: Event)
    requires Inv(parts, s) && Enabled(parts, s, e) && (e.BusyEvent? || e.FlushEvent? || e.ReturnEvent?)
    ensures Inv(parts, Next(parts, s, e))
    ensures var s' := Next(parts, s, e);
            |s'.lost| + Endangered(s'.ends) == |s.lost| + Endangered(s.ends) && s'.ends.finished == s.ends.finished
  {
    hide AllEmpty, ValidEnd, Accounted, IsEmpty, Flushed;
    ValidMeans(parts, s.ends);
    var s' := Next(parts, s, e);
    if e.ReturnEvent? {
      ReturnValid(parts, s.ends);
      ReturnAccounted(s, s');
    } else if e.FlushEvent? {
      FlushedValid(parts, s.ends);
      ReportedAccounted(s, s'.ends);
    } else {
      BusyValid(parts, s.ends, e.backend, e.handsOver);
      ReportedAccounted(s, s'.ends);
    }
  }

  lemma ReturnValid(parts: seq<Part>, s: Ends)
    requires ValidEnd(parts, s) && s.calling > 0
    ensures ValidEnd(parts, ReturnStep(s))
  {
    SameEmpty(s, ReturnStep(s));
  }

  /** The callback that waits is lost, so the order no longer matters. */
  lemma ReturnAccounted(s: State, s': State)
    requires Accounted(s) && s.ends.calling > 0 && s' == s.(ends := ReturnStep(s.ends), lost := s.lost + Waiting(s.ends))
    ensures Accounted(s') && |s'.lost| + Endangered(s'.ends) == |s.lost| + Endangered(s.ends)
  {
    assert s'.lost == [] ==> s.lost == [];
    assert s.ends.finished + [] == s.ends.finished;
  }

  lemma BusyValid(parts: seq<Part>, s: Ends, b: nat, handsOver: bool)
    requires ValidEnd(parts, s) && !s.endSignalled && b < |parts| && parts[b].currentSliceSize > 0
    ensures ValidEnd(parts, Busy(s, b, handsOver))
  {
    ReportedOther(parts, s, Busy(s, b, handsOver), b);
  }

  lemma ReportedOther(parts: seq<Part>, s: Ends, t: Ends, b: nat)
    requires ValidEnd(parts, s) && b < |parts| && parts[b].currentSliceSize > 0 && Counted(parts, t)
    requires forall c :: 0 <= c < |parts| && c != b ==> t.active[c] == s.active[c] && t.pending[c] == s.pending[c]
    ensures forall c :: 0 <= c < |parts| && parts[c].currentSliceSize == 0 ==> IsEmpty(t, c)
  {
    forall c | 0 <= c < |parts| && parts[c].currentSliceSize == 0 ensures IsEmpty(t, c) { assert IsEmpty(s, c) && c != b; }
  }

  /** The finish callback is called only when no backend has an active area, a message under way or an input that waits. */
  lemma StepKept(parts: seq<Part>, s: State, e: Event)
    requires Inv(parts, s) && Enabled(parts, s, e)
    ensures Inv(parts, Next(parts, s, e))
    ensures var s' := Next(parts, s, e);
            |s'.lost| + Endangered(s'.ends) == |s.lost| + Endangered(s.ends) + if Nested(parts, s, e) then 1 else 0
    ensures var s' := Next(parts, s, e);
            && Counted(parts, s'.ends)
            && (s'.ends.finished != s.ends.finished ==>
                  forall b :: 0 <= b < |parts| ==> s'.ends.active[b] == 0 && s'.ends.pending[b] == 0 && s'.ends.waiting[b] == 0)
  {
    hide Inv, Next, Endangered, AllEmpty;
    if e.EndEvent? {
      EndKept(parts, s, e);
    } else if e.SentEvent? || e.ProcEvent? {
      ReportKept(parts, s, e);
    } else {
      OtherKept(parts, s, e);
    }
    FinishedIdle(parts, s, e);
  }

  lemma FinishedIdle(parts: seq<Part>, s: State, e: Event)
    requires Inv(parts, s) && Enabled(parts, s, e)
    ensures var s' := Next(parts, s, e); Counted(parts, s'.ends) && (s'.ends.finished != s.ends.finished ==> Idle(s'.ends))
  {
    hide Flushed, With, Without;
    match e {
      case EndEvent(cb) => EndIdle(parts, s.ends, cb);
      case SentEvent(b) =>
        ReportIdle(parts, s.ends, s.ends.(pending := s.ends.pending[b := s.ends.pending[b] - 1]));
      case ProcEvent(b) =>
        ReportIdle(parts, s.ends, s.ends.(active := s.ends.active[b := s.ends.active[b] - 1]));
      case _ =>
    }
  }

  lemma EndIdle(parts: seq<Part>, s: Ends, cb: nat)
    requires ValidEnd(parts, s) && !s.endSignalled
    ensures var s' := EndStep(parts, s, cb); Counted(parts, s') && (s'.finished != s.finished ==> Idle(s'))
  {
    hide EndStep;
    EndStepMeans(parts, s, cb);
  }

  lemma ReportIdle(parts: seq<Part>, s: Ends, t: Ends)
    requires ValidEnd(parts, s) && Counted(parts, t) && t == s.(active := t.active, pending := t.pending)
    ensures var s' := Processed(parts, t); Counted(parts, s') && (s'.finished != s.finished ==> Idle(s'))
  {
    ProcessedMeans(parts, t);
  }

  lemma {:induction false} RunKept(parts: seq<Part>, s: State, es: seq<Event>)
    requires Inv(parts, s) && IsRun(parts, s, es)
    ensures var s' := After(parts, s, es);
            Inv(parts, s') && |s'.lost| + Endangered(s'.ends) == |s.lost| + Endangered(s.ends) + NestedEnds(parts, s, es)
    decreases |es|
  {
    hide Inv, Next, Endangered, Enabled, Nested;
    if es != [] {
      StepKept(parts, s, es[0]);
      RunKept(parts, Next(parts, s, es[0]), es[1..]);
    }
  }

  /**
   Once all backends are empty and no callback is running, every endInput of the run has had its
   callback called once, and in order, exactly if none of them was nested.
   */
  lemma FinishedOnce(parts: seq<Part>, es: seq<Event>)
    requires IsRun(parts, Init(parts), es)
    requires var s := After(parts, Init(parts), es);
             && Counted(parts, s.ends) && s.ends.calling == 0
             && forall b :: 0 <= b < |parts| ==> s.ends.active[b] == 0 && s.ends.pending[b] == 0
    ensures var s := After(parts, Init(parts), es);
            && (multiset(s.ends.finished) == multiset(s.ended) <==> NestedEnds(parts, Init(parts), es) == 0)
            && (s.ends.finished == s.ended <==> NestedEnds(parts, Init(parts), es) == 0)
            && |s.ends.finished| + NestedEnds(parts, Init(parts), es) == |s.ended|
  {
    hide After, IsRun, NestedEnds;
    InitInv(parts);
    RunKept(parts, Init(parts), es);
    var s := After(parts, Init(parts), es);
    assert s.ends.finished + [] == s.ended ==> multiset(s.ends.finished) == multiset(s.ended);
    assert |multiset(s.ends.finished)| == |s.ends.finished| && |multiset(s.ended)| == |s.ended|;
  }

  /** While backends are still at work, the callbacks called so far are those of all ends but the one that waits. */
  lemma FinishedSoFar(parts: seq<Part>, es: seq<Event>)
    requires IsRun(parts, Init(parts), es) && NestedEnds(parts, Init(parts), es) == 0
    ensures var s := After(parts, Init(parts), es);
            && s.ended == s.ends.finished + Waiting(s.ends)
            && |Waiting(s.ends)| == (if s.ends.endSignalled then 1 else 0)
            && (s.ends.endSignalled ==> Counted(parts, s.ends) && !AllEmpty(s.ends))
  {
    hide After, IsRun, NestedEnds;
    InitInv(parts);
    RunKept(parts, Init(parts), es);
  }

  /**
   An end that is lost: one is over at once, and while its callback runs an input is taken and the
   next end is signalled.  When the callback returns, what waits is cleared, so that nobody is told
   once the backend is done.
   */
  function LostEvents(): seq<Event> {
    [EndEvent(1), BusyEvent(0, true), EndEvent(2), ReturnEvent, SentEvent(0), ProcEvent(0), ReturnEvent]
  }

  lemma NestedLost()
    ensures var parts := [Part(0, 2)];
            && IsRun(parts, Init(parts), LostEvents()) && NestedEnds(parts, Init(parts), LostEvents()) == 1
            && var s := After(parts, Init(parts), LostEvents());
               && Counted(parts, s.ends) && AllEmpty(s.ends) && s.ends.calling == 0
               && s.ended == [1, 2] && s.ends.finished == [1]
  {
    hide IsRun, After, NestedEnds;
    var parts := [Part(0, 2)];
    assert Init(parts) == Lost(0) by { StartsLost(parts); }
    assert LostEvents()[0..] == LostEvents();
    LostFrom(parts, 0);
  }

  /** Its states: the second callback is set, then cleared. */
  function Lost(k: nat): State {
    match k
    case 0 => State(Ends(false, None, [false], [0], [0], [0], 0, []), [], [])
    case 1 => State(Ends(false, Some(1), [false], [0], [0], [0], 1, [1]), [1], [])
    case 2 => State(Ends(false, Some(1), [false], [0], [1], [1], 1, [1]), [1], [])
    case 3 => State(Ends(true, Some(2), [true], [0], [1], [1], 1, [1]), [1, 2], [])
    case 4 => State(Ends(true, None, [true], [0], [1], [1], 0, [1]), [1, 2], [2])
    case 5 => State(Ends(true, None, [true], [0], [1], [0], 0, [1]), [1, 2], [2])
    case 6 => State(Ends(false, None, [false], [0], [0], [0], 1, [1]), [1, 2], [2])
    case _ => State(Ends(false, None, [false], [0], [0], [0], 0, [1]), [1, 2], [2])
  }

  predicate LostStep(parts: seq<Part>, k: nat)
    requires k < 7
  {
    var s, e := Lost(k), LostEvents()[k];
    && Counted(parts, s.ends) && Enabled(parts, s, e) && Next(parts, s, e) == Lost(k + 1)
    && (Nested(parts, s, e) <==> k == 2)
  }

  lemma StartsLost(parts: seq<Part>)
    requires parts == [Part(0, 2)]
    ensures Init(parts) == Lost(0)
  {
    var e := NewEnds(parts);
    assert e.backendEnd == [false] && e.waiting == [0] && e.active == [0] && e.pending == [0];
  }

  lemma FirstEnd(parts: seq<Part>)
    requires parts == [Part(0, 2)]
    ensures LostStep(parts, 0)
  {
    assert With(parts) == [true] && Without(parts) == [false];
  }

  lemma InputTaken(parts: seq<Part>)
    requires parts == [Part(0, 2)]
    ensures LostStep(parts, 1)
  {
    var none: seq<nat>, one: seq<nat> := [0], [1];
    assert none[0 := 1] == one;
  }

  lemma SecondEnd(parts: seq<Part>)
    requires parts == [Part(0, 2)]
    ensures LostStep(parts, 2)
  {
    var s := Lost(2).ends;
    assert With(parts) == [true] && Flushed(parts, s, 1) == s;
    var t := s.(finishCb := Some(2), endSignalled := true, backendEnd := With(parts));
    assert !IsEmpty(s, 0) && !IsEmpty(t, 0);
    assert Processed(parts, t) == t;
  }

  lemma Reports(parts: seq<Part>)
    requires parts == [Part(0, 2)]
    ensures LostStep(parts, 3) && LostStep(parts, 4) && LostStep(parts, 5) && LostStep(parts, 6)
  {
    var none: seq<nat>, one: seq<nat> := [0], [1];
    assert one[0 := 0] == none && Without(parts) == [false];
    assert !IsEmpty(Lost(5).ends, 0);
  }

  lemma {:induction false} LostFrom(parts: seq<Part>, k: nat)
    requires parts == [Part(0, 2)] && k <= 7
    ensures var es := LostEvents()[k..];
            && IsRun(parts, Lost(k), es) && After(parts, Lost(k), es) == Lost(7)
            && NestedEnds(parts, Lost(k), es) == if k <= 2 then 1 else 0
    decreases 7 - k
  {
    hide IsRun, After, NestedEnds, Enabled, Next, Nested, Lost;
    if k == 7 {
      RunNone(parts, Lost(7));
    } else {
      LostFrom(parts, k + 1);
      FirstEnd(parts);
      InputTaken(parts);
      SecondEnd(parts);
      Reports(parts);
      RunStep(parts, Lost(k), LostEvents()[k], LostEvents()[k + 1..]);
      assert LostEvents()[k..] == [LostEvents()[k]] + LostEvents()[k + 1..];
    }
  }

  lemma RunNone(parts: seq<Part>, s: State)
    ensures IsRun(parts, s, []) && After(parts, s, []) == s && NestedEnds(parts, s, []) == 0
  {
  }

  lemma RunStep(parts: seq<Part>, s: State, e: Event, rest: seq<Event>)
    requires Counted(parts, s.ends) && Enabled(parts, s, e) && IsRun(parts, Next(parts, s, e), rest)
    ensures IsRun(parts, s, [e] + rest) && After(parts, s, [e] + rest) == After(parts, Next(parts, s, e), rest)
    ensures NestedEnds(parts, s, [e] + rest) == NestedEnds(parts, Next(parts, s, e), rest) + if Nested(parts, s, e) then 1 else 0
  {
    hide Next, Enabled, Nested;
    assert ([e] + rest)[1..] == rest;
  }
}
