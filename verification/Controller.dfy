/**
 The controller that spreads inputs over several backends: adding an input that some backends may
 refuse and the caller resends, and finishing once every backend is empty.  Each method is proved to
 perform a step on the books it keeps; what sequences of steps achieve is proved in ControllerRuns.
 */
module Controller {
  import opened Allocation

  datatype Option<T> = None | Some(value: T)

  /** What a caller wants called once an input is taken: which input it goes with, and which of those passed for it. */
  datatype Callback = Callback(input: nat, form: nat)

  /** An input being added: how many backends have yet to process it, and whom to tell. */
  datatype AddCbRef = AddCbRef(backendsActive: int, cb: Callback)

  /** A stretch of an input's bytes handed to a backend: where in the input it starts, and its length. */
  datatype Delivery = Delivery(input: nat, backend: nat, offset: nat, amount: nat)

  predicate Carries(d: Delivery, x: nat) { d.offset <= x < d.offset + d.amount }

  /** The books on inputs: who has had one that is not settled, entries by reference, and what went out. */
  datatype Adds = Adds(added: seq<set<int>>, refs: map<int, AddCbRef>, delivered: multiset<Delivery>, called: seq<Callback>)

  /** Part p takes some of an input of the given size. */
  predicate Covers(p: Part, size: nat) { p.currentOffset < size && p.currentSliceSize > 0 }

  /** How much of it. */
  function Amount(p: Part, size: nat): nat {
    if p.currentOffset >= size then 0
    else if size - p.currentOffset < p.currentSliceSize then size - p.currentOffset else p.currentSliceSize
  }

  /** What backend b gets of it. */
  function Hand(parts: seq<Part>, size: nat, input: nat, b: nat): (d: Delivery)
    ensures d.input == input && d.backend == b
  {
    if b < |parts| then Delivery(input, b, parts[b].currentOffset, Amount(parts[b], size)) else Delivery(input, b, 0, 0)
  }

  /** Some byte of an input of that size lies in part p. */
  ghost predicate HasByte(p: Part, size: nat) { exists x: nat :: x < size && Holds(p, x) }

  /** A part covers an input exactly if some byte of it lies in the part. */
  lemma CoveringBytes(parts: seq<Part>, size: nat, b: nat)
    ensures b in Covering(parts, size, |parts|) <==> b < |parts| && HasByte(parts[b], size)
  {
    if b < |parts| && Covers(parts[b], size) { assert Holds(parts[b], parts[b].currentOffset); }
  }

  /** And it is then handed exactly those bytes. */
  lemma HandBytes(parts: seq<Part>, size: nat, input: nat, b: nat, x: nat)
    requires b < |parts|
    ensures Carries(Hand(parts, size, input, b), x) <==> x < size && Holds(parts[b], x)
  {
  }

  /** The first n parts that do. */
  function Covering(parts: seq<Part>, size: nat, n: nat): set<nat>
    requires n <= |parts|
  {
    set b: nat | b < n && Covers(parts[b], size)
  }

  lemma CoveringNext(parts: seq<Part>, size: nat, n: nat)
    requires n < |parts|
    ensures Covering(parts, size, n + 1) == Covering(parts, size, n) + if Covers(parts[n], size) then {n} else {}
    ensures n !in Covering(parts, size, n)
    ensures |Covering(parts, size, n + 1)| == |Covering(parts, size, n)| + if Covers(parts[n], size) then 1 else 0
  {
    assert Covering(parts, size, n + 1) == Covering(parts, size, n) + if Covers(parts[n], size) then {n} else {};
  }

  /** Of the first n parts, those that need the input and have room for it, or have none. */
  function Needing(parts: seq<Part>, size: nat, n: nat, added: seq<set<int>>, ref: int, full: seq<bool>, room: bool): set<nat>
    requires n <= |parts| == |full| == |added|
  {
    set b: nat | b < n && Covers(parts[b], size) && ref !in added[b] && full[b] != room
  }

  lemma NeedingNext(parts: seq<Part>, size: nat, n: nat, added: seq<set<int>>, ref: int, full: seq<bool>, room: bool)
    requires n < |parts| == |full| == |added|
    ensures var more := if Covers(parts[n], size) && ref !in added[n] && full[n] != room then {n} else {};
            Needing(parts, size, n + 1, added, ref, full, room) == Needing(parts, size, n, added, ref, full, room) + more
    ensures n !in Needing(parts, size, n, added, ref, full, room)
  {
  }

  function Deliveries(parts: seq<Part>, size: nat, input: nat, sent: set<nat>): multiset<Delivery> {
    multiset(set b | b in sent :: Hand(parts, size, input, b))
  }

  lemma DeliveriesNext(parts: seq<Part>, size: nat, input: nat, sent: set<nat>, b: nat)
    requires b !in sent
    ensures Deliveries(parts, size, input, sent + {b}) == Deliveries(parts, size, input, sent) + multiset{Hand(parts, size, input, b)}
  {
    hide Hand;
    assert (set c | c in sent + {b} :: Hand(parts, size, input, c))
           == (set c | c in sent :: Hand(parts, size, input, c)) + {Hand(parts, size, input, b)};
  }

  lemma DeliveriesCount(parts: seq<Part>, size: nat, input: nat, sent: set<nat>, d: Delivery)
    ensures Deliveries(parts, size, input, sent)[d] ==
            if d.input == input && d.backend in sent && d == Hand(parts, size, input, d.backend) then 1 else 0
  {
    hide Hand;
    var ds := set c | c in sent :: Hand(parts, size, input, c);
    assert d in ds <==> d.input == input && d.backend in sent && d == Hand(parts, size, input, d.backend);
  }

  function Mark(added: seq<set<int>>, ref: int, sent: set<nat>): (r: seq<set<int>>)
    ensures |r| == |added| && forall b :: 0 <= b < |added| ==> r[b] == added[b] + if b in sent then {ref} else {}
  {
    seq(|added|, b requires 0 <= b < |added| => added[b] + if b in sent then {ref} else {})
  }

  function Unmark(added: seq<set<int>>, ref: int): (r: seq<set<int>>)
    ensures |r| == |added| && forall b :: 0 <= b < |added| ==> r[b] == added[b] - {ref}
  {
    seq(|added|, b requires 0 <= b < |added| => added[b] - {ref})
  }

  predicate Shaped(parts: seq<Part>, s: Adds, full: seq<bool>) { |s.added| == |full| == |parts| }

  /** Who gets the input now. */
  function SentTo(parts: seq<Part>, s: Adds, size: nat, ref: int, full: seq<bool>): set<nat>
    requires Shaped(parts, s, full)
  {
    Needing(parts, size, |parts|, s.added, ref, full, true)
  }

  /** Nobody who needs it is without room. */
  predicate Taken(parts: seq<Part>, s: Adds, size: nat, ref: int, full: seq<bool>)
    requires Shaped(parts, s, full)
  {
    Needing(parts, size, |parts|, s.added, ref, full, false) == {}
  }

  /** What adding an input does to the books. */
  function AddStep(parts: seq<Part>, s: Adds, size: nat, ref: int, cb: Callback, full: seq<bool>): Adds
    requires Shaped(parts, s, full)
  {
    var sent := SentTo(parts, s, size, ref, full);
    s.(refs := s.refs[ref := Entry(parts, s.refs, size, ref, cb)],
       added := if Taken(parts, s, size, ref, full) then Unmark(s.added, ref) else Mark(s.added, ref, sent),
       delivered := s.delivered + Deliveries(parts, size, cb.input, sent))
  }

  lemma AddStepIs(parts: seq<Part>, s: Adds, size: nat, ref: int, cb: Callback, full: seq<bool>, s': Adds)
    requires Shaped(parts, s, full)
    requires var sent := SentTo(parts, s, size, ref, full); var marked := Mark(s.added, ref, sent);
             s' == s.(refs := s.refs[ref := Entry(parts, s.refs, size, ref, cb)],
                      added := if Taken(parts, s, size, ref, full) then Unmark(marked, ref) else marked,
                      delivered := s.delivered + Deliveries(parts, size, cb.input, sent))
    ensures s' == AddStep(parts, s, size, ref, cb, full)
  {
    hide Entry, Deliveries, Taken, SentTo, Mark, Unmark;
    MarkUnmark(s.added, ref, SentTo(parts, s, size, ref, full));
  }

  function Entry(parts: seq<Part>, refs: map<int, AddCbRef>, size: nat, ref: int, cb: Callback): AddCbRef {
    if ref in refs then refs[ref].(cb := cb) else AddCbRef(|Covering(parts, size, |parts|)|, cb)
  }

  /** A backend that has a byte of the input and is not marked as having had it. */
  ghost predicate Wants(parts: seq<Part>, s: Adds, size: nat, ref: int, b: nat)
    requires b < |parts| == |s.added|
  {
    HasByte(parts[b], size) && ref !in s.added[b]
  }

  /**
   Adding an input, told by its bytes: it is taken exactly if all who want it have room; those that
   have room are handed it and, until it is taken, marked; and its entry, unless it had one, counts
   all backends that have a byte of it.
   */
  lemma AddStepMeans(parts: seq<Part>, s: Adds, size: nat, ref: int, cb: Callback, full: seq<bool>)
    requires Shaped(parts, s, full)
    ensures Taken(parts, s, size, ref, full) <==> forall b: nat :: b < |parts| && Wants(parts, s, size, ref, b) ==> !full[b]
    ensures var s' := AddStep(parts, s, size, ref, cb, full);
            && |s'.added| == |parts| && s'.called == s.called
            && (forall b: nat :: b < |parts| ==>
                  s'.added[b] == if Taken(parts, s, size, ref, full) then s.added[b] - {ref}
                                 else if Wants(parts, s, size, ref, b) && !full[b] then s.added[b] + {ref} else s.added[b])
            && (forall d: Delivery :: s'.delivered[d] == s.delivered[d] +
                  if d.backend < |parts| && Wants(parts, s, size, ref, d.backend) && !full[d.backend]
                     && d == Hand(parts, size, cb.input, d.backend) then 1 else 0)
            && s'.refs.Keys == s.refs.Keys + {ref} && (forall r :: r in s.refs && r != ref ==> s'.refs[r] == s.refs[r])
            && s'.refs[ref].cb == cb
            && s'.refs[ref].backendsActive ==
                 if ref in s.refs then s.refs[ref].backendsActive else |set b: nat | b < |parts| && HasByte(parts[b], size)|
  {
    hide Hand, HasByte, Covers;
    var n := |parts|;
    var sent, refused := SentTo(parts, s, size, ref, full), Needing(parts, size, n, s.added, ref, full, false);
    forall b: nat | b < n
      ensures Wants(parts, s, size, ref, b) && !full[b] <==> b in sent
      ensures Wants(parts, s, size, ref, b) && full[b] <==> b in refused
    {
      CoveringBytes(parts, size, b);
    }
    assert Covering(parts, size, n) == set b: nat | b < n && HasByte(parts[b], size) by {
      forall b: nat | b < n ensures b in Covering(parts, size, n) <==> HasByte(parts[b], size) { CoveringBytes(parts, size, b); }
    }
    AddDelivered(parts, s, size, ref, cb, full);
  }

  lemma AddDelivered(parts: seq<Part>, s: Adds, size: nat, ref: int, cb: Callback, full: seq<bool>)
    requires Shaped(parts, s, full)
    ensures forall d: Delivery :: AddStep(parts, s, size, ref, cb, full).delivered[d] == s.delivered[d] +
              if d.backend < |parts| && Wants(parts, s, size, ref, d.backend) && !full[d.backend]
                 && d == Hand(parts, size, cb.input, d.backend) then 1 else 0
  {
    hide Hand, HasByte, Covers, Deliveries;
    var sent := SentTo(parts, s, size, ref, full);
    forall d: Delivery
      ensures (s.delivered + Deliveries(parts, size, cb.input, sent))[d] == s.delivered[d] +
              if d.backend < |parts| && Wants(parts, s, size, ref, d.backend) && !full[d.backend]
                 && d == Hand(parts, size, cb.input, d.backend) then 1 else 0
    {
      DeliveriesCount(parts, size, cb.input, sent, d);
      CoveringBytes(parts, size, d.backend);
    }
  }

  /** What a backend's completion of an input does to them. */
  function DoneStep(s: Adds, ref: int): Adds
    requires ref in s.refs
  {
    var entry := s.refs[ref];
    if entry.backendsActive == 1 then s.(refs := s.refs - {ref}, called := s.called + [entry.cb])
    else s.(refs := s.refs[ref := entry.(backendsActive := entry.backendsActive - 1)])
  }

  // Finishing.

  /**
   The books on finishing.  Per backend: waiting counts the inputs in a batch that still fills, active
   the batches handed over and not yet done with, pending the messages on their way.  calling counts
   the finish callbacks that have been called and have not returned.
   */
  datatype Ends = Ends(endSignalled: bool, finishCb: Option<nat>, backendEnd: seq<bool>,
                       waiting: seq<nat>, active: seq<nat>, pending: seq<nat>, calling: nat, finished: seq<nat>)

  predicate Counted(parts: seq<Part>, s: Ends) { |s.waiting| == |s.active| == |s.pending| == |s.backendEnd| == |parts| }

  /** isEmpty, which does not look at what waits. */
  predicate IsEmpty(s: Ends, b: nat)
    requires b < |s.active| == |s.pending|
  {
    s.active[b] == 0 && s.pending[b] == 0
  }

  predicate AllEmpty(s: Ends)
    requires |s.active| == |s.pending|
  {
    forall b :: 0 <= b < |s.active| ==> IsEmpty(s, b)
  }

  /** Nothing is left to do or to hear of, not even an input that waits. */
  predicate Idle(s: Ends)
    requires |s.waiting| == |s.active| == |s.pending|
  {
    forall b :: 0 <= b < |s.active| ==> s.active[b] == 0 && s.pending[b] == 0 && s.waiting[b] == 0
  }

  /**
   Backends without a part have nothing to do; once the end is signalled some backend is still at
   work, none has inputs that wait, and each backend with a part knows.
   */
  predicate ValidEnd(parts: seq<Part>, s: Ends) {
    && Counted(parts, s)
    && (forall b :: 0 <= b < |parts| && parts[b].currentSliceSize == 0 ==> IsEmpty(s, b))
    && (forall b :: 0 <= b < |parts| && (parts[b].currentSliceSize == 0 || s.endSignalled) ==> s.waiting[b] == 0)
    && (s.endSignalled ==> !AllEmpty(s))
    && (forall b :: 0 <= b < |parts| ==> (s.backendEnd[b] <==> s.endSignalled && parts[b].currentSliceSize > 0))
  }

  /** A backend takes an input, and hands the batch over or lets it wait for more. */
  function Busy(s: Ends, b: nat, handsOver: bool): Ends
    requires b < |s.waiting| == |s.active| == |s.pending|
  {
    s.(pending := s.pending[b := s.pending[b] + 1],
       waiting := s.waiting[b := if handsOver then 0 else s.waiting[b] + 1],
       active := s.active[b := s.active[b] + if handsOver then 1 else 0])
  }

  /** A backend's flush: a batch that waits is handed over with a message of its own. */
  function FlushOne(s: Ends, b: nat): Ends
    requires b < |s.waiting| == |s.active| == |s.pending|
  {
    if s.waiting[b] == 0 then s
    else s.(pending := s.pending[b := s.pending[b] + 1], active := s.active[b := s.active[b] + 1], waiting := s.waiting[b := 0])
  }

  /** flush of the first n backends. */
  function Flushed(parts: seq<Part>, s: Ends, n: nat): (r: Ends)
    requires n <= |parts| && Counted(parts, s)
    ensures Counted(parts, r) && r == s.(waiting := r.waiting, active := r.active, pending := r.pending)
    ensures forall b :: n <= b < |parts| ==> r.active[b] == s.active[b] && r.pending[b] == s.pending[b] && r.waiting[b] == s.waiting[b]
    decreases n
  {
    if n == 0 then s
    else
      var r := Flushed(parts, s, n - 1);
      if parts[n - 1].currentSliceSize > 0 then FlushOne(r, n - 1) else r
  }

  /** Every backend with a part and inputs that wait starts one more batch, and hears of one more message. */
  lemma {:induction false} FlushedMeans(parts: seq<Part>, s: Ends, n: nat, b: nat)
    requires n <= |parts| && Counted(parts, s) && b < n
    ensures var r := Flushed(parts, s, n); var more := if parts[b].currentSliceSize > 0 && s.waiting[b] > 0 then 1 else 0;
            && r.active[b] == s.active[b] + more && r.pending[b] == s.pending[b] + more
            && r.waiting[b] == if parts[b].currentSliceSize > 0 then 0 else s.waiting[b]
    decreases n
  {
    if b < n - 1 { FlushedMeans(parts, s, n - 1, b); }
  }

  function With(parts: seq<Part>): (r: seq<bool>)
    ensures |r| == |parts| && forall b :: 0 <= b < |parts| ==> r[b] == (parts[b].currentSliceSize > 0)
  {
    seq(|parts|, b requires 0 <= b < |parts| => parts[b].currentSliceSize > 0)
  }

  function Without(parts: seq<Part>): (r: seq<bool>)
    ensures |r| == |parts| && forall b :: 0 <= b < |parts| ==> !r[b]
  {
    seq(|parts|, _ => false)
  }

  /** processing_finished, up to the call of the caller's callback. */
  function Finished(parts: seq<Part>, s: Ends): Ends {
    s.(endSignalled := false, backendEnd := Without(parts), calling := s.calling + 1,
       finished := s.finished + if s.finishCb.Some? then [s.finishCb.value] else [])
  }

  function Processed(parts: seq<Part>, s: Ends): Ends
    requires Counted(parts, s)
  {
    if s.endSignalled && AllEmpty(s) then Finished(parts, s) else s
  }

  function EndStep(parts: seq<Part>, s: Ends, cb: nat): Ends
    requires Counted(parts, s)
  {
    Processed(parts, Flushed(parts, s, |parts|).(finishCb := Some(cb), endSignalled := true, backendEnd := With(parts)))
  }

  /**
   Signalling the end: what waits is handed over; the callback is called at once exactly if nothing
   was at work and nothing waited, and otherwise is kept.
   */
  lemma EndStepMeans(parts: seq<Part>, s: Ends, cb: nat)
    requires ValidEnd(parts, s) && !s.endSignalled
    ensures var s' := EndStep(parts, s, cb);
            && Counted(parts, s') && s'.finishCb == Some(cb)
            && (forall b: nat :: b < |parts| ==>
                  && s'.waiting[b] == 0
                  && s'.active[b] == s.active[b] + (if s.waiting[b] > 0 then 1 else 0)
                  && s'.pending[b] == s.pending[b] + (if s.waiting[b] > 0 then 1 else 0))
            && if Idle(s) then s'.finished == s.finished + [cb] && !s'.endSignalled && s'.calling == s.calling + 1
               else s'.finished == s.finished && s'.endSignalled && s'.calling == s.calling
  {
    var f := Flushed(parts, s, |parts|);
    forall b: nat | b < |parts|
      ensures && f.waiting[b] == 0
              && f.active[b] == s.active[b] + (if s.waiting[b] > 0 then 1 else 0)
              && f.pending[b] == s.pending[b] + (if s.waiting[b] > 0 then 1 else 0)
    {
      FlushedMeans(parts, s, |parts|, b);
    }
    EmptyIdle(s, f.(finishCb := Some(cb), endSignalled := true, backendEnd := With(parts)));
  }

  lemma EmptyIdle(s: Ends, f: Ends)
    requires |s.waiting| == |s.active| == |s.pending| == |f.active| == |f.pending|
    requires forall b: nat :: b < |s.active| ==> f.active[b] == s.active[b] + (if s.waiting[b] > 0 then 1 else 0)
    requires forall b: nat :: b < |s.active| ==> f.pending[b] == s.pending[b] + (if s.waiting[b] > 0 then 1 else 0)
    ensures AllEmpty(f) <==> Idle(s)
  {
    if AllEmpty(f) {
      forall b: nat | b < |s.active| ensures s.active[b] == 0 && s.pending[b] == 0 && s.waiting[b] == 0 { assert IsEmpty(f, b); }
    }
  }

  function SentStep(parts: seq<Part>, s: Ends, b: nat): Ends
    requires Counted(parts, s) && b < |parts| && s.pending[b] > 0
  {
    Processed(parts, s.(pending := s.pending[b := s.pending[b] - 1]))
  }

  function ProcStep(parts: seq<Part>, s: Ends, b: nat): Ends
    requires Counted(parts, s) && b < |parts| && s.active[b] > 0
  {
    Processed(parts, s.(active := s.active[b := s.active[b] - 1]))
  }

  /** The rest of processing_finished. */
  function ReturnStep(s: Ends): Ends
    requires s.calling > 0
  {
    s.(finishCb := None, calling := s.calling - 1)
  }

  class Proc {
    const backends: seq<Part>
    var books: Adds
    var ends: Ends

    constructor (parts: seq<Part>)
      ensures backends == parts && books == NewAdds(parts) && ends == NewEnds(parts)
    {
      backends, books, ends := parts, NewAdds(parts), NewEnds(parts);
    }

    /**
     _addInput: full says which backends have no room.  An input whose reference is new is
     registered; each covering backend with room that is not marked as having had it receives it.
     */
    method AddInput(size: nat, ref: int, cb: Callback, full: seq<bool>) returns (success: bool)
      requires Shaped(backends, books, full)
      modifies `books
      ensures books == AddStep(backends, old(books), size, ref, cb, full)
      ensures success <==> forall b: nat :: b < |backends| && Wants(backends, old(books), size, ref, b) ==> !full[b]
      ensures forall d: Delivery :: books.delivered[d] == old(books).delivered[d] +
                if d.backend < |backends| && Wants(backends, old(books), size, ref, d.backend) && !full[d.backend]
                   && d == Hand(backends, size, cb.input, d.backend) then 1 else 0
    {
      hide Needing, Covering, Wants, Hand, AddStep, Deliveries, Mark, Unmark;
      ghost var s := books;
      if ref in books.refs {
        books := books.(refs := books.refs[ref := books.refs[ref].(cb := cb)]);
      } else {
        Register(size, ref, cb);
      }
      ghost var sent;
      success, sent := Offer(size, ref, cb, full);
      if success {
        Forget(ref);
      }
      AddStepIs(backends, s, size, ref, cb, full, books);
      AddStepMeans(backends, s, size, ref, cb, full);
    }

    /** Every covering backend that has not had the input gets it now, unless it is full. */
    method Offer(size: nat, ref: int, cb: Callback, full: seq<bool>) returns (success: bool, ghost sent: set<nat>)
      requires Shaped(backends, books, full)
      modifies `books
      ensures sent == SentTo(backends, old(books), size, ref, full)
      ensures success <==> Taken(backends, old(books), size, ref, full)
      ensures var s := old(books);
              books == s.(added := Mark(s.added, ref, sent), delivered := s.delivered + Deliveries(backends, size, cb.input, sent))
    {
      hide Needing, Deliveries, Mark;
      ghost var s := books;
      success, sent := true, {};
      NeedingNone(backends, size, s.added, ref, full);
      DeliveriesNone(backends, size, cb.input);
      MarkNone(s.added, ref);
      var i := 0;
      while i < |backends|
        invariant 0 <= i <= |backends| && forall b :: b in sent ==> b < i
        invariant sent == Needing(backends, size, i, s.added, ref, full, true)
        invariant success <==> Needing(backends, size, i, s.added, ref, full, false) == {}
        invariant books == s.(added := Mark(s.added, ref, sent), delivered := s.delivered + Deliveries(backends, size, cb.input, sent))
      {
        NeedingNext(backends, size, i, s.added, ref, full, true);
        NeedingNext(backends, size, i, s.added, ref, full, false);
        var backend := backends[i];
        if backend.currentOffset < size {
          var amount := if size - backend.currentOffset < backend.currentSliceSize
                        then size - backend.currentOffset else backend.currentSliceSize;
          if amount != 0 {
            if ref !in books.added[i] {
              var canAdd := !full[i];
              if canAdd { books := books.(delivered := books.delivered + multiset{Delivery(cb.input, i, backend.currentOffset, amount)}); }
              success := success && canAdd;
              if canAdd {
                MarkNext(s.added, ref, sent, i);
                DeliveriesNext(backends, size, cb.input, sent, i);
                books := books.(added := books.added[i := books.added[i] + {ref}]);
                sent := sent + {i};
              }
            }
          }
        }
        i := i + 1;
      }
    }

    /** Once everyone has the input, who had it is forgotten. */
    method Forget(ref: int)
      requires |books.added| == |backends|
      modifies `books
      ensures books == old(books).(added := Unmark(old(books).added, ref))
    {
      ghost var s := books;
      var i := 0;
      while i < |backends|
        invariant 0 <= i <= |backends| == |books.added| && books == s.(added := books.added)
        invariant forall b :: 0 <= b < i ==> books.added[b] == s.added[b] - {ref}
        invariant forall b :: i <= b < |backends| ==> books.added[b] == s.added[b]
      {
        books := books.(added := books.added[i := books.added[i] - {ref}]);
        i := i + 1;
      }
      assert books.added == Unmark(s.added, ref);
    }

    /** The first time a reference is seen: count the backends that will have to process the input. */
    method Register(size: nat, ref: int, cb: Callback)
      requires ref !in books.refs
      modifies `books
      ensures books == old(books).(refs := old(books).refs[ref := AddCbRef(|Covering(backends, size, |backends|)|, cb)])
    {
      var backendsActive: int, i := |backends|, 0;
      while i < |backends|
        invariant 0 <= i <= |backends| && backendsActive == |backends| - i + |Covering(backends, size, i)|
        modifies {}
      {
        CoveringNext(backends, size, i);
        var backend := backends[i];
        if backend.currentOffset >= size || backend.currentSliceSize == 0 || size - backend.currentOffset == 0 {
          backendsActive := backendsActive - 1;
        }
        i := i + 1;
      }
      books := books.(refs := books.refs[ref := AddCbRef(backendsActive, cb)]);
    }

    /** A backend is done with an input: its entry must still be there, for the code does not test the look-up. */
    method BackendDone(ref: int)
      requires ref in books.refs
      modifies `books
      ensures books == DoneStep(old(books), ref)
    {
      var entry := books.refs[ref];
      entry := entry.(backendsActive := entry.backendsActive - 1);
      books := books.(refs := books.refs[ref := entry]);
      if entry.backendsActive == 0 {
        books := books.(refs := books.refs - {ref}, called := books.called + [entry.cb]);
        assert books.refs == old(books).refs - {ref};
      }
    }

    // Finishing.

    /** A backend takes an input. */
    method BackendBusy(b: nat, handsOver: bool)
      requires ValidEnd(backends, ends) && !ends.endSignalled && b < |backends| && backends[b].currentSliceSize > 0
      modifies `ends
      ensures ValidEnd(backends, ends) && ends == Busy(old(ends), b, handsOver)
      ensures ends.pending[b] == old(ends).pending[b] + 1
      ensures if handsOver then ends.active[b] == old(ends).active[b] + 1 && ends.waiting[b] == 0
              else ends.active[b] == old(ends).active[b] && ends.waiting[b] == old(ends).waiting[b] + 1
    {
      ends := ends.(pending := ends.pending[b := ends.pending[b] + 1], waiting := ends.waiting[b := ends.waiting[b] + 1]);
      if handsOver { ends := ends.(active := ends.active[b := ends.active[b] + 1], waiting := ends.waiting[b := 0]); }
      assert ends.active == Busy(old(ends), b, handsOver).active && ends.waiting == Busy(old(ends), b, handsOver).waiting;
    }

    /** flush: every backend with a part hands over what waits. */
    method Flush()
      requires ValidEnd(backends, ends)
      modifies `ends
      ensures ends == Flushed(backends, old(ends), |backends|) && ValidEnd(backends, ends)
      ensures forall b: nat :: b < |backends| ==>
                && ends.waiting[b] == 0
                && ends.active[b] == old(ends).active[b] + (if old(ends).waiting[b] > 0 then 1 else 0)
                && ends.pending[b] == old(ends).pending[b] + (if old(ends).waiting[b] > 0 then 1 else 0)
    {
      ghost var s := ends;
      var i := 0;
      while i < |backends|
        invariant 0 <= i <= |backends| && ends == Flushed(backends, s, i)
      {
        if backends[i].currentSliceSize > 0 && ends.waiting[i] != 0 {
          ends := ends.(pending := ends.pending[i := ends.pending[i] + 1], active := ends.active[i := ends.active[i] + 1],
                        waiting := ends.waiting[i := 0]);
        }
        i := i + 1;
      }
      FlushedValid(backends, s);
    }

    /** endInput: everything is flushed; if nothing was at work and nothing waited, it is over at once. */
    method EndInput(cb: nat)
      requires ValidEnd(backends, ends) && !ends.endSignalled
      modifies `ends
      ensures ValidEnd(backends, ends) && ends == EndStep(backends, old(ends), cb)
      ensures forall b: nat :: b < |backends| ==>
                && ends.waiting[b] == 0
                && ends.active[b] == old(ends).active[b] + (if old(ends).waiting[b] > 0 then 1 else 0)
                && ends.pending[b] == old(ends).pending[b] + (if old(ends).waiting[b] > 0 then 1 else 0)
      ensures if Idle(old(ends)) then ends.finished == old(ends).finished + [cb] && !ends.endSignalled
              else ends.finished == old(ends).finished && ends.endSignalled && ends.finishCb == Some(cb)
    {
      hide Flushed, Idle;
      EndStepMeans(backends, ends, cb);
      Flush();
      ghost var flushed := ends;
      ends := ends.(finishCb := Some(cb));
      var allIsEmpty := true;
      var i := 0;
      while i < |backends|
        invariant 0 <= i <= |backends| && |ends.backendEnd| == |backends|
        invariant ends == flushed.(finishCb := Some(cb), backendEnd := ends.backendEnd)
        invariant if allIsEmpty then forall b :: 0 <= b < i ==> IsEmpty(flushed, b) else !AllEmpty(flushed)
        invariant forall b :: 0 <= b < |backends| ==> (ends.backendEnd[b] <==> b < i && backends[b].currentSliceSize > 0)
      {
        if backends[i].currentSliceSize != 0 {
          ends := ends.(backendEnd := ends.backendEnd[i := true]);
          assert IsEmpty(flushed, i) <==> ends.active[i] == 0 && ends.pending[i] == 0;
          allIsEmpty := allIsEmpty && ends.active[i] == 0 && ends.pending[i] == 0;
        }
        i := i + 1;
      }
      ends := ends.(endSignalled := true);
      assert ends == flushed.(finishCb := Some(cb), endSignalled := true, backendEnd := With(backends)) by {
        assert ends.backendEnd == With(backends);
      }
      SameEmpty(flushed, ends);
      if allIsEmpty { ProcessingFinished(); }
      EndValid(backends, flushed, cb);
    }

    /** _notifySent of a backend: it tells the controller only if this may have been the last thing. */
    method NotifySent(b: nat)
      requires ValidEnd(backends, ends) && b < |backends| && ends.pending[b] > 0
      modifies `ends
      ensures ValidEnd(backends, ends) && ends == SentStep(backends, old(ends), b)
      ensures ends.pending == old(ends).pending[b := old(ends).pending[b] - 1] && ends.active == old(ends).active
      ensures ends.calling == old(ends).calling + if old(ends).endSignalled && Idle(ends) then 1 else 0
    {
      assert !IsEmpty(ends, b);
      ends := ends.(pending := ends.pending[b := ends.pending[b] - 1]);
      ghost var sent := ends;
      assert IsEmpty(ends, b) <==> ends.active[b] == 0 && ends.pending[b] == 0;
      if ends.backendEnd[b] && ends.active[b] == 0 && ends.pending[b] == 0 {
        OnBackendProcess();
      } else {
        NotLast(backends, old(ends), ends, b);
      }
      ProcessedValid(backends, sent);
      ProcessedMeans(backends, sent);
    }

    /** _notifyProc of a backend. */
    method NotifyProc(b: nat)
      requires ValidEnd(backends, ends) && b < |backends| && ends.active[b] > 0
      modifies `ends
      ensures ValidEnd(backends, ends) && ends == ProcStep(backends, old(ends), b)
      ensures ends.active == old(ends).active[b := old(ends).active[b] - 1] && ends.pending == old(ends).pending
      ensures ends.calling == old(ends).calling + if old(ends).endSignalled && Idle(ends) then 1 else 0
    {
      assert !IsEmpty(ends, b);
      ends := ends.(active := ends.active[b := ends.active[b] - 1]);
      ghost var sent := ends;
      OnBackendProcess();
      ProcessedValid(backends, sent);
      ProcessedMeans(backends, sent);
    }

    /** onBackendProcess, apart from reporting progress. */
    method OnBackendProcess()
      requires Counted(backends, ends)
      requires forall b :: 0 <= b < |backends| && ends.backendEnd[b] ==> backends[b].currentSliceSize > 0
      modifies `ends
      ensures ends == Processed(backends, old(ends))
    {
      if ends.endSignalled {
        var allIsEmpty := true;
        var i := 0;
        while i < |backends| && allIsEmpty
          invariant 0 <= i <= |backends|
          invariant if allIsEmpty then forall b :: 0 <= b < i ==> IsEmpty(ends, b) else !AllEmpty(ends)
          modifies {}
        {
          if !(ends.active[i] == 0 && ends.pending[i] == 0) {
            assert !IsEmpty(ends, i);
            allIsEmpty := false;
          }
          i := i + 1;
        }
        if allIsEmpty { ProcessingFinished(); }
      }
    }

    /** processing_finished until the callback of endInput runs. */
    method ProcessingFinished()
      requires |ends.backendEnd| == |backends|
      requires forall b :: 0 <= b < |backends| && ends.backendEnd[b] ==> backends[b].currentSliceSize > 0
      modifies `ends
      ensures ends == Finished(backends, old(ends))
    {
      ends := ends.(endSignalled := false);
      ghost var before := ends;
      var i := 0;
      while i < |backends|
        invariant 0 <= i <= |backends| && |ends.backendEnd| == |backends| && ends == before.(backendEnd := ends.backendEnd)
        invariant forall b :: 0 <= b < i ==> !ends.backendEnd[b]
        invariant forall b :: 0 <= b < |backends| && ends.backendEnd[b] ==> backends[b].currentSliceSize > 0
      {
        if backends[i].currentSliceSize > 0 { ends := ends.(backendEnd := ends.backendEnd[i := false]); }
        i := i + 1;
      }
      assert ends.backendEnd == Without(backends);
      if ends.finishCb.Some? { ends := ends.(finished := ends.finished + [ends.finishCb.value]); }
      ends := ends.(calling := ends.calling + 1);
    }

    /** processing_finished from where the callback returns. */
    method CallbackReturned()
      requires ValidEnd(backends, ends) && ends.calling > 0
      modifies `ends
      ensures ValidEnd(backends, ends) && ends == ReturnStep(old(ends))
    {
      ends := ends.(finishCb := None, calling := ends.calling - 1);
      SameEmpty(old(ends), ends);
    }
  }

  function NewAdds(parts: seq<Part>): Adds { Adds(seq(|parts|, _ => {}), map[], multiset{}, []) }

  function NewEnds(parts: seq<Part>): (s: Ends)
    ensures ValidEnd(parts, s)
  {
    Ends(false, None, seq(|parts|, _ => false), seq(|parts|, _ => 0), seq(|parts|, _ => 0), seq(|parts|, _ => 0), 0, [])
  }

  lemma NeedingNone(parts: seq<Part>, size: nat, added: seq<set<int>>, ref: int, full: seq<bool>)
    requires |parts| == |full| == |added|
    ensures Needing(parts, size, 0, added, ref, full, true) == {} == Needing(parts, size, 0, added, ref, full, false)
  {
  }

  lemma DeliveriesNone(parts: seq<Part>, size: nat, input: nat)
    ensures Deliveries(parts, size, input, {}) == multiset{}
  {
  }

  lemma MarkNone(added: seq<set<int>>, ref: int)
    ensures Mark(added, ref, {}) == added
  {
    var r := Mark(added, ref, {});
    assert forall b :: 0 <= b < |r| ==> r[b] == added[b];
  }

  lemma MarkNext(added: seq<set<int>>, ref: int, sent: set<nat>, b: nat)
    requires b < |added| && b !in sent
    ensures var r := Mark(added, ref, sent); Mark(added, ref, sent + {b}) == r[b := r[b] + {ref}]
  {
    var r, r' := Mark(added, ref, sent), Mark(added, ref, sent + {b});
    assert forall c :: 0 <= c < |r| ==> r'[c] == r[b := r[b] + {ref}][c];
  }

  lemma MarkUnmark(added: seq<set<int>>, ref: int, sent: set<nat>)
    ensures Unmark(Mark(added, ref, sent), ref) == Unmark(added, ref)
  {
    var r, r' := Unmark(Mark(added, ref, sent), ref), Unmark(added, ref);
    assert forall b :: 0 <= b < |r| ==> r[b] == r'[b];
  }

  lemma SameEmpty(s: Ends, s': Ends)
    requires |s.active| == |s.pending| && s.active == s'.active && s.pending == s'.pending
    ensures AllEmpty(s) <==> AllEmpty(s')
    ensures forall b :: 0 <= b < |s.active| ==> (IsEmpty(s, b) <==> IsEmpty(s', b))
  {
    forall b | 0 <= b < |s.active| ensures IsEmpty(s, b) <==> IsEmpty(s', b) {}
  }

  /** Finishing when all are empty, and only then, keeps what holds of the flags. */
  lemma ProcessedValid(parts: seq<Part>, s: Ends)
    requires Counted(parts, s)
    requires forall b :: 0 <= b < |parts| && parts[b].currentSliceSize == 0 ==> IsEmpty(s, b)
    requires forall b :: 0 <= b < |parts| && (parts[b].currentSliceSize == 0 || s.endSignalled) ==> s.waiting[b] == 0
    requires forall b :: 0 <= b < |parts| ==> (s.backendEnd[b] <==> s.endSignalled && parts[b].currentSliceSize > 0)
    ensures ValidEnd(parts, Processed(parts, s))
  {
    SameEmpty(s, Processed(parts, s));
  }

  /** The callback is called exactly if the end is signalled and nothing is left anywhere. */
  lemma ProcessedMeans(parts: seq<Part>, s: Ends)
    requires Counted(parts, s) && (s.endSignalled ==> forall b :: 0 <= b < |parts| ==> s.waiting[b] == 0)
    ensures var s' := Processed(parts, s);
            && s'.waiting == s.waiting && s'.active == s.active && s'.pending == s.pending
            && s'.calling == s.calling + (if s.endSignalled && Idle(s') then 1 else 0)
  {
    if s.endSignalled {
      if AllEmpty(s) { forall b | 0 <= b < |parts| ensures s.active[b] == 0 && s.pending[b] == 0 { assert IsEmpty(s, b); } }
      assert Idle(s) <==> AllEmpty(s);
    }
  }

  lemma FlushedValid(parts: seq<Part>, s: Ends)
    requires ValidEnd(parts, s)
    ensures var f := Flushed(parts, s, |parts|);
            && ValidEnd(parts, f)
            && forall b: nat :: b < |parts| ==>
                 && f.waiting[b] == 0
                 && f.active[b] == s.active[b] + (if s.waiting[b] > 0 then 1 else 0)
                 && f.pending[b] == s.pending[b] + (if s.waiting[b] > 0 then 1 else 0)
  {
    hide Flushed;
    var f := Flushed(parts, s, |parts|);
    forall b: nat | b < |parts|
      ensures && f.waiting[b] == 0
              && f.active[b] == s.active[b] + (if s.waiting[b] > 0 then 1 else 0)
              && f.pending[b] == s.pending[b] + (if s.waiting[b] > 0 then 1 else 0)
    {
      FlushedMeans(parts, s, |parts|, b);
    }
    forall b | 0 <= b < |parts| && parts[b].currentSliceSize == 0 ensures IsEmpty(f, b) { assert IsEmpty(s, b); }
    if s.endSignalled {
      var b :| 0 <= b < |s.active| && !IsEmpty(s, b);
      assert !IsEmpty(f, b);
    }
  }

  lemma EndValid(parts: seq<Part>, s: Ends, cb: nat)
    requires ValidEnd(parts, s) && forall b :: 0 <= b < |parts| ==> s.waiting[b] == 0
    ensures ValidEnd(parts, Processed(parts, s.(finishCb := Some(cb), endSignalled := true, backendEnd := With(parts))))
  {
    var t := s.(finishCb := Some(cb), endSignalled := true, backendEnd := With(parts));
    SameEmpty(s, t);
    ProcessedValid(parts, t);
  }

  /** A message that was not the last thing of its backend leaves nothing to finish. */
  lemma NotLast(parts: seq<Part>, s: Ends, s': Ends, b: nat)
    requires ValidEnd(parts, s) && b < |parts| && s.pending[b] > 0 && s' == s.(pending := s.pending[b := s.pending[b] - 1])
    requires !(s.backendEnd[b] && IsEmpty(s', b))
    ensures Processed(parts, s') == s'
  {
    assert !IsEmpty(s, b) && (AllEmpty(s') ==> IsEmpty(s', b));
  }
}
