/**
 The controller over whole runs: inputs that are added, refused and sent again while backends
 complete others in any order, and ends that are signalled while backends are still at work.
 */
module ControllerRuns {
  import opened Allocation
  import opened Controller

  /** What an input has been through. */
  datatype Track = Track(size: nat, ref: int, cb: Callback, accepted: set<nat>, completed: set<nat>, settled: bool)

  /** failed holds the references that were looked up in vain; what the code then does is undefined. */
  datatype State = State(books: Adds, inputs: map<nat, Track>, failed: multiset<int>)

  /** An input is added or sent again; or a backend is done with one it received. */
  datatype Event = AddEvent(input: nat, size: nat, ref: int, form: nat, full: seq<bool>) | DoneEvent(input: nat, backend: nat)

  function Init(parts: seq<Part>): State { State(NewAdds(parts), map[], multiset{}) }

  predicate Enabled(parts: seq<Part>, s: State, e: Event) {
    match e
    case AddEvent(id, size, ref, _, full) =>
      && Shaped(parts, s.books, full)
      && (id in s.inputs ==> var t := s.inputs[id]; t.size == size && t.ref == ref && !t.settled)
    case DoneEvent(id, b) => id in s.inputs && b in s.inputs[id].accepted - s.inputs[id].completed
  }

  function Known(s: State, id: nat, size: nat, ref: int): Track {
    if id in s.inputs then s.inputs[id] else Track(size, ref, Callback(id, 0), {}, {}, false)
  }

  function Next(parts: seq<Part>, s: State, e: Event): State
    requires Enabled(parts, s, e)
  {
    match e
    case AddEvent(id, size, ref, form, full) =>
      var t, cb := Known(s, id, size, ref), Callback(id, form);
      s.(books := AddStep(parts, s.books, size, ref, cb, full),
         inputs := s.inputs[id := t.(cb := cb, accepted := t.accepted + SentTo(parts, s.books, size, ref, full),
                                     settled := Taken(parts, s.books, size, ref, full))])
    case DoneEvent(id, b) =>
      var t := s.inputs[id];
      var now := s.(inputs := s.inputs[id := t.(completed := t.completed + {b})]);
      if t.ref in s.books.refs then now.(books := DoneStep(s.books, t.ref)) else now.(failed := s.failed + multiset{t.ref})
  }

  predicate IsRun(parts: seq<Part>, s: State, es: seq<Event>)
    decreases |es|
  {
    es == [] || (Enabled(parts, s, es[0]) && IsRun(parts, Next(parts, s, es[0]), es[1..]))
  }

  function After(parts: seq<Part>, s: State, es: seq<Event>): State
    requires IsRun(parts, s, es)
    decreases |es|
  {
    if es == [] then s else After(parts, Next(parts, s, es[0]), es[1..])
  }

  /** How often a callback of this input was called. */
  function Told(called: seq<Callback>, id: nat): nat
    decreases |called|
  {
    if called == [] then 0 else Told(called[..|called| - 1], id) + if called[|called| - 1].input == id then 1 else 0
  }

  lemma ToldNext(called: seq<Callback>, cb: Callback, id: nat)
    ensures Told(called + [cb], id) == Told(called, id) + if cb.input == id then 1 else 0
  {
    assert (called + [cb])[..|called|] == called;
  }

  /** The entry under the reference of an input is that input's. */
  predicate Owns(refs: map<int, AddCbRef>, id: nat, ref: int) { ref in refs && refs[ref].cb.input == id }

  /**
   What a caller can see to: no input is added under a reference whose entry is another's, that is,
   before the callback of the input added under it last has been called.
   */
  predicate Proper(s: State, e: Event) {
    e.AddEvent? && e.ref in s.books.refs ==> Owns(s.books.refs, e.input, e.ref)
  }

  predicate ProperRun(parts: seq<Part>, s: State, es: seq<Event>)
    requires IsRun(parts, s, es)
    decreases |es|
  {
    es == [] || (Proper(s, es[0]) && ProperRun(parts, Next(parts, s, es[0]), es[1..]))
  }

  function All(parts: seq<Part>, t: Track): set<nat> { Covering(parts, t.size, |parts|) }

  /** Each backend that has accepted the input was handed its bytes, once; nothing else of it went out. */
  ghost predicate Handed(parts: seq<Part>, delivered: multiset<Delivery>, id: nat, size: nat, accepted: set<nat>) {
    forall d: Delivery :: d.input == id ==>
      delivered[d] == if d.backend in accepted && d == Hand(parts, size, id, d.backend) then 1 else 0
  }

  /** Every delivery so far went out once, and the callback as soon as, and only when, all backends were done. */
  ghost predicate Once(parts: seq<Part>, books: Adds, id: nat, t: Track) {
    && t.completed <= t.accepted <= All(parts, t) && (t.settled <==> t.accepted == All(parts, t))
    && Handed(parts, books.delivered, id, t.size, t.accepted)
    && Told(books.called, id) == (if t.completed == All(parts, t) != {} then 1 else 0)
    && (t.completed == All(parts, t) != {} ==> t.cb in books.called)
  }

  /** Until then the input has its entry, and the marks say who has had it. */
  ghost predicate Entered(parts: seq<Part>, books: Adds, id: nat, t: Track) {
    && |books.added| == |parts| && t.cb.input == id
    && if t.completed == All(parts, t) != {} then !Owns(books.refs, id, t.ref)
       else
         && t.ref in books.refs && books.refs[t.ref] == AddCbRef(|All(parts, t)| - |t.completed|, t.cb)
         && forall b :: 0 <= b < |parts| ==> (t.ref in books.added[b] <==> b in t.accepted && !t.settled)
  }

  ghost predicate Inv(parts: seq<Part>, s: State) {
    && |s.books.added| == |parts| && s.failed == multiset{}
    && (forall id :: id in s.inputs ==> Once(parts, s.books, id, s.inputs[id]) && Entered(parts, s.books, id, s.inputs[id]))
    && (forall ref :: ref in s.books.refs ==> var id := s.books.refs[ref].cb.input; id in s.inputs && s.inputs[id].ref == ref)
    && (forall ref, b :: 0 <= b < |parts| && ref in s.books.added[b] ==> ref in s.books.refs)
    && (forall id: nat :: id !in s.inputs ==> Unseen(s.books, id))
  }

  ghost predicate Unseen(books: Adds, id: nat) {
    Told(books.called, id) == 0 && forall d: Delivery :: d.input == id ==> books.delivered[d] == 0
  }

  lemma InitInv(parts: seq<Part>)
    ensures Inv(parts, Init(parts))
  {
  }

  /** Everyone has the input exactly when nobody refused it. */
  lemma NobodyRefused(parts: seq<Part>, s: Adds, size: nat, ref: int, full: seq<bool>, accepted: set<nat>)
    requires Shaped(parts, s, full) && accepted <= Covering(parts, size, |parts|)
    requires forall b: nat :: b < |parts| ==> (ref in s.added[b] <==> b in accepted)
    ensures var all := Covering(parts, size, |parts|); var sent := SentTo(parts, s, size, ref, full);
            sent <= all && sent !! accepted && (Taken(parts, s, size, ref, full) <==> accepted + sent == all)
  {
    var n := |parts|;
    var all, sent := Covering(parts, size, n), SentTo(parts, s, size, ref, full);
    var refused := Needing(parts, size, n, s.added, ref, full, false);
    assert all == accepted + sent + refused;
    assert refused !! sent && refused !! accepted;
  }

  /** Before it is offered, for the first time or again, an input's marks are those of who has had it. */
  lemma Before(parts: seq<Part>, s: State, id: nat, size: nat, ref: int, full: seq<bool>)
    requires Inv(parts, s) && Enabled(parts, s, AddEvent(id, size, ref, 0, full)) && (ref in s.books.refs ==> Owns(s.books.refs, id, ref))
    ensures var t := Known(s, id, size, ref);
            && t.size == size && t.ref == ref && !t.settled && t.completed <= t.accepted <= All(parts, t)
            && (t.completed == All(parts, t) ==> All(parts, t) == {})
            && Told(s.books.called, id) == 0
            && (forall b: nat :: b < |parts| ==> (ref in s.books.added[b] <==> b in t.accepted))
            && Handed(parts, s.books.delivered, id, size, t.accepted)
            && Entry(parts, s.books.refs, size, ref, t.cb) == AddCbRef(|All(parts, t)| - |t.completed|, t.cb)
  {
    hide Told, Covering;
    if id in s.inputs {
      assert Once(parts, s.books, id, s.inputs[id]) && Entered(parts, s.books, id, s.inputs[id]);
    } else {
      assert Unseen(s.books, id);
    }
  }

  /** The input that is added. */
  lemma AddOwn(parts: seq<Part>, s: State, id: nat, size: nat, ref: int, form: nat, full: seq<bool>)
    requires Inv(parts, s) && Enabled(parts, s, AddEvent(id, size, ref, form, full)) && (ref in s.books.refs ==> Owns(s.books.refs, id, ref))
    ensures var s' := Next(parts, s, AddEvent(id, size, ref, form, full));
            Once(parts, s'.books, id, s'.inputs[id]) && Entered(parts, s'.books, id, s'.inputs[id])
  {
    hide Inv, Once, Entered, SentTo, Deliveries, Taken, Told, Mark, Unmark, Covering;
    var s' := Next(parts, s, AddEvent(id, size, ref, form, full));
    var t, sent := Known(s, id, size, ref), SentTo(parts, s.books, size, ref, full);
    Before(parts, s, id, size, ref, full);
    NobodyRefused(parts, s.books, size, ref, full, t.accepted);
    DeliveredAdded(parts, s.books.delivered, id, size, t.accepted, sent);
    OnceAdded(parts, s'.books, id, t, s'.inputs[id]);
    EnteredAdded(parts, s.books, s'.books, id, t, s'.inputs[id], sent);
  }

  lemma DeliveredAdded(parts: seq<Part>, delivered: multiset<Delivery>, id: nat, size: nat, accepted: set<nat>, sent: set<nat>)
    requires sent !! accepted && Handed(parts, delivered, id, size, accepted)
    ensures Handed(parts, delivered + Deliveries(parts, size, id, sent), id, size, accepted + sent)
  {
    hide Deliveries, Hand;
    forall d: Delivery | d.input == id
      ensures (delivered + Deliveries(parts, size, id, sent))[d] ==
              if d.backend in accepted + sent && d == Hand(parts, size, id, d.backend) then 1 else 0
    {
      DeliveriesCount(parts, size, id, sent, d);
    }
  }

  lemma OnceAdded(parts: seq<Part>, books: Adds, id: nat, t: Track, t': Track)
    requires t'.size == t.size && t'.completed == t.completed <= t.accepted <= t'.accepted <= All(parts, t)
    requires (t.completed == All(parts, t) ==> All(parts, t) == {}) && (t'.settled <==> t'.accepted == All(parts, t))
    requires Told(books.called, id) == 0 && Handed(parts, books.delivered, id, t.size, t'.accepted)
    ensures Once(parts, books, id, t')
  {
  }

  lemma EnteredAdded(parts: seq<Part>, books: Adds, books': Adds, id: nat, t: Track, t': Track, sent: set<nat>)
    requires |books.added| == |parts| && t'.size == t.size && t'.ref == t.ref && t'.completed == t.completed && t'.cb.input == id
    requires t'.accepted == t.accepted + sent
    requires t.completed == All(parts, t) ==> All(parts, t) == {}
    requires t.ref in books'.refs && books'.refs[t.ref] == AddCbRef(|All(parts, t)| - |t.completed|, t'.cb)
    requires books'.added == if t'.settled then Unmark(books.added, t.ref) else Mark(books.added, t.ref, sent)
    requires forall b: nat :: b < |parts| ==> (t.ref in books.added[b] <==> b in t.accepted)
    ensures Entered(parts, books', id, t')
  {
  }

  /** Nothing changes for other inputs. */
  lemma Apart(parts: seq<Part>, books: Adds, books': Adds, id: nat, t: Track)
    requires Once(parts, books, id, t) && Entered(parts, books, id, t) && |books'.added| == |books.added|
    requires Told(books'.called, id) == Told(books.called, id) && forall cb :: cb in books.called ==> cb in books'.called
    requires forall d: Delivery :: d.input == id ==> books'.delivered[d] == books.delivered[d]
    requires Owns(books.refs, id, t.ref) ==>
               && t.ref in books'.refs && books'.refs[t.ref] == books.refs[t.ref]
               && forall b :: 0 <= b < |parts| ==> (t.ref in books'.added[b] <==> t.ref in books.added[b])
    requires Owns(books'.refs, id, t.ref) ==> Owns(books.refs, id, t.ref)
    ensures Once(parts, books', id, t) && Entered(parts, books', id, t)
  {
  }

  lemma AddKept(parts: seq<Part>, s: State, e: Event)
    requires Inv(parts, s) && Enabled(parts, s, e) && Proper(s, e) && e.AddEvent?
    ensures Inv(parts, Next(parts, s, e))
  {
    hide Told, Once, Entered, Taken, SentTo, Deliveries, Hand, Unseen, Covering, Mark, Unmark;
    var s' := Next(parts, s, e);
    AddOwn(parts, s, e.input, e.size, e.ref, e.form, e.full);
    DeliveredOthers(parts, e.size, e.input, SentTo(parts, s.books, e.size, e.ref, e.full), s.books.delivered);
    forall id | id in s'.inputs && id != e.input
      ensures Once(parts, s'.books, id, s'.inputs[id]) && Entered(parts, s'.books, id, s'.inputs[id])
    {
      AddApart(parts, s, e, id);
    }
    forall id: nat | id !in s'.inputs ensures Unseen(s'.books, id) { StillUnseen(s.books, s'.books, id); }
    AddMarks(parts, s, e);
  }

  /** An input that is not the one added. */
  lemma AddApart(parts: seq<Part>, s: State, e: Event, id: nat)
    requires Enabled(parts, s, e) && Proper(s, e) && e.AddEvent? && id in s.inputs && id != e.input
    requires Once(parts, s.books, id, s.inputs[id]) && Entered(parts, s.books, id, s.inputs[id])
    ensures var s' := Next(parts, s, e); Once(parts, s'.books, id, s'.inputs[id]) && Entered(parts, s'.books, id, s'.inputs[id])
  {
    hide Told, Once, Entered, Taken, SentTo, Deliveries, Hand, Covering;
    var s' := Next(parts, s, e);
    DeliveredOthers(parts, e.size, e.input, SentTo(parts, s.books, e.size, e.ref, e.full), s.books.delivered);
    Apart(parts, s.books, s'.books, id, s.inputs[id]);
  }

  lemma AddMarks(parts: seq<Part>, s: State, e: Event)
    requires Inv(parts, s) && Enabled(parts, s, e) && e.AddEvent?
    ensures var s' := Next(parts, s, e);
            forall ref, b :: 0 <= b < |parts| && ref in s'.books.added[b] ==> ref in s'.books.refs
  {
    hide Told, Once, Entered, Taken, SentTo, Deliveries, Hand, Covering, Unseen;
  }

  lemma DeliveredOthers(parts: seq<Part>, size: nat, input: nat, sent: set<nat>, delivered: multiset<Delivery>)
    ensures forall d: Delivery :: d.input != input ==> (delivered + Deliveries(parts, size, input, sent))[d] == delivered[d]
  {
    hide Deliveries, Hand;
    forall d: Delivery | d.input != input ensures (delivered + Deliveries(parts, size, input, sent))[d] == delivered[d] {
      DeliveriesCount(parts, size, input, sent, d);
    }
  }

  lemma StillUnseen(books: Adds, books': Adds, id: nat)
    requires Unseen(books, id) && books'.called == books.called
    requires forall d: Delivery :: d.input == id ==> books'.delivered[d] == books.delivered[d]
    ensures Unseen(books', id)
  {
  }

  /** One more backend is done with an input. */
  lemma DoneOwn(parts: seq<Part>, s: State, id: nat, b: nat)
    requires Inv(parts, s) && Enabled(parts, s, DoneEvent(id, b))
    ensures var t := s.inputs[id];
            && Owns(s.books.refs, id, t.ref)
            && (s.books.refs[t.ref].backendsActive == 1 <==> t.completed + {b} == All(parts, t))
            && (t.completed + {b} == All(parts, t) ==> t.settled)
            && var s' := Next(parts, s, DoneEvent(id, b));
               Once(parts, s'.books, id, s'.inputs[id]) && Entered(parts, s'.books, id, s'.inputs[id])
  {
    hide Told, Covering;
    var t := s.inputs[id];
    assert Once(parts, s.books, id, t) && Entered(parts, s.books, id, t);
    CardinalityLast(All(parts, t), t.completed, b);
    ToldNext(s.books.called, t.cb, id);
  }

  lemma CardinalityLast(all: set<nat>, completed: set<nat>, b: nat)
    requires completed <= all && b in all && b !in completed
    ensures |completed + {b}| == |completed| + 1
    ensures |all| - |completed| == 1 <==> completed + {b} == all
  {
    var rest := all - (completed + {b});
    assert all == completed + {b} + rest;
    assert |all| == |completed + {b}| + |rest|;
  }

  lemma DoneKept(parts: seq<Part>, s: State, e: Event)
    requires Inv(parts, s) && Enabled(parts, s, e) && e.DoneEvent?
    ensures Inv(parts, Next(parts, s, e))
  {
    hide Told, Once, Entered, All;
    var s' := Next(parts, s, e);
    var t := s.inputs[e.input];
    DoneOwn(parts, s, e.input, e.backend);
    forall id: nat | id != e.input ensures Told(s'.books.called, id) == Told(s.books.called, id) {
      ToldNext(s.books.called, s.books.refs[t.ref].cb, id);
    }
    forall id | id in s'.inputs && id != e.input
      ensures Once(parts, s'.books, id, s'.inputs[id]) && Entered(parts, s'.books, id, s'.inputs[id])
    {
      Apart(parts, s.books, s'.books, id, s.inputs[id]);
    }
    DoneMarks(parts, s, e);
    forall id: nat | id !in s'.inputs ensures Unseen(s'.books, id) { assert Unseen(s.books, id); }
  }

  /** When an entry goes, no marks are left. */
  lemma DoneMarks(parts: seq<Part>, s: State, e: Event)
    requires Inv(parts, s) && Enabled(parts, s, e) && e.DoneEvent?
    ensures var s' := Next(parts, s, e);
            forall ref, b :: 0 <= b < |parts| && ref in s'.books.added[b] ==> ref in s'.books.refs
  {
    hide Told;
    var t := s.inputs[e.input];
    assert Entered(parts, s.books, e.input, t) && Once(parts, s.books, e.input, t);
    DoneOwn(parts, s, e.input, e.backend);
  }

  lemma {:induction false} RunKept(parts: seq<Part>, s: State, es: seq<Event>)
    requires Inv(parts, s) && IsRun(parts, s, es) && ProperRun(parts, s, es)
    ensures Inv(parts, After(parts, s, es))
    decreases |es|
  {
    hide Inv, Enabled, Next, Proper;
    if es != [] {
      if es[0].AddEvent? { AddKept(parts, s, es[0]); } else { DoneKept(parts, s, es[0]); }
      RunKept(parts, Next(parts, s, es[0]), es[1..]);
    }
  }

  /**
   Over any interleaving of additions, refusals, resends and completions: each covering backend is
   handed an input once and nobody else is; the callback is called once, when all of them are done
   with it, which for an input that no part covers never happens; and no look-up fails.
   */
  lemma ExactlyOnce(parts: seq<Part>, es: seq<Event>, id: nat)
    requires IsRun(parts, Init(parts), es) && ProperRun(parts, Init(parts), es)
    requires id in After(parts, Init(parts), es).inputs
    ensures var s := After(parts, Init(parts), es); var t := s.inputs[id];
            && s.failed == multiset{}
            && (forall d: Delivery :: d.input == id ==> s.books.delivered[d] <= 1)
            && (t.settled ==> forall d: Delivery :: d.input == id ==>
                  s.books.delivered[d] ==
                    if d.backend < |parts| && HasByte(parts[d.backend], t.size) && d == Hand(parts, t.size, id, d.backend) then 1 else 0)
            && Told(s.books.called, id) <= 1
            && (Told(s.books.called, id) == 1 <==> t.settled && t.completed == t.accepted != {})
            && (Told(s.books.called, id) == 1 ==> t.cb in s.books.called)
  {
    hide Told, ProperRun, After, Entered, HasByte, Hand;
    InitInv(parts);
    RunKept(parts, Init(parts), es);
    var s := After(parts, Init(parts), es);
    assert Once(parts, s.books, id, s.inputs[id]);
    forall d: Delivery ensures d.backend in All(parts, s.inputs[id]) <==>
                               d.backend < |parts| && HasByte(parts[d.backend], s.inputs[id].size)
    {
      CoveringBytes(parts, s.inputs[id].size, d.backend);
    }
  }

  /**
   In a division of a slice, every byte of a settled input that lies in the slice went out exactly
   once: in one delivery, made once, to the backend whose part holds it.  No other byte went out.
   */
  lemma EachByteOnce(parts: seq<Part>, sliceSize: nat, es: seq<Event>, id: nat, x: nat)
    requires Tiles(parts, sliceSize) && IsRun(parts, Init(parts), es) && ProperRun(parts, Init(parts), es)
    requires var s := After(parts, Init(parts), es); id in s.inputs && s.inputs[id].settled
    ensures var s := After(parts, Init(parts), es);
            var ds := s.books.delivered;
            if x < s.inputs[id].size && x < sliceSize then
              exists d: Delivery ::
                && d.input == id && ds[d] == 1 && Carries(d, x) && d.backend < |parts| && Holds(parts[d.backend], x)
                && forall d': Delivery :: d' in ds && d'.input == id && Carries(d', x) ==> d' == d
            else forall d: Delivery :: d in ds && d.input == id ==> !Carries(d, x)
  {
    hide Told, ProperRun, After, Entered, HasByte, Hand, IsRun, Tiles;
    ExactlyOnce(parts, es, id);
    var s := After(parts, Init(parts), es);
    var size := s.inputs[id].size;
    forall d: Delivery | d in s.books.delivered && d.input == id && Carries(d, x)
      ensures d.backend < |parts| && x < size && Holds(parts[d.backend], x) && d == Hand(parts, size, id, d.backend)
    {
      HandBytes(parts, size, id, d.backend, x);
    }
    if x < size && x < sliceSize {
      var b := Owner(parts, sliceSize, x);
      HandBytes(parts, size, id, b, x);
      var d := Hand(parts, size, id, b);
      assert HasByte(parts[b], size) by { ByteHeld(parts[b], size, x); }
      forall d': Delivery | d' in s.books.delivered && d'.input == id && Carries(d', x) ensures d' == d {
        OneHolder(parts, sliceSize, x, b, d'.backend);
      }
      assert d.input == id && s.books.delivered[d] == 1 && Carries(d, x) && Holds(parts[d.backend], x);
    } else {
      forall d: Delivery | d in s.books.delivered && d.input == id ensures !Carries(d, x) {
        if Carries(d, x) { WithinSlice(parts, sliceSize, d.backend, x); }
      }
    }
  }

  lemma ByteHeld(p: Part, size: nat, x: nat)
    requires x < size && Holds(p, x)
    ensures HasByte(p, size)
  {
  }

  lemma OneHolder(parts: seq<Part>, sliceSize: nat, x: nat, a: nat, b: nat)
    requires Tiles(parts, sliceSize) && a < |parts| && b < |parts| && Holds(parts[a], x) && Holds(parts[b], x)
    ensures a == b
  {
    var all := Allocation.All(|parts|);
    assert all[a] && all[b];
  }

  lemma WithinSlice(parts: seq<Part>, sliceSize: nat, b: nat, x: nat)
    requires Tiles(parts, sliceSize) && b < |parts| && Holds(parts[b], x)
    ensures x < sliceSize
  {
  }

  /** In a division of a slice only an empty input falls to no part. */
  lemma CoveredIff(parts: seq<Part>, sliceSize: nat, size: nat)
    requires Tiles(parts, sliceSize) && sliceSize > 0
    ensures Covering(parts, size, |parts|) != {} <==> size > 0
  {
    if size > 0 {
      var i := Owner(parts, sliceSize, 0);
      assert i in Covering(parts, size, |parts|);
    }
  }

  /** So once an input is settled and its deliveries completed, its callback has been called exactly if it has a byte. */
  lemma CalledIff(parts: seq<Part>, sliceSize: nat, es: seq<Event>, id: nat)
    requires Accepted(parts, sliceSize) && sliceSize > 0
    requires IsRun(parts, Init(parts), es) && ProperRun(parts, Init(parts), es)
    requires var s := After(parts, Init(parts), es); id in s.inputs && s.inputs[id].settled && s.inputs[id].completed == s.inputs[id].accepted
    ensures var s := After(parts, Init(parts), es);
            Told(s.books.called, id) == if s.inputs[id].size > 0 then 1 else 0
  {
    hide Told, ProperRun, After, Tiles;
    InitInv(parts);
    RunKept(parts, Init(parts), es);
    var s := After(parts, Init(parts), es);
    assert Once(parts, s.books, id, s.inputs[id]);
    CoveredIff(parts, sliceSize, s.inputs[id].size);
  }

  function NoneFull(parts: seq<Part>): (full: seq<bool>)
    ensures |full| == |parts| && forall b :: 0 <= b < |parts| ==> !full[b]
  {
    seq(|parts|, _ => false)
  }

  /**
   An input beyond every part: adding it succeeds, yet nobody gets it, its callback is not called
   and its entry stays, so that its reference can never be used again for another.
   */
  lemma NotCovered(parts: seq<Part>, size: nat, ref: int, form: nat)
    requires Covering(parts, size, |parts|) == {}
    ensures var es := [AddEvent(0, size, ref, form, NoneFull(parts))];
            && IsRun(parts, Init(parts), es) && ProperRun(parts, Init(parts), es)
            && var s := After(parts, Init(parts), es);
               && 0 in s.inputs && s.inputs[0].settled && s.inputs[0].completed == s.inputs[0].accepted == {}
               && Told(s.books.called, 0) == 0 && ref in s.books.refs && s.books.refs[ref].backendsActive == 0
  {
    hide Covering, Needing;
    var s, e := Init(parts), AddEvent(0, size, ref, form, NoneFull(parts));
    assert Enabled(parts, s, e);
    NoneNeeding(parts, size, s.books.added, ref, e.full);
    OneEvent(parts, s, e);
  }

  lemma NoneNeeding(parts: seq<Part>, size: nat, added: seq<set<int>>, ref: int, full: seq<bool>)
    requires Covering(parts, size, |parts|) == {} && |added| == |full| == |parts|
    ensures Needing(parts, size, |parts|, added, ref, full, true) == {} == Needing(parts, size, |parts|, added, ref, full, false)
  {
    assert Needing(parts, size, |parts|, added, ref, full, true) <= Covering(parts, size, |parts|);
    assert Needing(parts, size, |parts|, added, ref, full, false) <= Covering(parts, size, |parts|);
  }

  lemma OneEvent(parts: seq<Part>, s: State, e: Event)
    requires Enabled(parts, s, e)
    ensures IsRun(parts, s, [e]) && After(parts, s, [e]) == Next(parts, s, e)
    ensures Proper(s, e) ==> ProperRun(parts, s, [e])
  {
    hide Enabled, Next, Proper;
    assert [e][1..] == [] && IsRun(parts, Next(parts, s, e), []);
  }

  // A reference that is used again while its last input is in flight.

  /** The input has gone out to everyone, some are not done with it, and its callback is still to come. */
  ghost predicate InFlight(parts: seq<Part>, s: State, id: nat) {
    && id in s.inputs && var t := s.inputs[id];
       && t.settled && t.completed <= t.accepted == All(parts, t) != t.completed
       && Owns(s.books.refs, id, t.ref) && s.books.refs[t.ref] == AddCbRef(|All(parts, t)| - |t.completed|, t.cb)
       && Told(s.books.called, id) == 0 && Alone(s, id, t.ref)
  }

  /** Nothing else is due under its reference, and nothing of it under another. */
  ghost predicate Alone(s: State, id: nat, ref: int) {
    && (forall r :: Owns(s.books.refs, id, r) ==> r == ref)
    && (forall other :: other in s.inputs && other != id && s.inputs[other].ref == ref
                        ==> s.inputs[other].accepted <= s.inputs[other].completed)
  }

  /** An input whose callback has been called, or has been overwritten: it will not be called any more. */
  ghost predicate Over(s: State, id: nat, n: nat) {
    id in s.inputs && s.inputs[id].settled && Told(s.books.called, id) == n && forall r :: !Owns(s.books.refs, id, r)
  }

  /** Another input is added under the reference of this one while its callback is still to come. */
  predicate Disturbs(s: State, e: Event, id: nat) {
    e.AddEvent? && e.input != id && id in s.inputs && e.ref == s.inputs[id].ref && Owns(s.books.refs, id, e.ref)
  }

  predicate Undisturbed(parts: seq<Part>, s: State, es: seq<Event>, id: nat)
    requires IsRun(parts, s, es)
    decreases |es|
  {
    es == [] || (!Disturbs(s, es[0], id) && Undisturbed(parts, Next(parts, s, es[0]), es[1..], id))
  }

  lemma InFlightAfter(parts: seq<Part>, s: State, id: nat)
    requires Inv(parts, s) && id in s.inputs && s.inputs[id].settled && s.inputs[id].completed != s.inputs[id].accepted
    ensures InFlight(parts, s, id)
  {
    hide Told, Covering;
    var t := s.inputs[id];
    assert Once(parts, s.books, id, t) && Entered(parts, s.books, id, t);
    forall other | other in s.inputs && other != id && s.inputs[other].ref == t.ref
      ensures s.inputs[other].accepted <= s.inputs[other].completed
    {
      assert Once(parts, s.books, other, s.inputs[other]) && Entered(parts, s.books, other, s.inputs[other]);
    }
  }

  lemma OverStep(parts: seq<Part>, s: State, e: Event, id: nat, n: nat)
    requires Enabled(parts, s, e) && Over(s, id, n)
    ensures Over(Next(parts, s, e), id, n)
  {
    hide Told, Deliveries, SentTo, Taken, Shaped;
    if e.DoneEvent? {
      var ref := s.inputs[e.input].ref;
      if ref in s.books.refs {
        assert !Owns(s.books.refs, id, ref);
        ToldNext(s.books.called, s.books.refs[ref].cb, id);
      }
    }
    var s' := Next(parts, s, e);
    forall r ensures !Owns(s'.books.refs, id, r) { assert !Owns(s.books.refs, id, r); }
  }

  lemma {:induction false} OverKept(parts: seq<Part>, s: State, es: seq<Event>, id: nat, n: nat)
    requires IsRun(parts, s, es) && Over(s, id, n)
    ensures Over(After(parts, s, es), id, n)
    decreases |es|
  {
    hide Over, Next, Enabled;
    if es != [] {
      OverStep(parts, s, es[0], id, n);
      OverKept(parts, Next(parts, s, es[0]), es[1..], id, n);
    }
  }

  /** Whatever happens next, the input stays in flight, is called, or is overwritten; and overwritten exactly if disturbed. */
  lemma FlightStep(parts: seq<Part>, s: State, e: Event, id: nat)
    requires Enabled(parts, s, e) && InFlight(parts, s, id)
    ensures var s' := Next(parts, s, e);
            if Disturbs(s, e, id) then Over(s', id, 0) else InFlight(parts, s', id) || Over(s', id, 1)
  {
    hide Told, Covering, Deliveries, SentTo, Taken, Shaped;
    if e.AddEvent? {
      FlightAdd(parts, s, e, id);
    } else {
      FlightDone(parts, s, e, id);
    }
  }

  lemma FlightAdd(parts: seq<Part>, s: State, e: Event, id: nat)
    requires Enabled(parts, s, e) && InFlight(parts, s, id) && e.AddEvent?
    ensures var s' := Next(parts, s, e); if Disturbs(s, e, id) then Over(s', id, 0) else InFlight(parts, s', id)
  {
    hide Told, Covering, Deliveries, SentTo, Taken, Shaped;
    var s' := Next(parts, s, e);
    forall r | Owns(s'.books.refs, id, r) ensures r != e.ref && Owns(s.books.refs, id, r) {}
  }

  lemma FlightDone(parts: seq<Part>, s: State, e: Event, id: nat)
    requires Enabled(parts, s, e) && InFlight(parts, s, id) && e.DoneEvent?
    ensures var s' := Next(parts, s, e); InFlight(parts, s', id) || Over(s', id, 1)
  {
    hide Told, Covering, All, InFlight, Over, Next;
    if e.input == id { FlightOwn(parts, s, id, e.backend); } else { FlightOther(parts, s, e.input, e.backend, id); }
  }

  lemma FlightOwn(parts: seq<Part>, s: State, id: nat, b: nat)
    requires Enabled(parts, s, DoneEvent(id, b)) && InFlight(parts, s, id)
    ensures var s' := Next(parts, s, DoneEvent(id, b)); InFlight(parts, s', id) || Over(s', id, 1)
  {
    hide Told, Covering;
    var s', t := Next(parts, s, DoneEvent(id, b)), s.inputs[id];
    CardinalityLast(All(parts, t), t.completed, b);
    ToldNext(s.books.called, t.cb, id);
    forall r | Owns(s'.books.refs, id, r) ensures Owns(s.books.refs, id, r) {}
  }

  lemma FlightOther(parts: seq<Part>, s: State, other: nat, b: nat, id: nat)
    requires Enabled(parts, s, DoneEvent(other, b)) && InFlight(parts, s, id) && other != id
    ensures InFlight(parts, Next(parts, s, DoneEvent(other, b)), id)
  {
    hide Told, All;
    var s', t, ref := Next(parts, s, DoneEvent(other, b)), s.inputs[id], s.inputs[other].ref;
    assert ref != t.ref;
    if ref in s.books.refs {
      assert !Owns(s.books.refs, id, ref);
      ToldNext(s.books.called, s.books.refs[ref].cb, id);
    }
    forall r | Owns(s'.books.refs, id, r) ensures Owns(s.books.refs, id, r) {}
  }

  /**
   However a run goes on from where an input is in flight, and whatever references other inputs have:
   when every backend is done with it, its callback has been called exactly if no other input was
   added under its reference meanwhile.
   */
  lemma {:induction false} CalledUnlessReused(parts: seq<Part>, s: State, es: seq<Event>, id: nat)
    requires IsRun(parts, s, es) && InFlight(parts, s, id)
    requires var s' := After(parts, s, es); id in s'.inputs && s'.inputs[id].completed == All(parts, s'.inputs[id])
    ensures Told(After(parts, s, es).books.called, id) == if Undisturbed(parts, s, es, id) then 1 else 0
    decreases |es|
  {
    hide Next, Enabled, Told, Disturbs;
    if es != [] {
      var s1 := Next(parts, s, es[0]);
      FlightStep(parts, s, es[0], id);
      if Disturbs(s, es[0], id) {
        OverKept(parts, s1, es[1..], id, 0);
      } else if InFlight(parts, s1, id) {
        CalledUnlessReused(parts, s1, es[1..], id);
      } else {
        OverKept(parts, s1, es[1..], id, 1);
        OverUndisturbed(parts, s1, es[1..], id, 1);
      }
    }
  }

  lemma {:induction false} OverUndisturbed(parts: seq<Part>, s: State, es: seq<Event>, id: nat, n: nat)
    requires IsRun(parts, s, es) && Over(s, id, n)
    ensures Undisturbed(parts, s, es, id)
    decreases |es|
  {
    hide Next, Enabled, Told;
    if es != [] {
      OverStep(parts, s, es[0], id, n);
      OverUndisturbed(parts, Next(parts, s, es[0]), es[1..], id, n);
    }
  }

  predicate NoneAdded(es: seq<Event>, ref: int) { forall k :: 0 <= k < |es| && es[k].AddEvent? ==> es[k].ref != ref }

  /** What is still due of two inputs that share a reference. */
  function Due(s: State, a: nat, b: nat): int
    requires a in s.inputs && b in s.inputs
  {
    |s.inputs[a].accepted| - |s.inputs[a].completed| + |s.inputs[b].accepted| - |s.inputs[b].completed|
  }

  /**
   Input b was added under a's reference: the entry still counts what was due of a, but has b's
   callback.  So that is called before b is due, by the first completions of either, and those
   after them, n in number, look for an entry that is gone.
   */
  ghost predicate Sharing(s: State, a: nat, b: nat, ref: int, n: nat) {
    && a in s.inputs && b in s.inputs && a != b && s.inputs[a].settled && s.inputs[b].settled
    && s.inputs[a].ref == ref == s.inputs[b].ref
    && s.inputs[a].completed <= s.inputs[a].accepted && s.inputs[b].completed <= s.inputs[b].accepted
    && (forall other :: other in s.inputs && other != a && other != b && s.inputs[other].ref == ref
                        ==> s.inputs[other].accepted <= s.inputs[other].completed)
    && (forall r :: Owns(s.books.refs, b, r) ==> r == ref)
    && if ref in s.books.refs then
         && Owns(s.books.refs, b, ref) && s.books.refs[ref].backendsActive == Due(s, a, b) - n > 0
         && Told(s.books.called, b) == 0 && s.failed[ref] == 0
       else Told(s.books.called, b) == 1 && s.failed[ref] == n - Due(s, a, b)
  }

  lemma SharingStep(parts: seq<Part>, s: State, e: Event, a: nat, b: nat, ref: int, n: nat)
    requires Enabled(parts, s, e) && Sharing(s, a, b, ref, n) && (e.AddEvent? ==> e.ref != ref)
    ensures Sharing(Next(parts, s, e), a, b, ref, n)
  {
    hide Told, Deliveries, SentTo, Taken, Shaped, Due;
    var s' := Next(parts, s, e);
    if e.DoneEvent? {
      if e.input == a || e.input == b {
        SharingOwn(parts, s, e.input, e.backend, a, b, ref, n);
      } else {
        SharingOther(parts, s, e.input, e.backend, a, b, ref, n);
      }
    } else {
      assert s'.inputs[a] == s.inputs[a] && s'.inputs[b] == s.inputs[b];
      DueSame(s, s', a, b);
      forall r | Owns(s'.books.refs, b, r) ensures r == ref { assert Owns(s.books.refs, b, r); }
    }
  }

  lemma DueSame(s: State, s': State, a: nat, b: nat)
    requires a in s.inputs && b in s.inputs && a in s'.inputs && b in s'.inputs
    requires s'.inputs[a] == s.inputs[a] && s'.inputs[b] == s.inputs[b]
    ensures Due(s', a, b) == Due(s, a, b)
  {
  }

  lemma DueLess(s: State, s': State, a: nat, b: nat, id: nat, k: nat)
    requires a in s.inputs && b in s.inputs && a != b && (id == a || id == b) && k !in s.inputs[id].completed
    requires s'.inputs == s.inputs[id := s.inputs[id].(completed := s.inputs[id].completed + {k})]
    ensures Due(s', a, b) == Due(s, a, b) - 1
  {
    assert |s.inputs[id].completed + {k}| == |s.inputs[id].completed| + 1;
  }

  lemma SharingOwn(parts: seq<Part>, s: State, id: nat, k: nat, a: nat, b: nat, ref: int, n: nat)
    requires Enabled(parts, s, DoneEvent(id, k)) && Sharing(s, a, b, ref, n) && (id == a || id == b)
    ensures Sharing(Next(parts, s, DoneEvent(id, k)), a, b, ref, n)
  {
    hide Told, Due;
    var s' := Next(parts, s, DoneEvent(id, k));
    DueLess(s, s', a, b, id, k);
    if ref in s.books.refs { ToldNext(s.books.called, s.books.refs[ref].cb, b); }
    forall r | Owns(s'.books.refs, b, r) ensures r == ref { assert Owns(s.books.refs, b, r); }
  }

  lemma SharingOther(parts: seq<Part>, s: State, id: nat, k: nat, a: nat, b: nat, ref: int, n: nat)
    requires Enabled(parts, s, DoneEvent(id, k)) && Sharing(s, a, b, ref, n) && id != a && id != b
    ensures Sharing(Next(parts, s, DoneEvent(id, k)), a, b, ref, n)
  {
    hide Told, Due;
    var s', other := Next(parts, s, DoneEvent(id, k)), s.inputs[id].ref;
    assert other != ref;
    DueSame(s, s', a, b);
    if other in s.books.refs {
      assert !Owns(s.books.refs, b, other);
      ToldNext(s.books.called, s.books.refs[other].cb, b);
    }
    forall r | Owns(s'.books.refs, b, r) ensures r == ref { assert Owns(s.books.refs, b, r); }
  }

  lemma {:induction false} SharingKept(parts: seq<Part>, s: State, es: seq<Event>, a: nat, b: nat, ref: int, n: nat)
    requires IsRun(parts, s, es) && Sharing(s, a, b, ref, n) && NoneAdded(es, ref)
    ensures Sharing(After(parts, s, es), a, b, ref, n)
    decreases |es|
  {
    hide Next, Enabled, Sharing;
    if es != [] {
      SharingStep(parts, s, es[0], a, b, ref, n);
      SharingKept(parts, Next(parts, s, es[0]), es[1..], a, b, ref, n);
    }
  }

  /**
   Reusing the reference of an input in flight, for one that everybody takes at once.  When both
   are done with, the first one's callback has not been called, the second one's was called too
   early, and as many look-ups as the second one has backends have failed.
   */
  lemma ReusedReference(parts: seq<Part>, s: State, a: nat, b: nat, size: nat, form: nat, es: seq<Event>)
    requires Inv(parts, s) && a in s.inputs && s.inputs[a].settled && s.inputs[a].completed != s.inputs[a].accepted && b !in s.inputs
    requires var e := AddEvent(b, size, s.inputs[a].ref, form, NoneFull(parts));
             && Enabled(parts, s, e) && IsRun(parts, Next(parts, s, e), es) && NoneAdded(es, e.ref)
             && var s' := After(parts, Next(parts, s, e), es);
                a in s'.inputs && b in s'.inputs && Due(s', a, b) == 0
    ensures var ref := s.inputs[a].ref;
            var s' := After(parts, Next(parts, s, AddEvent(b, size, ref, form, NoneFull(parts))), es);
            && Told(s'.books.called, a) == 0 && Told(s'.books.called, b) == 1
            && s'.failed[ref] == |Covering(parts, size, |parts|)|
  {
    hide Told, IsRun, After, Covering, Next, Enabled, Inv, InFlight, Over, Sharing;
    var ref := s.inputs[a].ref;
    var e := AddEvent(b, size, ref, form, NoneFull(parts));
    InFlightAfter(parts, s, a);
    InFlightMeans(parts, s, a);
    FlightStep(parts, s, e, a);
    SharingStart(parts, s, a, b, size, form);
    OverKept(parts, Next(parts, s, e), es, a, 0);
    SharingKept(parts, Next(parts, s, e), es, a, b, ref, |Covering(parts, size, |parts|)|);
    SharingEnd(After(parts, Next(parts, s, e), es), a, b, ref, |Covering(parts, size, |parts|)|);
    OverMeans(After(parts, Next(parts, s, e), es), a, 0);
  }

  lemma InFlightMeans(parts: seq<Part>, s: State, id: nat)
    requires InFlight(parts, s, id)
    ensures id in s.inputs && Owns(s.books.refs, id, s.inputs[id].ref)
  {
  }

  lemma OverMeans(s: State, id: nat, n: nat)
    requires Over(s, id, n)
    ensures Told(s.books.called, id) == n
  {
  }

  lemma SharingEnd(s: State, a: nat, b: nat, ref: int, n: nat)
    requires Sharing(s, a, b, ref, n) && Due(s, a, b) == 0
    ensures Told(s.books.called, b) == 1 && s.failed[ref] == n
  {
  }

  lemma SharingStart(parts: seq<Part>, s: State, a: nat, b: nat, size: nat, form: nat)
    requires Inv(parts, s) && a in s.inputs && s.inputs[a].settled && s.inputs[a].completed != s.inputs[a].accepted && b !in s.inputs
    requires Enabled(parts, s, AddEvent(b, size, s.inputs[a].ref, form, NoneFull(parts)))
    ensures Sharing(Next(parts, s, AddEvent(b, size, s.inputs[a].ref, form, NoneFull(parts))), a, b, s.inputs[a].ref,
                    |Covering(parts, size, |parts|)|)
  {
    hide Told, Covering, Taken, SentTo, Deliveries;
    var ref := s.inputs[a].ref;
    var e := AddEvent(b, size, ref, form, NoneFull(parts));
    var s' := Next(parts, s, e);
    InFlightAfter(parts, s, a);
    assert Unseen(s.books, b) && Once(parts, s.books, a, s.inputs[a]) && Entered(parts, s.books, a, s.inputs[a]);
    NewGoesToAll(parts, s.books, size, ref, e.full);
    CardinalityDue(s.inputs[a].accepted, s.inputs[a].completed);
    forall r | Owns(s'.books.refs, b, r) ensures r == ref {}
  }

  lemma CardinalityDue(all: set<nat>, completed: set<nat>)
    requires completed <= all && completed != all
    ensures |completed| < |all|
  {
    assert all == completed + (all - completed);
    assert all - completed != {};
  }

  /** Where nobody is marked and nobody full. */
  lemma NewGoesToAll(parts: seq<Part>, s: Adds, size: nat, ref: int, full: seq<bool>)
    requires Shaped(parts, s, full) && (forall b :: 0 <= b < |parts| ==> !full[b] && ref !in s.added[b])
    ensures SentTo(parts, s, size, ref, full) == Covering(parts, size, |parts|) && Taken(parts, s, size, ref, full)
  {
    NobodyRefused(parts, s, size, ref, full, {});
    assert Needing(parts, size, |parts|, s.added, ref, full, false) == {};
  }

  /**
   Reusing the reference of an input that some backends have yet to take: those that have taken it
   never get the new one, though adding that succeeds; and once the old one is sent again, they
   have been handed it twice.
   */
  lemma ReusedUnsettled(parts: seq<Part>, s: State, a: nat, b: nat, size: nat, form: nat)
    requires Inv(parts, s) && a in s.inputs && !s.inputs[a].settled && b !in s.inputs
    ensures var t := s.inputs[a]; var e := AddEvent(b, size, t.ref, form, NoneFull(parts)); var again := AddEvent(a, t.size, t.ref, form, NoneFull(parts));
            && Enabled(parts, s, e)
            && var s1 := Next(parts, s, e);
               && s1.inputs[b].settled && s1.inputs[b].accepted == Covering(parts, size, |parts|) - t.accepted
               && Enabled(parts, s1, again)
               && var s2 := Next(parts, s1, again);
                  forall k: nat :: s2.books.delivered[Hand(parts, t.size, a, k)] ==
                    if k in t.accepted then 2 else if k in All(parts, t) then 1 else 0
  {
    hide Told, Covering, Deliveries;
    var t := s.inputs[a];
    var e, again := AddEvent(b, size, t.ref, form, NoneFull(parts)), AddEvent(a, t.size, t.ref, form, NoneFull(parts));
    assert Once(parts, s.books, a, t) && Entered(parts, s.books, a, t);
    NoneRefuses(parts, s.books, size, t.ref, t.accepted);
    var s1 := Next(parts, s, e);
    NoneRefuses(parts, s1.books, t.size, t.ref, {});
    forall k: nat ensures Next(parts, s1, again).books.delivered[Hand(parts, t.size, a, k)] ==
                    if k in t.accepted then 2 else if k in All(parts, t) then 1 else 0 {
      var d := Hand(parts, t.size, a, k);
      DeliveriesCount(parts, size, b, SentTo(parts, s.books, size, t.ref, e.full), d);
      DeliveriesCount(parts, t.size, a, SentTo(parts, s1.books, t.size, t.ref, again.full), d);
    }
  }

  lemma NoneRefuses(parts: seq<Part>, s: Adds, size: nat, ref: int, marked: set<nat>)
    requires |s.added| == |parts| && forall b: nat :: b < |parts| ==> (ref in s.added[b] <==> b in marked)
    ensures var full := NoneFull(parts);
            && SentTo(parts, s, size, ref, full) == Covering(parts, size, |parts|) - marked && Taken(parts, s, size, ref, full)
  {
    assert Needing(parts, size, |parts|, s.added, ref, NoneFull(parts), false) == {};
  }
}
