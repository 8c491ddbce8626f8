/**
 How the controller divides a slice among backends: checkBackendAllocation accepts divisions in
 which every byte belongs to one backend and no 16-bit word is split.
 */
module Allocation {
  import opened Arith

  /** A backend's part of the slice. */
  datatype Part = Part(currentOffset: nat, currentSliceSize: nat)

  function End(p: Part): nat { p.currentOffset + p.currentSliceSize }

  predicate Holds(p: Part, x: int) { p.currentOffset <= x < End(p) }

  /** Byte x belongs to one of the chosen parts. */
  ghost predicate Held(parts: seq<Part>, chosen: seq<bool>, x: int)
    requires |chosen| == |parts|
  {
    exists i :: 0 <= i < |parts| && chosen[i] && Holds(parts[i], x)
  }

  predicate Apart(p: Part, q: Part) { End(p) <= q.currentOffset || End(q) <= p.currentOffset }

  /** No byte belongs to two of the chosen parts. */
  predicate Disjoint(parts: seq<Part>, chosen: seq<bool>)
    requires |chosen| == |parts|
  {
    forall i, j :: 0 <= i < j < |parts| && chosen[i] && chosen[j] ==> Apart(parts[i], parts[j])
  }

  function All(n: nat): (r: seq<bool>)
    ensures |r| == n
  {
    seq(n, _ => true)
  }

  /** Every byte of the slice belongs to exactly one part, and no part reaches past it. */
  ghost predicate Tiles(parts: seq<Part>, size: nat) {
    && (forall i :: 0 <= i < |parts| ==> End(parts[i]) <= size)
    && (forall x :: 0 <= x < size ==> Held(parts, All(|parts|), x))
    && Disjoint(parts, All(|parts|))
  }

  /** The test of the code: a part begins at an even offset and has an even size, unless it ends the slice. */
  predicate Aligned(p: Part, size: nat) {
    p.currentOffset % 2 == 0 && (End(p) % 2 == 0 || End(p) == size)
  }

  /** Boundaries inside the slice lie between 16-bit words. */
  predicate EvenInside(p: Part, size: nat) {
    (p.currentOffset % 2 == 0 || p.currentOffset == size) && (End(p) % 2 == 0 || End(p) == size)
  }

  predicate NonEmpty(parts: seq<Part>) {
    forall i :: 0 <= i < |parts| ==> parts[i].currentSliceSize > 0
  }

  /** The chosen parts fill [start, end). */
  ghost predicate Fills(parts: seq<Part>, chosen: seq<bool>, start: int, end: int)
    requires |chosen| == |parts|
  {
    && 0 <= start <= end
    && (forall i :: 0 <= i < |parts| && chosen[i] ==> start <= parts[i].currentOffset && End(parts[i]) <= end)
    && (forall x :: start <= x < end ==> Held(parts, chosen, x))
    && Disjoint(parts, chosen)
  }

  // Counting what is still unchecked.

  function CountFalse(xs: seq<bool>): nat {
    if xs == [] then 0 else CountFalse(xs[..|xs| - 1]) + if xs[|xs| - 1] then 0 else 1
  }

  lemma {:induction false} CountFalseSet(xs: seq<bool>, i: nat)
    requires i < |xs| && !xs[i]
    ensures CountFalse(xs[i := true]) == CountFalse(xs) - 1
    decreases |xs|
  {
    var n := |xs| - 1;
    if i == n {
      assert xs[i := true][..n] == xs[..n];
    } else {
      CountFalseSet(xs[..n], i);
      assert xs[i := true][..n] == xs[..n][i := true];
    }
  }

  lemma {:induction false} CountFalseZero(xs: seq<bool>)
    ensures CountFalse(xs) == 0 <==> forall i :: 0 <= i < |xs| ==> xs[i]
    decreases |xs|
  {
    if xs != [] {
      var n := |xs| - 1;
      CountFalseZero(xs[..n]);
      if forall i :: 0 <= i < n ==> xs[..n][i] { assert forall i :: 0 <= i < n ==> xs[i]; }
    }
  }

  lemma {:induction false} CountFalseNew(xs: seq<bool>)
    requires |xs| > 0 && xs[0] && forall i :: 1 <= i < |xs| ==> !xs[i]
    ensures CountFalse(xs) == |xs| - 1
    decreases |xs|
  {
    var n := |xs| - 1;
    if n > 0 { CountFalseNew(xs[..n]); }
  }

  // The three ways a part can touch [start, end).

  predicate AtStart(p: Part, start: int) { p.currentOffset <= start && End(p) >= start }

  predicate AtEnd(p: Part, end: int) { End(p) >= end && p.currentOffset <= end }

  predicate Inside(p: Part, start: int, end: int) { p.currentOffset > start && End(p) < end }

  predicate Untouched(p: Part, start: int, end: int) {
    !AtStart(p, start) && !AtEnd(p, end) && !Inside(p, start, end)
  }

  ghost predicate Overlapping(parts: seq<Part>) {
    exists i, j :: 0 <= i < j < |parts| && !Apart(parts[i], parts[j])
  }

  lemma OverlappingNotTiled(parts: seq<Part>, size: nat)
    requires Overlapping(parts)
    ensures !Tiles(parts, size)
  {
    var i, j :| 0 <= i < j < |parts| && !Apart(parts[i], parts[j]);
    assert All(|parts|)[i] && All(|parts|)[j];
  }

  /** A part that holds a byte of [start, end) shares it with one of those that fill it. */
  lemma Reaches(parts: seq<Part>, chosen: seq<bool>, start: int, end: int, i: nat, x: int)
    requires |chosen| == |parts| && Fills(parts, chosen, start, end)
    requires i < |parts| && !chosen[i] && start <= x < end && Holds(parts[i], x)
    ensures Overlapping(parts)
  {
    assert Held(parts, chosen, x);
    var j :| 0 <= j < |parts| && chosen[j] && Holds(parts[j], x);
    assert !Apart(parts[i], parts[j]) && !Apart(parts[j], parts[i]);
    if i < j { assert Overlapping(parts); }
  }

  /** A part that ends where [start, end) begins, or begins where it ends, makes it longer. */
  lemma Extends(parts: seq<Part>, chosen: seq<bool>, start: int, end: int, i: nat, lo: int, hi: int)
    requires |chosen| == |parts| && Fills(parts, chosen, start, end) && i < |parts| && !chosen[i]
    requires var p := parts[i];
             || (End(p) == start && lo == p.currentOffset && hi == end)
             || (p.currentOffset == end && lo == start && hi == End(p))
    ensures Fills(parts, chosen[i := true], lo, hi)
  {
    var now := chosen[i := true];
    forall x | lo <= x < hi ensures Held(parts, now, x) {
      if start <= x < end {
        assert Held(parts, chosen, x);
        var j :| 0 <= j < |parts| && chosen[j] && Holds(parts[j], x);
        assert now[j] && Holds(parts[j], x);
      } else {
        assert now[i] && Holds(parts[i], x);
      }
    }
  }

  /** What examining one part does to the filled range. */
  lemma Joining(parts: seq<Part>, chosen: seq<bool>, start: int, end: int, i: nat)
    requires |chosen| == |parts| && Fills(parts, chosen, start, end) && i < |parts| && !chosen[i]
    ensures var p := parts[i]; var now := chosen[i := true];
            && (AtStart(p, start) && End(p) == start ==> Fills(parts, now, p.currentOffset, end))
            && (AtEnd(p, end) && p.currentOffset == end ==> Fills(parts, now, start, End(p)))
            && (start < end && AtStart(p, start) && End(p) > start ==> Overlapping(parts))
            && (start < end && AtEnd(p, end) && !AtStart(p, start) && p.currentOffset < end ==> Overlapping(parts))
            && (start < end && Inside(p, start, end) && p.currentSliceSize > 0 ==> Overlapping(parts))
  {
    var p := parts[i];
    if AtStart(p, start) && End(p) == start { Extends(parts, chosen, start, end, i, p.currentOffset, end); }
    if AtEnd(p, end) && p.currentOffset == end { Extends(parts, chosen, start, end, i, start, End(p)); }
    if start < end {
      if AtStart(p, start) && End(p) > start { Reaches(parts, chosen, start, end, i, start); }
      if AtEnd(p, end) && !AtStart(p, start) && p.currentOffset < end { Reaches(parts, chosen, start, end, i, p.currentOffset); }
      if Inside(p, start, end) && p.currentSliceSize > 0 { Reaches(parts, chosen, start, end, i, p.currentOffset); }
    }
  }

  lemma Owner(parts: seq<Part>, size: nat, x: nat) returns (i: nat)
    requires Tiles(parts, size) && x < size
    ensures i < |parts| && Holds(parts[i], x)
  {
    assert Held(parts, All(|parts|), x);
    i :| 0 <= i < |parts| && Holds(parts[i], x);
  }

  /** Nothing is left to lie apart from a range that is the whole slice. */
  lemma Leftover(parts: seq<Part>, chosen: seq<bool>, start: int, end: int, size: nat, i: nat)
    requires |chosen| == |parts| > 0 && Fills(parts, chosen, start, end) && i < |parts| && !chosen[i]
    requires start == 0 && end >= size && Untouched(parts[i], start, end)
    ensures !Tiles(parts, size)
  {
  }

  /** A part left over that touches nothing: then the division has a gap. */
  lemma Gap(parts: seq<Part>, chosen: seq<bool>, start: int, end: int, size: nat, i: nat)
    requires |chosen| == |parts| > 0 && Fills(parts, chosen, start, end) && chosen[0]
    requires i < |parts| && !chosen[i]
    requires forall h :: 0 <= h < |parts| && !chosen[h] ==> Untouched(parts[h], start, end)
    ensures !Tiles(parts, size)
  {
    if Tiles(parts, size) {
      if start > 0 {
        var h := Owner(parts, size, start - 1);
      } else if end < size {
        var h := Owner(parts, size, end);
      } else {
        Leftover(parts, chosen, start, end, size, i);
      }
    }
  }

  /** Once all parts are chosen, they tile the slice exactly when they fill it. */
  lemma AllChosen(parts: seq<Part>, chosen: seq<bool>, start: int, end: int, size: nat)
    requires |chosen| == |parts| && Fills(parts, chosen, start, end)
    requires forall i :: 0 <= i < |parts| ==> chosen[i]
    ensures start == 0 && end == size ==> Tiles(parts, size)
    ensures start < end && Tiles(parts, size) ==> start == 0 && end == size
  {
    assert chosen == All(|parts|);
    if start < end && Tiles(parts, size) {
      assert Held(parts, chosen, start) && Held(parts, chosen, end - 1);
      if start > 0 { var h := Owner(parts, size, 0); }
      if end < size { var h := Owner(parts, size, end); }
    }
  }

  /** In a division the first part's boundaries are those of other parts, so they need no test. */
  lemma FirstAligned(parts: seq<Part>, size: nat)
    requires |parts| > 0 && Tiles(parts, size) && forall i :: 1 <= i < |parts| ==> Aligned(parts[i], size)
    ensures EvenInside(parts[0], size)
  {
    var p := parts[0];
    assert All(|parts|)[0];
    if p.currentOffset > 0 {
      var h := Owner(parts, size, p.currentOffset - 1);
      assert All(|parts|)[h] && Apart(p, parts[h]);
      assert Aligned(parts[h], size);
    }
    if End(p) < size {
      var h := Owner(parts, size, End(p));
      assert h > 0 ==> All(|parts|)[h] && Apart(p, parts[h]);
      assert Aligned(parts[h], size);
    }
  }

  /** What the check is for. */
  ghost predicate Accepted(parts: seq<Part>, size: nat) {
    Tiles(parts, size) && forall i :: 0 <= i < |parts| ==> EvenInside(parts[i], size)
  }

  // Empty parts: whether they are accepted depends on the order in which parts are examined.

  predicate Full(p: Part) { p.currentSliceSize > 0 }

  /** Going round after a, e comes before b. */
  predicate Between(a: nat, e: nat, b: nat) { if a < b then a < e < b else e > a || e < b }

  /** Whether the range joined so far gets to offset x from the right. */
  predicate LeftSide(parts: seq<Part>, x: int)
    requires |parts| > 0
  {
    x < parts[0].currentOffset || (x == parts[0].currentOffset && Full(parts[0]))
  }

  /** Part a brings the joined range up to offset x. */
  predicate InnerAt(parts: seq<Part>, x: int, a: nat)
    requires |parts| > 0
  {
    && a < |parts|
    && if LeftSide(parts, x) then Full(parts[a]) && parts[a].currentOffset == x
       else if x == parts[0].currentOffset && !Full(parts[0]) then a == 0
       else Full(parts[a]) && End(parts[a]) == x
  }

  /** Part b takes it past x. */
  predicate OuterAt(parts: seq<Part>, x: int, b: nat)
    requires |parts| > 0
  {
    && b < |parts| && Full(parts[b])
    && if LeftSide(parts, x) then End(parts[b]) == x else parts[b].currentOffset == x
  }

  /** Part e is examined while its offset is an end of the joined range. */
  predicate InTime(parts: seq<Part>, e: nat)
    requires e < |parts|
  {
    var x := parts[e].currentOffset;
    forall a: nat, b: nat :: a < |parts| && b < |parts| && InnerAt(parts, x, a) && OuterAt(parts, x, b) ==> Between(a, e, b)
  }

  /** If part 0 is empty, the part that ends where it lies comes before the one that begins there. */
  predicate FirstInTime(parts: seq<Part>)
    requires |parts| > 0
  {
    !Full(parts[0]) ==>
      forall b: nat :: b < |parts| && Full(parts[b]) && parts[b].currentOffset == parts[0].currentOffset ==>
        exists a: nat :: a < b && Full(parts[a]) && End(parts[a]) == parts[0].currentOffset
  }

  /** What checkBackendAllocation tests, as a caller can: offsets, sizes and the order of the parts. */
  ghost predicate Passes(parts: seq<Part>, size: nat)
    requires |parts| > 0
  {
    && Accepted(parts, size) && (forall i :: 1 <= i < |parts| ==> Aligned(parts[i], size))
    && FirstInTime(parts) && forall e: nat :: 1 <= e < |parts| && !Full(parts[e]) ==> InTime(parts, e)
  }

  /** Without empty parts the order does not matter. */
  lemma NonEmptyPasses(parts: seq<Part>, size: nat)
    requires |parts| > 0 && NonEmpty(parts)
    ensures Passes(parts, size) <==> Accepted(parts, size)
  {
    if Accepted(parts, size) {
      forall i | 1 <= i < |parts| ensures Aligned(parts[i], size) { assert EvenInside(parts[i], size) && End(parts[i]) <= size; }
    }
  }

  lemma Unique(parts: seq<Part>, size: nat, a: nat, b: nat)
    requires Tiles(parts, size) && a < |parts| && b < |parts| && Full(parts[a]) && Full(parts[b])
    requires parts[a].currentOffset == parts[b].currentOffset || End(parts[a]) == End(parts[b])
    ensures a == b
  {
    var all := All(|parts|);
    assert all[a] && all[b];
  }

  /** The state of the search at part i: what has been examined since the joined range got to its ends. */
  ghost predicate OnTime(parts: seq<Part>, chosen: seq<bool>, start: int, end: int, i: nat)
    requires |parts| == |chosen| > 0
  {
    && (start < end && !Full(parts[0]) ==> start < parts[0].currentOffset && FirstInTime(parts))
    && (start == end ==> forall a: nat :: a < |parts| && Full(parts[a]) && End(parts[a]) == start ==> a >= i)
    && (forall x: int, a: nat, b: nat :: (x == start || x == end) && InnerAt(parts, x, a) && OuterAt(parts, x, b) ==> !Between(a, b, i))
    && forall e: nat :: 1 <= e < |parts| && !Full(parts[e]) ==> EmptyOnTime(parts, chosen, start, end, i, e)
  }

  ghost predicate EmptyOnTime(parts: seq<Part>, chosen: seq<bool>, start: int, end: int, i: nat, e: nat)
    requires |parts| == |chosen| > 0 && e < |parts|
  {
    var x := parts[e].currentOffset;
    if x == start || x == end then
      forall a: nat, b: nat :: InnerAt(parts, x, a) && OuterAt(parts, x, b) ==> (chosen[e] <==> Between(a, e, i))
    else start < x < end ==> (chosen[e] <==> InTime(parts, e))
  }

  /** Which side the ends of the joined range are on. */
  lemma Sides(parts: seq<Part>, chosen: seq<bool>, start: int, end: int, i: nat)
    requires |parts| == |chosen| > 0 && chosen[0] && Fills(parts, chosen, start, end) && OnTime(parts, chosen, start, end, i)
    ensures start <= parts[0].currentOffset && End(parts[0]) <= end
    ensures start < end ==> LeftSide(parts, start)
    ensures !LeftSide(parts, end)
  {
  }

  /** No part is both. */
  lemma InnerOuter(parts: seq<Part>, x: int, a: nat, b: nat)
    requires |parts| > 0 && InnerAt(parts, x, a) && OuterAt(parts, x, b)
    ensures a != b
  {
  }

  /** What lies past an end of the joined range has not been chosen. */
  lemma OuterUnchosen(parts: seq<Part>, chosen: seq<bool>, start: int, end: int, i: nat, x: int, b: nat)
    requires |parts| == |chosen| > 0 && chosen[0] && Fills(parts, chosen, start, end) && OnTime(parts, chosen, start, end, i)
    requires (x == start || x == end) && OuterAt(parts, x, b)
    ensures !chosen[b]
  {
    Sides(parts, chosen, start, end, i);
  }

  /** Going on to the next part adds the one examined. */
  lemma BetweenNext(a: nat, e: nat, i: nat)
    requires a != i
    ensures Between(a, e, i + 1) <==> Between(a, e, i) || e == i
  {
  }

  /** A part that changes nothing about the joined range: chosen before, not touching it, or empty at one of its ends. */
  lemma StepSame(parts: seq<Part>, chosen: seq<bool>, chosen': seq<bool>, start: int, end: int, i: nat)
    requires |parts| == |chosen| > 0 && 1 <= i < |parts| && chosen[0] && Fills(parts, chosen, start, end)
    requires OnTime(parts, chosen, start, end, i)
    requires chosen' == if Untouched(parts[i], start, end) then chosen else chosen[i := true]
    requires chosen[i] || Untouched(parts[i], start, end)
             || (!Full(parts[i]) && (parts[i].currentOffset == start || parts[i].currentOffset == end))
    ensures OnTime(parts, chosen', start, end, i + 1)
  {
    hide InTime, FirstInTime, InnerAt, OuterAt, LeftSide, Between, Full;
    forall x: int, a: nat, b: nat | (x == start || x == end) && InnerAt(parts, x, a) && OuterAt(parts, x, b)
      ensures a != i && !Between(a, b, i + 1)
    {
      EndsAtFrontier(parts, chosen, start, end, i, x, a, b);
    }
    forall e: nat | 1 <= e < |parts| && !Full(parts[e]) ensures EmptyOnTime(parts, chosen', start, end, i + 1, e) {
      assert EmptyOnTime(parts, chosen, start, end, i, e);
      var x := parts[e].currentOffset;
      if x == start || x == end {
        forall a: nat, b: nat | InnerAt(parts, x, a) && OuterAt(parts, x, b)
          ensures chosen'[e] <==> Between(a, e, i + 1)
        {
          EndsAtFrontier(parts, chosen, start, end, i, x, a, b);
          BetweenNext(a, e, i);
        }
      }
    }
    FullEnds(parts, start, end, i);
  }

  lemma FullEnds(parts: seq<Part>, start: int, end: int, i: nat)
    requires i < |parts|
    ensures Full(parts[i]) && End(parts[i]) == start ==> !Untouched(parts[i], start, end)
    ensures Full(parts[i]) && parts[i].currentOffset == end ==> !Untouched(parts[i], start, end)
    ensures !Full(parts[i]) && start <= parts[i].currentOffset <= end ==> !Untouched(parts[i], start, end)
  {
  }

  /** At part i neither the inner nor the outer part of an end is examined, unless that part joins. */
  lemma EndsAtFrontier(parts: seq<Part>, chosen: seq<bool>, start: int, end: int, i: nat, x: int, a: nat, b: nat)
    requires |parts| == |chosen| > 0 && 1 <= i < |parts| && chosen[0] && Fills(parts, chosen, start, end)
    requires OnTime(parts, chosen, start, end, i)
    requires chosen[i] || Untouched(parts[i], start, end)
             || (!Full(parts[i]) && (parts[i].currentOffset == start || parts[i].currentOffset == end))
    requires (x == start || x == end) && InnerAt(parts, x, a) && OuterAt(parts, x, b)
    ensures a != i && b != i && !Between(a, b, i + 1)
  {
    hide InTime, FirstInTime;
    Sides(parts, chosen, start, end, i);
    InnerOuter(parts, x, a, b);
    OuterUnchosen(parts, chosen, start, end, i, x, b);
    assert !Between(a, b, i);
    FullEnds(parts, start, end, i);
    BetweenNext(a, b, i);
  }

  /** At the end of a pass the next one begins; nothing that was still to come has been passed over. */
  lemma StepAround(parts: seq<Part>, chosen: seq<bool>, start: int, end: int)
    requires |parts| == |chosen| > 0 && OnTime(parts, chosen, start, end, |parts|)
    ensures OnTime(parts, chosen, start, end, 1)
  {
    hide InTime, FirstInTime;
    var n := |parts|;
    forall x: int, a: nat, b: nat | (x == start || x == end) && InnerAt(parts, x, a) && OuterAt(parts, x, b)
      ensures a != 0 && !Between(a, b, 1)
    {
      InnerOuter(parts, x, a, b);
      assert !Between(a, b, n);
    }
    forall e: nat | 1 <= e < n && !Full(parts[e]) ensures EmptyOnTime(parts, chosen, start, end, 1, e) {
      assert EmptyOnTime(parts, chosen, start, end, n, e);
    }
  }

  /** At first only part 0 is chosen. */
  lemma OnTimeStart(parts: seq<Part>, chosen: seq<bool>, size: nat)
    requires |parts| == |chosen| > 0 && Tiles(parts, size) && forall i :: 0 <= i < |parts| ==> chosen[i] == (i == 0)
    ensures OnTime(parts, chosen, parts[0].currentOffset, End(parts[0]), 1)
  {
    hide InTime, Tiles;
    var start, end := parts[0].currentOffset, End(parts[0]);
    forall x: int, a: nat, b: nat | (x == start || x == end) && InnerAt(parts, x, a) && OuterAt(parts, x, b) ensures a == 0 {
      if Full(parts[0]) { Unique(parts, size, 0, a); }
    }
    forall e: nat | 1 <= e < |parts| && !Full(parts[e]) ensures EmptyOnTime(parts, chosen, start, end, 1, e) {
      EmptyApart(parts, size, 0, e);
    }
  }

  /** An empty part does not lie strictly inside another one. */
  lemma EmptyApart(parts: seq<Part>, size: nat, i: nat, e: nat)
    requires Tiles(parts, size) && i < |parts| && e < |parts| && i != e && !Full(parts[e])
    ensures parts[e].currentOffset <= parts[i].currentOffset || End(parts[i]) <= parts[e].currentOffset
  {
    var all := All(|parts|);
    assert all[i] && all[e];
  }

  /** The range grows to the left: what is empty at its old start is now inside, in time or too late. */
  lemma StepLeft(parts: seq<Part>, chosen: seq<bool>, start: int, end: int, size: nat, i: nat)
    requires |parts| == |chosen| > 0 && 1 <= i < |parts| && chosen[0] && Fills(parts, chosen, start, end)
    requires Tiles(parts, size) && OnTime(parts, chosen, start, end, i)
    requires !chosen[i] && Full(parts[i]) && End(parts[i]) == start
    ensures OnTime(parts, chosen[i := true], parts[i].currentOffset, end, i + 1)
  {
    hide Tiles, Fills, InTime;
    var now, lo := chosen[i := true], parts[i].currentOffset;
    Sides(parts, chosen, start, end, i);
    if start == end { FirstLeft(parts, chosen, start, i); }
    forall x: int, a: nat, b: nat | (x == lo || x == end) && InnerAt(parts, x, a) && OuterAt(parts, x, b)
      ensures !Between(a, b, i + 1)
    {
      LeftEnds(parts, chosen, start, end, size, i, x, a, b);
    }
    forall e: nat | 1 <= e < |parts| && !Full(parts[e]) ensures EmptyOnTime(parts, now, lo, end, i + 1, e) {
      EmptyLeft(parts, chosen, start, end, size, i, e);
    }
  }

  /** The first part to join an empty part 0. */
  lemma FirstLeft(parts: seq<Part>, chosen: seq<bool>, start: int, i: nat)
    requires |parts| == |chosen| > 0 && 1 <= i < |parts| && chosen[0] && Fills(parts, chosen, start, start)
    requires OnTime(parts, chosen, start, start, i) && Full(parts[i]) && End(parts[i]) == start
    ensures FirstInTime(parts)
  {
    forall b: nat | b < |parts| && Full(parts[b]) && parts[b].currentOffset == parts[0].currentOffset ensures b > i {
      assert InnerAt(parts, start, 0) && OuterAt(parts, start, b);
      assert !Between(0, b, i);
    }
  }

  lemma LeftEnds(parts: seq<Part>, chosen: seq<bool>, start: int, end: int, size: nat, i: nat, x: int, a: nat, b: nat)
    requires |parts| == |chosen| > 0 && 1 <= i < |parts| && chosen[0] && Fills(parts, chosen, start, end)
    requires Tiles(parts, size) && OnTime(parts, chosen, start, end, i)
    requires !chosen[i] && Full(parts[i]) && End(parts[i]) == start
    requires (x == parts[i].currentOffset || x == end) && InnerAt(parts, x, a) && OuterAt(parts, x, b)
    ensures !Between(a, b, i + 1) && if x == parts[i].currentOffset then a == i else a != i && b != i
  {
    hide Tiles, Fills, InTime, FirstInTime;
    Sides(parts, chosen, start, end, i);
    InnerOuter(parts, x, a, b);
    if x == parts[i].currentOffset {
      Unique(parts, size, a, i);
    } else {
      assert !Between(a, b, i);
      InnerChosen(parts, chosen, start, end, size, a);
      BetweenNext(a, b, i);
    }
  }

  /** The part that ends at the range's end, or is part 0, is one of those in it. */
  lemma InnerChosen(parts: seq<Part>, chosen: seq<bool>, start: int, end: int, size: nat, a: nat)
    requires |parts| == |chosen| > 0 && chosen[0] && Fills(parts, chosen, start, end) && Tiles(parts, size) && a < |parts|
    requires a == 0 || (Full(parts[a]) && start < end && (End(parts[a]) == end || parts[a].currentOffset == start))
    ensures chosen[a]
  {
    if a != 0 && !chosen[a] {
      var x := if End(parts[a]) == end then end - 1 else start;
      Reaches(parts, chosen, start, end, a, x);
      OverlappingNotTiled(parts, size);
    }
  }

  lemma EmptyLeft(parts: seq<Part>, chosen: seq<bool>, start: int, end: int, size: nat, i: nat, e: nat)
    requires |parts| == |chosen| > 0 && 1 <= i < |parts| && chosen[0] && Fills(parts, chosen, start, end)
    requires Tiles(parts, size) && OnTime(parts, chosen, start, end, i)
    requires !chosen[i] && Full(parts[i]) && End(parts[i]) == start && 1 <= e < |parts| && !Full(parts[e])
    ensures EmptyOnTime(parts, chosen[i := true], parts[i].currentOffset, end, i + 1, e)
  {
    hide Tiles, InTime, FirstInTime;
    var x, lo := parts[e].currentOffset, parts[i].currentOffset;
    assert EmptyOnTime(parts, chosen, start, end, i, e);
    EmptyApart(parts, size, i, e);
    if x == lo || x == end {
      forall a: nat, b: nat | InnerAt(parts, x, a) && OuterAt(parts, x, b) ensures chosen[e] <==> Between(a, e, i + 1) {
        LeftEnds(parts, chosen, start, end, size, i, x, a, b);
        if x == end { BetweenNext(a, e, i); }
      }
    } else if x == start {
      var j := Holder(parts, chosen, start, end, start);
      Sides(parts, chosen, start, end, i);
      PassedOver(parts, size, e, j, i);
      assert chosen[e] <==> Between(j, e, i);
    }
  }

  lemma Holder(parts: seq<Part>, chosen: seq<bool>, start: int, end: int, x: int) returns (j: nat)
    requires |parts| == |chosen| && Fills(parts, chosen, start, end) && start <= x < end
    ensures j < |parts| && chosen[j] && Holds(parts[j], x) && Full(parts[j])
    ensures start <= parts[j].currentOffset && End(parts[j]) <= end
  {
    assert Held(parts, chosen, x);
    j :| 0 <= j < |parts| && chosen[j] && Holds(parts[j], x);
  }

  /** Only one part brings the range up to where e lies and only one takes it past. */
  lemma PassedOver(parts: seq<Part>, size: nat, e: nat, a: nat, b: nat)
    requires Tiles(parts, size) && e < |parts| && a < |parts| && b < |parts|
    requires InnerAt(parts, parts[e].currentOffset, a) && OuterAt(parts, parts[e].currentOffset, b)
    ensures InTime(parts, e) <==> Between(a, e, b)
  {
    hide Tiles, Between;
    var x := parts[e].currentOffset;
    forall c: nat, d: nat | InnerAt(parts, x, c) && OuterAt(parts, x, d) ensures c == a && d == b {
      if c != 0 || a != 0 { if Full(parts[c]) && Full(parts[a]) { Unique(parts, size, c, a); } }
      Unique(parts, size, d, b);
    }
  }

  /** The range grows to the right. */
  lemma StepRight(parts: seq<Part>, chosen: seq<bool>, start: int, end: int, size: nat, i: nat)
    requires |parts| == |chosen| > 0 && 1 <= i < |parts| && chosen[0] && Fills(parts, chosen, start, end) && start < end
    requires Tiles(parts, size) && OnTime(parts, chosen, start, end, i)
    requires !chosen[i] && Full(parts[i]) && parts[i].currentOffset == end
    ensures OnTime(parts, chosen[i := true], start, End(parts[i]), i + 1)
  {
    hide Tiles, Fills, InTime, FirstInTime;
    var now, hi := chosen[i := true], End(parts[i]);
    forall x: int, a: nat, b: nat | (x == start || x == hi) && InnerAt(parts, x, a) && OuterAt(parts, x, b)
      ensures !Between(a, b, i + 1)
    {
      RightEnds(parts, chosen, start, end, size, i, x, a, b);
    }
    forall e: nat | 1 <= e < |parts| && !Full(parts[e]) ensures EmptyOnTime(parts, now, start, hi, i + 1, e) {
      EmptyRight(parts, chosen, start, end, size, i, e);
    }
  }

  lemma RightEnds(parts: seq<Part>, chosen: seq<bool>, start: int, end: int, size: nat, i: nat, x: int, a: nat, b: nat)
    requires |parts| == |chosen| > 0 && 1 <= i < |parts| && chosen[0] && Fills(parts, chosen, start, end) && start < end
    requires Tiles(parts, size) && OnTime(parts, chosen, start, end, i)
    requires !chosen[i] && Full(parts[i]) && parts[i].currentOffset == end
    requires (x == start || x == End(parts[i])) && InnerAt(parts, x, a) && OuterAt(parts, x, b)
    ensures !Between(a, b, i + 1) && if x == End(parts[i]) then a == i else a != i && b != i
  {
    hide Tiles, Fills, InTime, FirstInTime;
    Sides(parts, chosen, start, end, i);
    InnerOuter(parts, x, a, b);
    if x == End(parts[i]) {
      Unique(parts, size, a, i);
    } else {
      assert !Between(a, b, i);
      InnerChosen(parts, chosen, start, end, size, a);
      BetweenNext(a, b, i);
    }
  }

  lemma EmptyRight(parts: seq<Part>, chosen: seq<bool>, start: int, end: int, size: nat, i: nat, e: nat)
    requires |parts| == |chosen| > 0 && 1 <= i < |parts| && chosen[0] && Fills(parts, chosen, start, end) && start < end
    requires Tiles(parts, size) && OnTime(parts, chosen, start, end, i)
    requires !chosen[i] && Full(parts[i]) && parts[i].currentOffset == end && 1 <= e < |parts| && !Full(parts[e])
    ensures EmptyOnTime(parts, chosen[i := true], start, End(parts[i]), i + 1, e)
  {
    hide Tiles, InTime, FirstInTime;
    var x, hi := parts[e].currentOffset, End(parts[i]);
    assert EmptyOnTime(parts, chosen, start, end, i, e);
    EmptyApart(parts, size, i, e);
    if x == start || x == hi {
      forall a: nat, b: nat | InnerAt(parts, x, a) && OuterAt(parts, x, b) ensures chosen[e] <==> Between(a, e, i + 1) {
        RightEnds(parts, chosen, start, end, size, i, x, a, b);
        if x == start { BetweenNext(a, e, i); }
      }
    } else if x == end {
      var j := RightInner(parts, chosen, start, end, i);
      PassedOver(parts, size, e, j, i);
      assert chosen[e] <==> Between(j, e, i);
    }
  }

  lemma RightInner(parts: seq<Part>, chosen: seq<bool>, start: int, end: int, i: nat) returns (j: nat)
    requires |parts| == |chosen| > 0 && chosen[0] && Fills(parts, chosen, start, end) && start < end
    requires OnTime(parts, chosen, start, end, i)
    ensures InnerAt(parts, end, j)
  {
    hide InTime, FirstInTime;
    Sides(parts, chosen, start, end, i);
    if end == parts[0].currentOffset && !Full(parts[0]) {
      j := 0;
    } else {
      j := Holder(parts, chosen, start, end, end - 1);
    }
  }

  // The search.

  /**
   What the loops keep: without an overlap the chosen parts fill [start, end) and, in a division,
   every part so far came in time; after an overlap the test can only fail.
   */
  ghost predicate Searching(parts: seq<Part>, chosen: seq<bool>, start: int, end: int, hasOverlap: bool, size: nat, i: nat) {
    && |chosen| == |parts| > 0 && chosen[0]
    && (forall h :: 1 <= h < |parts| && chosen[h] ==> Aligned(parts[h], size))
    && (!hasOverlap ==> Fills(parts, chosen, start, end) && (Tiles(parts, size) ==> OnTime(parts, chosen, start, end, i)))
    && (hasOverlap ==> !Passes(parts, size))
  }

  lemma SearchStart(parts: seq<Part>, chosen: seq<bool>, size: nat)
    requires |parts| == |chosen| > 0 && forall i :: 0 <= i < |parts| ==> chosen[i] == (i == 0)
    ensures Searching(parts, chosen, parts[0].currentOffset, End(parts[0]), false, size, 1)
  {
    hide OnTime, Tiles;
    forall x | parts[0].currentOffset <= x < End(parts[0]) ensures Held(parts, chosen, x) {
      assert chosen[0] && Holds(parts[0], x);
    }
    if Tiles(parts, size) { OnTimeStart(parts, chosen, size); }
  }

  lemma FillsOrder(parts: seq<Part>, chosen: seq<bool>, start: int, end: int)
    requires |chosen| == |parts| && Fills(parts, chosen, start, end)
    ensures 0 <= start <= end
  {
  }

  /** A part that shares bytes with the range, or lies inside it, or begins where part 0 is empty. */
  lemma OverlapFails(parts: seq<Part>, chosen: seq<bool>, start: int, end: int, size: nat, i: nat)
    requires |parts| == |chosen| > 0 && 1 <= i < |parts| && chosen[0] && !chosen[i] && Fills(parts, chosen, start, end)
    requires Tiles(parts, size) ==> OnTime(parts, chosen, start, end, i)
    requires var p := parts[i];
             || (AtStart(p, start) && End(p) > start)
             || (AtEnd(p, end) && !AtStart(p, start) && p.currentOffset < end)
             || Inside(p, start, end)
    ensures !Passes(parts, size)
  {
    hide Tiles, Fills, OnTime, InTime, FirstInTime;
    Joining(parts, chosen, start, end, i);
    FillsOrder(parts, chosen, start, end);
    if Overlapping(parts) { OverlappingNotTiled(parts, size); }
    if Passes(parts, size) {
      if start < end {
        EmptyInside(parts, chosen, start, end, size, i);
      } else {
        BeginsAtFirst(parts, chosen, start, end, size, i);
      }
    }
  }

  lemma EmptyInside(parts: seq<Part>, chosen: seq<bool>, start: int, end: int, size: nat, i: nat)
    requires |parts| == |chosen| > 0 && 1 <= i < |parts| && !chosen[i] && OnTime(parts, chosen, start, end, i)
    requires !Full(parts[i]) && Inside(parts[i], start, end)
    ensures !Passes(parts, size)
  {
    hide Accepted, FirstInTime, InTime;
    assert EmptyOnTime(parts, chosen, start, end, i, i);
  }

  lemma BeginsAtFirst(parts: seq<Part>, chosen: seq<bool>, start: int, end: int, size: nat, i: nat)
    requires |parts| == |chosen| > 0 && 1 <= i < |parts| && chosen[0] && Fills(parts, chosen, start, end) && start == end
    requires OnTime(parts, chosen, start, end, i) && AtStart(parts[i], start) && End(parts[i]) > start
    ensures !Passes(parts, size)
  {
    hide InTime;
    if Tiles(parts, size) { EmptyApart(parts, size, i, 0); }
  }

  lemma SearchStep(parts: seq<Part>, chosen: seq<bool>, start0: int, end0: int, overlap0: bool,
                   start: int, end: int, hasOverlap: bool, size: nat, i: nat)
    requires Searching(parts, chosen, start0, end0, overlap0, size, i)
    requires 1 <= i < |parts| && !chosen[i] && Aligned(parts[i], size) && (overlap0 ==> hasOverlap) && start0 <= end0
    requires !hasOverlap ==>
               || (AtStart(parts[i], start0) && End(parts[i]) == start0 && start == parts[i].currentOffset && end == end0)
               || (AtEnd(parts[i], end0) && parts[i].currentOffset == end0 && start == start0 && end == End(parts[i]))
    requires hasOverlap && !overlap0 ==>
               || (AtStart(parts[i], start0) && End(parts[i]) > start0)
               || (AtEnd(parts[i], end0) && !AtStart(parts[i], start0) && parts[i].currentOffset < end0)
               || Inside(parts[i], start0, end0)
    requires AtStart(parts[i], start0) && End(parts[i]) > start0 ==> hasOverlap
    ensures Searching(parts, chosen[i := true], start, end, hasOverlap, size, i + 1)
  {
    hide Fills, Overlapping, Tiles, OnTime, Passes;
    if !hasOverlap {
      Joining(parts, chosen, start0, end0, i);
      if Tiles(parts, size) {
        if !Full(parts[i]) {
          StepSame(parts, chosen, chosen[i := true], start0, end0, i);
        } else if End(parts[i]) == start0 {
          StepLeft(parts, chosen, start0, end0, size, i);
        } else {
          StepRight(parts, chosen, start0, end0, size, i);
        }
      }
    } else if !overlap0 {
      OverlapFails(parts, chosen, start0, end0, size, i);
    }
  }

  /** A part that was examined before, or touches nothing. */
  lemma SearchSkip(parts: seq<Part>, chosen: seq<bool>, start: int, end: int, hasOverlap: bool, size: nat, i: nat)
    requires Searching(parts, chosen, start, end, hasOverlap, size, i) && 1 <= i < |parts|
    requires chosen[i] || Untouched(parts[i], start, end)
    ensures Searching(parts, chosen, start, end, hasOverlap, size, i + 1)
  {
    hide Fills, Tiles, OnTime, Passes;
    if !hasOverlap && Tiles(parts, size) {
      assert chosen[i] ==> chosen[i := true] == chosen;
      StepSame(parts, chosen, chosen, start, end, i);
    }
  }

  lemma SearchAround(parts: seq<Part>, chosen: seq<bool>, start: int, end: int, hasOverlap: bool, size: nat)
    requires Searching(parts, chosen, start, end, hasOverlap, size, |parts|)
    ensures Searching(parts, chosen, start, end, hasOverlap, size, 1)
  {
    hide Fills, Tiles, OnTime, Passes;
    if !hasOverlap && Tiles(parts, size) { StepAround(parts, chosen, start, end); }
  }

  lemma SearchStuck(parts: seq<Part>, chosen: seq<bool>, start: int, end: int, hasOverlap: bool, size: nat, i: nat)
    requires Searching(parts, chosen, start, end, hasOverlap, size, i) && CountFalse(chosen) > 0
    requires forall h :: 1 <= h < |parts| && !chosen[h] ==> Untouched(parts[h], start, end)
    ensures !Passes(parts, size)
  {
    hide Tiles, OnTime, Fills, FirstInTime, InTime, Untouched;
    CountFalseZero(chosen);
    if !hasOverlap {
      var h :| 0 <= h < |parts| && !chosen[h];
      Gap(parts, chosen, start, end, size, h);
    }
  }

  lemma SearchDone(parts: seq<Part>, chosen: seq<bool>, start: int, end: int, hasOverlap: bool, size: nat, i: nat)
    requires Searching(parts, chosen, start, end, hasOverlap, size, i) && CountFalse(chosen) == 0
    ensures !hasOverlap && start == 0 && end == size <==> Passes(parts, size)
  {
    hide Tiles, OnTime, Fills, FirstInTime, InTime;
    CountFalseZero(chosen);
    if !hasOverlap {
      FillsOrder(parts, chosen, start, end);
      AllChosen(parts, chosen, start, end, size);
      if start == 0 && end == size {
        FirstAligned(parts, size);
        assert Accepted(parts, size);
        AllInTime(parts, chosen, start, end, i);
      }
      if Passes(parts, size) && start == end { OnlyEmpty(parts, chosen, start, size); }
    }
  }

  /** Everything has been examined: no part is left to lie past the ends. */
  lemma AllInTime(parts: seq<Part>, chosen: seq<bool>, start: int, end: int, i: nat)
    requires |parts| == |chosen| > 0 && Fills(parts, chosen, start, end) && OnTime(parts, chosen, start, end, i)
    requires forall h :: 0 <= h < |parts| ==> chosen[h]
    ensures FirstInTime(parts) && forall e: nat :: 1 <= e < |parts| && !Full(parts[e]) ==> InTime(parts, e)
  {
    assert start == end ==> forall b: nat :: b < |parts| ==> !Full(parts[b]);
    forall e: nat | 1 <= e < |parts| && !Full(parts[e]) ensures InTime(parts, e) {
      assert EmptyOnTime(parts, chosen, start, end, i, e);
    }
  }

  lemma OnlyEmpty(parts: seq<Part>, chosen: seq<bool>, start: int, size: nat)
    requires |parts| == |chosen| > 0 && Fills(parts, chosen, start, start) && Tiles(parts, size)
    requires forall h :: 0 <= h < |parts| ==> chosen[h]
    ensures start == 0 == size
  {
    if size > 0 { var h := Owner(parts, size, 0); }
    assert chosen[0];
  }

  class Slices {
    var backends: seq<Part>
    var allocSliceSizes: seq<nat>
    var currentSliceSize: nat
    /** What each backend was last told its size is. */
    var toldSizes: seq<nat>

    /** init: every backend starts with all that is allocated to it. */
    constructor (parts: seq<Part>, size: nat)
      ensures backends == parts && currentSliceSize == size
      ensures |allocSliceSizes| == |parts| && forall i :: 0 <= i < |parts| ==> allocSliceSizes[i] == parts[i].currentSliceSize
      ensures toldSizes == allocSliceSizes
    {
      backends, currentSliceSize := parts, size;
      allocSliceSizes := seq(|parts|, i requires 0 <= i < |parts| => parts[i].currentSliceSize);
      toldSizes := allocSliceSizes;
    }

    /** One part is compared with the range found so far. */
    method Examine(backend: Part, start0: int, end0: int, overlap0: bool)
      returns (start: int, end: int, hasOverlap: bool, touches: bool)
      requires start0 <= end0
      ensures touches <==> !Untouched(backend, start0, end0)
      ensures !touches ==> start == start0 && end == end0 && hasOverlap == overlap0
      ensures touches ==> start <= end
      ensures overlap0 ==> hasOverlap
      ensures touches && !hasOverlap ==>
                || (AtStart(backend, start0) && End(backend) == start0 && start == backend.currentOffset && end == end0)
                || (AtEnd(backend, end0) && backend.currentOffset == end0 && start == start0 && end == End(backend))
      ensures touches && hasOverlap && !overlap0 ==>
                || (AtStart(backend, start0) && End(backend) > start0)
                || (AtEnd(backend, end0) && !AtStart(backend, start0) && backend.currentOffset < end0)
                || Inside(backend, start0, end0)
      ensures AtStart(backend, start0) && End(backend) > start0 ==> hasOverlap
    {
      start, end, hasOverlap, touches := start0, end0, overlap0, true;
      var currentEnd := End(backend);
      if backend.currentOffset <= start && currentEnd >= start {
        if currentEnd > start { hasOverlap := true; }
        start := backend.currentOffset;
        if currentEnd > end { end := currentEnd; }
      } else if currentEnd >= end && backend.currentOffset <= end {
        if backend.currentOffset < end { hasOverlap := true; }
        end := currentEnd;
        if backend.currentOffset < start { start := backend.currentOffset; }
      } else if backend.currentOffset > start && currentEnd < end {
        hasOverlap := true;
      } else {
        touches := false;
      }
    }

    /**
     checkBackendAllocation: true exactly when the parts tile the slice with even boundaries inside
     it and its empty parts come at the right places, whatever the parts and their order.
     */
    method CheckBackendAllocation() returns (ok: bool)
      requires |backends| > 0
      ensures ok <==> Passes(backends, currentSliceSize)
    {
      hide Passes, CountFalse, Untouched, Searching;
      var start: int, end: int := backends[0].currentOffset, End(backends[0]);
      var hasOverlap := false;
      var beChecked := seq(|backends|, i => i == 0);
      var beUnchecked := |backends| - 1;
      CountFalseNew(beChecked);
      SearchStart(backends, beChecked, currentSliceSize);
      while beUnchecked > 0
        invariant |beChecked| == |backends| && beUnchecked == CountFalse(beChecked) && start <= end
        invariant Searching(backends, beChecked, start, end, hasOverlap, currentSliceSize, 1)
        decreases beUnchecked
      {
        var beFound := false;
        ghost var unchecked := beUnchecked;
        var i := 1;
        while i < |backends|
          invariant 1 <= i <= |backends| && start <= end
          invariant |beChecked| == |backends| && beUnchecked == CountFalse(beChecked)
          invariant Searching(backends, beChecked, start, end, hasOverlap, currentSliceSize, i)
          invariant if beFound then beUnchecked < unchecked else beUnchecked == unchecked
          invariant !beFound ==> forall h :: 1 <= h < i && !beChecked[h] ==> Untouched(backends[h], start, end)
        {
          ghost var start0, end0, overlap0 := start, end, hasOverlap;
          if beChecked[i] {
            SearchSkip(backends, beChecked, start, end, hasOverlap, currentSliceSize, i);
          } else {
            var backend := backends[i];
            var touches;
            start, end, hasOverlap, touches := Examine(backend, start, end, hasOverlap);
            if touches {
              if backend.currentOffset % 2 == 1
                 || (backend.currentSliceSize % 2 == 1 && End(backend) != currentSliceSize) {
                NotAligned(backends, i, currentSliceSize);
                return false;
              }
              CountFalseSet(beChecked, i);
              SearchStep(backends, beChecked, start0, end0, overlap0, start, end, hasOverlap, currentSliceSize, i);
              beChecked := beChecked[i := true];
              beUnchecked := beUnchecked - 1;
              beFound := true;
            } else {
              SearchSkip(backends, beChecked, start, end, hasOverlap, currentSliceSize, i);
            }
          }
          i := i + 1;
        }
        if !beFound {
          SearchStuck(backends, beChecked, start, end, hasOverlap, currentSliceSize, i);
          return false;
        }
        SearchAround(backends, beChecked, start, end, hasOverlap, currentSliceSize);
      }
      SearchDone(backends, beChecked, start, end, hasOverlap, currentSliceSize, 1);
      if hasOverlap { return false; }
      return start == 0 && end == currentSliceSize;
    }

    /**
     setCurrentSliceSize: the slice is handed out again in the order of the backends, each up to its
     allocation.  Refused without effect are only sizes above both the current one and all
     allocations together.  Once a backend refuses its new size, those after it are not told theirs,
     though all parts have been changed.
     */
    method SetCurrentSliceSize(newSliceSize: nat, accepts: seq<bool>) returns (success: bool)
      requires |allocSliceSizes| == |toldSizes| == |accepts| == |backends| > 0 && (|backends| == 1 ==> backends[0].currentOffset == 0)
      modifies this
      ensures |allocSliceSizes| == |toldSizes| == |backends| == |old(backends)|
      ensures var fits := |backends| == 1 || newSliceSize <= old(currentSliceSize)
                          || newSliceSize <= Total(old(allocSliceSizes), |backends|);
              && (success <==> fits && FirstRefusal(accepts) == |accepts|)
              && (!fits ==> backends == old(backends) && currentSliceSize == old(currentSliceSize) && toldSizes == old(toldSizes))
              && (|backends| > 1 || !fits ==> allocSliceSizes == old(allocSliceSizes))
              && (fits ==> currentSliceSize == newSliceSize && backends == Spread(allocSliceSizes, newSliceSize)
                           && (forall h :: 0 <= h < |backends| ==>
                                 toldSizes[h] == if h <= FirstRefusal(accepts) then backends[h].currentSliceSize else old(toldSizes)[h]))
      ensures |backends| == 1 ==>
                allocSliceSizes[0] == if old(allocSliceSizes[0]) > newSliceSize then old(allocSliceSizes[0]) else newSliceSize
    {
      if |backends| == 1 {
        currentSliceSize := newSliceSize;
        backends := [Part(backends[0].currentOffset, currentSliceSize)];
        allocSliceSizes := [if allocSliceSizes[0] > currentSliceSize then allocSliceSizes[0] else currentSliceSize];
        toldSizes := [currentSliceSize];
        return accepts[0];
      }
      if newSliceSize > currentSliceSize {
        var totalAlloc := TotalAlloc();
        if newSliceSize > totalAlloc { return false; }
      }
      currentSliceSize := newSliceSize;
      success := true;
      var pos: nat, i := 0, 0;
      while i < |backends|
        invariant 0 <= i <= |backends| == |toldSizes| == |old(backends)|
        invariant pos == Min(newSliceSize, Total(allocSliceSizes, i))
        invariant forall h :: 0 <= h < i ==> backends[h] == SpreadPart(allocSliceSizes, newSliceSize, h)
        invariant success <==> i <= FirstRefusal(accepts)
        invariant forall h :: 0 <= h < |backends| ==>
                    toldSizes[h] == if h < i && h <= FirstRefusal(accepts) then backends[h].currentSliceSize else old(toldSizes)[h]
        modifies `backends, `toldSizes
      {
        var size := Min(currentSliceSize - pos, allocSliceSizes[i]);
        backends := backends[i := Part(pos, size)];
        if success {
          toldSizes := toldSizes[i := size];
          success := accepts[i];
        }
        pos := pos + size;
        i := i + 1;
      }
    }

    /**
     The overload that is given the parts: whether a backend refused its size does not matter to the
     answer, which is that of the check.
     */
    method SetCurrentParts(newSliceSize: nat, sizeAlloc: seq<Part>, accepts: seq<bool>) returns (ok: bool)
      requires |toldSizes| == |accepts| == |backends| > 0
      modifies `backends, `currentSliceSize, `toldSizes
      ensures |toldSizes| == |backends| == |old(backends)|
      ensures ok <==> |sizeAlloc| == |backends| && Passes(sizeAlloc, newSliceSize)
      ensures |sizeAlloc| != |backends| ==>
                backends == old(backends) && currentSliceSize == old(currentSliceSize) && toldSizes == old(toldSizes)
      ensures |sizeAlloc| == |backends| ==>
                && backends == sizeAlloc && currentSliceSize == newSliceSize
                && forall h :: 0 <= h < |backends| ==>
                     toldSizes[h] == if h <= FirstRefusal(accepts) then backends[h].currentSliceSize else old(toldSizes)[h]
    {
      hide Passes;
      if |backends| != |sizeAlloc| { return false; }
      currentSliceSize := newSliceSize;
      var success, i := true, 0;
      while i < |backends|
        invariant 0 <= i <= |backends| == |toldSizes| == |sizeAlloc|
        invariant forall h :: 0 <= h < i ==> backends[h] == sizeAlloc[h]
        invariant success <==> i <= FirstRefusal(accepts)
        invariant forall h :: 0 <= h < |backends| ==>
                    toldSizes[h] == if h < i && h <= FirstRefusal(accepts) then backends[h].currentSliceSize else old(toldSizes)[h]
        modifies `backends, `toldSizes
      {
        backends := backends[i := sizeAlloc[i]];
        if success {
          toldSizes := toldSizes[i := sizeAlloc[i].currentSliceSize];
          success := accepts[i];
        }
        i := i + 1;
      }
      assert backends == sizeAlloc;
      ok := CheckBackendAllocation();
    }

    /** All allocations together. */
    method TotalAlloc() returns (totalAlloc: nat)
      ensures totalAlloc == Total(allocSliceSizes, |allocSliceSizes|)
    {
      totalAlloc := 0;
      var i := 0;
      while i < |allocSliceSizes|
        invariant 0 <= i <= |allocSliceSizes| && totalAlloc == Total(allocSliceSizes, i)
      {
        totalAlloc := totalAlloc + allocSliceSizes[i];
        i := i + 1;
      }
    }
  }

  // Handing a slice out again.

  /** The first backend that refuses its new size, or the number of backends. */
  function FirstRefusal(accepts: seq<bool>): (n: nat)
    ensures n <= |accepts| && (forall h :: 0 <= h < n ==> accepts[h]) && (n < |accepts| ==> !accepts[n])
  {
    if accepts == [] || !accepts[0] then 0 else FirstRefusal(accepts[1..]) + 1
  }

  /** The first n allocations together. */
  function Total(allocs: seq<nat>, n: nat): nat
    requires n <= |allocs|
    decreases n
  {
    if n == 0 then 0 else Total(allocs, n - 1) + allocs[n - 1]
  }

  /** What backend i gets: the stretch after those before it, cut off where the slice ends. */
  function SpreadPart(allocs: seq<nat>, size: nat, i: nat): Part
    requires i < |allocs|
  {
    var pos := Min(size, Total(allocs, i)); Part(pos, Min(size - pos, allocs[i]))
  }

  function Spread(allocs: seq<nat>, size: nat): (parts: seq<Part>)
    ensures |parts| == |allocs| && forall i :: 0 <= i < |allocs| ==> parts[i] == SpreadPart(allocs, size, i)
  {
    seq(|allocs|, i requires 0 <= i < |allocs| => SpreadPart(allocs, size, i))
  }

  lemma {:induction false} TotalOrder(allocs: seq<nat>, m: nat, n: nat)
    requires m <= n <= |allocs|
    ensures Total(allocs, m) <= Total(allocs, n)
    decreases n
  {
    if m < n { TotalOrder(allocs, m, n - 1); }
  }

  lemma SpreadEnds(allocs: seq<nat>, size: nat, i: nat)
    requires i < |allocs|
    ensures var p := SpreadPart(allocs, size, i);
            p.currentOffset == Min(size, Total(allocs, i)) && End(p) == Min(size, Total(allocs, i + 1))
  {
  }

  /** The part that byte x falls to. */
  lemma {:induction false} SpreadHolder(allocs: seq<nat>, size: nat, x: nat, n: nat) returns (i: nat)
    requires n <= |allocs| && x < size && x < Total(allocs, n)
    ensures i < n && Holds(SpreadPart(allocs, size, i), x)
    decreases n
  {
    if Total(allocs, n - 1) <= x {
      i := n - 1;
      SpreadEnds(allocs, size, i);
    } else {
      i := SpreadHolder(allocs, size, x, n - 1);
    }
  }

  lemma SpreadApart(allocs: seq<nat>, size: nat)
    ensures var parts := Spread(allocs, size);
            && (forall i :: 0 <= i < |parts| ==> End(parts[i]) <= size) && Disjoint(parts, All(|parts|))
  {
    hide Total, SpreadPart, Min;
    var parts := Spread(allocs, size);
    forall i | 0 <= i < |parts| ensures End(parts[i]) <= size { SpreadEnds(allocs, size, i); MinMeans(size, Total(allocs, i + 1)); }
    forall i, j | 0 <= i < j < |parts| ensures Apart(parts[i], parts[j]) {
      SpreadEnds(allocs, size, i); SpreadEnds(allocs, size, j);
      TotalOrder(allocs, i + 1, j);
      MinOrder(size, Total(allocs, i + 1), Total(allocs, j));
    }
  }

  /** Too small allocations leave the last byte to nobody. */
  lemma SpreadGap(allocs: seq<nat>, size: nat, i: nat)
    requires Total(allocs, |allocs|) < size && i < |allocs|
    ensures !Holds(SpreadPart(allocs, size, i), size - 1)
  {
    hide Total, SpreadPart, Min;
    SpreadEnds(allocs, size, i);
    TotalOrder(allocs, i + 1, |allocs|);
    MinMeans(size, Total(allocs, i + 1));
  }

  /** The slice is divided among the backends exactly when the allocations suffice for it. */
  lemma SpreadTiles(allocs: seq<nat>, size: nat)
    ensures Tiles(Spread(allocs, size), size) <==> size <= Total(allocs, |allocs|)
  {
    hide Total, SpreadPart, Holds, Disjoint, All;
    var parts := Spread(allocs, size);
    SpreadApart(allocs, size);
    if size <= Total(allocs, |allocs|) {
      forall x | 0 <= x < size ensures Held(parts, All(|parts|), x) {
        var i := SpreadHolder(allocs, size, x, |allocs|);
        HeldByOne(parts, i, x);
      }
    } else {
      forall i | 0 <= i < |parts| ensures !Holds(parts[i], size - 1) { SpreadGap(allocs, size, i); }
      assert !Held(parts, All(|parts|), size - 1);
    }
  }

  lemma MinMeans(a: nat, b: nat) ensures 0 <= Min(a, b) <= a && Min(a, b) <= b && (Min(a, b) == a || Min(a, b) == b) {}

  lemma MinOrder(a: nat, b: nat, c: nat)
    requires b <= c
    ensures Min(a, b) <= Min(a, c)
  {
  }

  /** No part splits a word. */
  predicate NoneSplit(parts: seq<Part>, size: nat) { forall i :: 0 <= i < |parts| ==> EvenInside(parts[i], size) }

  /** Allocations that end inside the slice, in the order of the backends, end between words. */
  predicate EvenTotals(allocs: seq<nat>, size: nat) {
    forall i :: 0 <= i <= |allocs| && Total(allocs, i) < size ==> Total(allocs, i) % 2 == 0
  }

  lemma SpreadEven(allocs: seq<nat>, size: nat)
    ensures NoneSplit(Spread(allocs, size), size) <==> EvenTotals(allocs, size)
  {
    hide Total, SpreadPart;
    var parts := Spread(allocs, size);
    if NoneSplit(parts, size) {
      forall i | 0 <= i <= |allocs| && Total(allocs, i) < size ensures Total(allocs, i) % 2 == 0 {
        if i == 0 {
          TotalNone(allocs);
        } else {
          SpreadEnds(allocs, size, i - 1);
          assert EvenInside(parts[i - 1], size);
        }
      }
      assert EvenTotals(allocs, size);
    }
    if EvenTotals(allocs, size) {
      forall i | 0 <= i < |allocs| ensures EvenInside(parts[i], size) { SpreadEnds(allocs, size, i); }
    }
  }

  lemma TotalNone(allocs: seq<nat>) ensures Total(allocs, 0) == 0 {}

  /** The bytes below size that the first n parts hold are no more than those parts are long. */
  lemma {:induction false} HeldCount(parts: seq<Part>, allocs: seq<nat>, n: nat, bytes: set<int>)
    requires n <= |parts| == |allocs| && (forall i :: 0 <= i < n ==> parts[i].currentSliceSize == allocs[i])
    requires forall x :: x in bytes ==> exists i :: 0 <= i < n && Holds(parts[i], x)
    ensures |bytes| <= Total(allocs, n)
    decreases n
  {
    if n > 0 {
      var p := parts[n - 1];
      var mine := set x | x in bytes && Holds(p, x);
      HeldCount(parts, allocs, n - 1, bytes - mine);
      RangeCount(mine, p.currentOffset, p.currentSliceSize);
      assert |bytes| == |bytes - mine| + |mine|;
    } else {
      assert bytes <= {};
    }
  }

  lemma {:induction false} RangeCount(s: set<int>, lo: int, n: nat)
    requires forall x :: x in s ==> lo <= x && x < lo + n
    ensures |s| <= n
    decreases n
  {
    if n == 0 {
      forall x | x in s ensures false {}
      assert s == {};
    } else {
      RangeCount(s - {lo + n - 1}, lo, n - 1);
    }
  }

  lemma {:induction false} AllBytes(size: nat) returns (s: set<int>)
    ensures |s| == size && forall x :: x in s <==> 0 <= x < size
  {
    if size == 0 {
      s := {};
    } else {
      s := AllBytes(size - 1);
      s := s + {size - 1};
    }
  }

  /** A division that was accepted at the start allots enough, so no smaller slice is left with a gap later. */
  lemma AcceptedSuffices(parts: seq<Part>, allocs: seq<nat>, size: nat)
    requires |parts| == |allocs| && (forall i :: 0 <= i < |parts| ==> parts[i].currentSliceSize == allocs[i]) && Accepted(parts, size)
    ensures size <= Total(allocs, |allocs|)
  {
    hide Total;
    var bytes := AllBytes(size);
    forall x | x in bytes ensures exists i :: 0 <= i < |parts| && Holds(parts[i], x) {
      assert Held(parts, All(|parts|), x);
    }
    HeldCount(parts, allocs, |parts|, bytes);
  }

  /**
   The order of the backends need not be that of their offsets: a division accepted at the start
   may split a word once the slice size is set again, even to the same size.
   */
  lemma ReorderedSplitsWord()
    ensures var parts := [Part(4, 3), Part(0, 4)];
            Accepted(parts, 7) && !EvenInside(Spread([3, 4], 7)[0], 7)
  {
    var parts := [Part(4, 3), Part(0, 4)];
    hide Held, All;
    forall x | 0 <= x < 7 ensures Held(parts, All(|parts|), x) { HeldByOne(parts, if x < 4 then 1 else 0, x); }
    assert Apart(parts[0], parts[1]);
    assert Total([3, 4], 1) == 3;
    SpreadEnds([3, 4], 7, 0);
  }

  lemma NotAligned(parts: seq<Part>, i: nat, size: nat)
    requires 1 <= i < |parts| && !Aligned(parts[i], size)
    ensures !Passes(parts, size)
  {
  }

  // Empty parts, by example.

  /** An empty first part and a second that is the whole slice: a proper division that is refused. */
  lemma EmptyFirstRefused(size: nat)
    requires size > 0
    ensures var parts := [Part(0, 0), Part(0, size)]; Accepted(parts, size) && !Passes(parts, size)
  {
    hide Held, All;
    var parts := [Part(0, 0), Part(0, size)];
    forall x | 0 <= x < size ensures Held(parts, All(|parts|), x) { HeldByOne(parts, 1, x); }
    assert Full(parts[1]) && parts[1].currentOffset == parts[0].currentOffset;
    assert !Full(parts[0]);
    assert forall a: nat :: a < 1 ==> !Full(parts[a]);
  }

  /** An empty part at the end of a slice of odd length begins at an odd offset. */
  lemma EmptyOddRefused()
    ensures var parts := [Part(0, 7), Part(7, 0)]; Accepted(parts, 7) && !Passes(parts, 7)
  {
    hide Held, All;
    var parts := [Part(0, 7), Part(7, 0)];
    forall x | 0 <= x < 7 ensures Held(parts, All(|parts|), x) { HeldByOne(parts, 0, x); }
    assert !Aligned(parts[1], 7);
  }

  lemma ThreeTile(p: Part, q: Part, r: Part, size: nat)
    requires Apart(p, q) && Apart(p, r) && Apart(q, r) && End(p) <= size && End(q) <= size && End(r) <= size
    requires forall x :: 0 <= x < size ==> Holds(p, x) || Holds(q, x) || Holds(r, x)
    ensures Tiles([p, q, r], size)
  {
    hide Holds, Apart, Held, All;
    var parts := [p, q, r];
    forall x | 0 <= x < size ensures Held(parts, All(|parts|), x) {
      HeldByOne(parts, if Holds(p, x) then 0 else if Holds(q, x) then 1 else 2, x);
    }
  }

  /** An empty part examined after the range has grown past it looks like an overlap; before that it does not. */
  lemma EmptyLateRefused()
    ensures Accepted([Part(0, 4), Part(4, 2), Part(4, 0)], 6) && !Passes([Part(0, 4), Part(4, 2), Part(4, 0)], 6)
    ensures Passes([Part(0, 4), Part(4, 0), Part(4, 2)], 6)
  {
    hide Tiles;
    var late, early := [Part(0, 4), Part(4, 2), Part(4, 0)], [Part(0, 4), Part(4, 0), Part(4, 2)];
    ThreeTile(late[0], late[1], late[2], 6);
    ThreeTile(early[0], early[1], early[2], 6);
    assert Accepted(late, 6) && Accepted(early, 6);
    assert InnerAt(late, 4, 0) && OuterAt(late, 4, 1) && !InTime(late, 2);
    assert InTime(early, 1);
  }

  /** An empty first part is no obstacle when what ends where it lies comes first. */
  lemma EmptyFirstPasses()
    ensures Passes([Part(4, 0), Part(0, 4), Part(4, 3)], 7)
  {
    hide Tiles;
    var parts := [Part(4, 0), Part(0, 4), Part(4, 3)];
    ThreeTile(parts[0], parts[1], parts[2], 7);
    assert Full(parts[1]) && End(parts[1]) == 4;
    assert Accepted(parts, 7) && FirstInTime(parts);
  }

  lemma HeldByOne(parts: seq<Part>, i: nat, x: int)
    requires i < |parts| && Holds(parts[i], x)
    ensures Held(parts, All(|parts|), x)
  {
    assert All(|parts|)[i] && Holds(parts[i], x);
  }
}
