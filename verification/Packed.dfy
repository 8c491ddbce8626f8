/**
 What the packed buffer holds, slice by slice: the specification the copying loops are proved
 against.  Put is a run of blocks of one slice written into the buffer; SliceOf reads them back.
 */
module Packed {
  import opened Arith
  import opened Blocks
  import opened Layout

  /** n slices of d data blocks, in chunks of l blocks, i slices interleaved. */
  datatype Geometry = Geometry(n: nat, i: Positive, l: Positive, d: nat)

  predicate Fits(g: Geometry, buf: seq<Block>) { |buf| >= g.n * (g.d + 1) }

  /** Where block j of slice s lies; block d is the checksum. */
  function Cell(g: Geometry, s: nat, j: nat): int { Offset(g.n, g.i, g.l, g.d + 1, s, j) }

  lemma CellBounds(g: Geometry, s: nat, j: nat)
    requires s < g.n && j <= g.d
    ensures 0 <= Cell(g, s, j) < g.n * (g.d + 1)
  {
    hide Offset;
    OffsetBounds(g.n, g.i, g.l, g.d + 1, s, j);
  }

  lemma CellInjective(g: Geometry, s: nat, j: nat, s': nat, j': nat)
    requires s < g.n && j <= g.d && s' < g.n && j' <= g.d
    ensures Cell(g, s, j) == Cell(g, s', j') <==> s == s' && j == j'
  {
    hide Offset;
    OffsetInjective(g.n, g.i, g.l, g.d + 1, s, j, s', j');
  }

  lemma CellOnto(g: Geometry, a: nat) returns (s: nat, j: nat)
    requires a < g.n * (g.d + 1)
    ensures s < g.n && j <= g.d && Cell(g, s, j) == a
  {
    hide Offset;
    s, j := OffsetOnto(g.n, g.i, g.l, g.d + 1, a);
  }

  /** The buffer after bs is written to slice s from block lo on. */
  function Put(g: Geometry, buf: seq<Block>, s: nat, lo: nat, bs: seq<Block>): (r: seq<Block>)
    requires Fits(g, buf) && s < g.n && lo + |bs| <= g.d + 1
    ensures |r| == |buf|
    decreases |bs|
  {
    if bs == [] then buf
    else
      CellBounds(g, s, lo + |bs| - 1);
      Put(g, buf, s, lo, bs[..|bs| - 1])[Cell(g, s, lo + |bs| - 1) := bs[|bs| - 1]]
  }

  /** What slice s holds in block j. */
  function Get(g: Geometry, buf: seq<Block>, s: nat, j: nat): Block
    requires Fits(g, buf) && s < g.n && j <= g.d
  {
    CellBounds(g, s, j);
    buf[Cell(g, s, j)]
  }

  lemma {:induction false} GetPut(g: Geometry, buf: seq<Block>, s: nat, lo: nat, bs: seq<Block>, s': nat, j: nat)
    requires Fits(g, buf) && s < g.n && lo + |bs| <= g.d + 1 && s' < g.n && j <= g.d
    ensures Get(g, Put(g, buf, s, lo, bs), s', j)
            == if s' == s && lo <= j < lo + |bs| then bs[j - lo] else Get(g, buf, s', j)
    decreases |bs|
  {
    hide Cell;
    if bs != [] {
      var m := |bs| - 1;
      GetPut(g, buf, s, lo, bs[..m], s', j);
      CellInjective(g, s, lo + m, s', j);
      CellBounds(g, s, lo + m);
      CellBounds(g, s', j);
    }
  }

  lemma {:induction false} PutBeyond(g: Geometry, buf: seq<Block>, s: nat, lo: nat, bs: seq<Block>, a: nat)
    requires Fits(g, buf) && s < g.n && lo + |bs| <= g.d + 1 && g.n * (g.d + 1) <= a < |buf|
    ensures Put(g, buf, s, lo, bs)[a] == buf[a]
    decreases |bs|
  {
    hide Cell;
    if bs != [] {
      PutBeyond(g, buf, s, lo, bs[..|bs| - 1], a);
      CellBounds(g, s, lo + |bs| - 1);
    }
  }

  lemma {:induction false} PutAppend(g: Geometry, buf: seq<Block>, s: nat, lo: nat, a: seq<Block>, b: seq<Block>)
    requires Fits(g, buf) && s < g.n && lo + |a| + |b| <= g.d + 1
    ensures Put(g, Put(g, buf, s, lo, a), s, lo + |a|, b) == Put(g, buf, s, lo, a + b)
    decreases |b|
  {
    hide Cell;
    if b == [] {
      assert a + b == a;
    } else {
      var m := |b| - 1;
      PutAppend(g, buf, s, lo, a, b[..m]);
      assert (a + b)[..|a + b| - 1] == a + b[..m];
      CellBounds(g, s, lo + |a| + m);
    }
  }

  lemma PutOne(g: Geometry, buf: seq<Block>, s: nat, j: nat, b: Block)
    requires Fits(g, buf) && s < g.n && j <= g.d
    ensures 0 <= Cell(g, s, j) < |buf| && Put(g, buf, s, j, [b]) == buf[Cell(g, s, j) := b]
  {
    hide Cell;
    CellBounds(g, s, j);
    assert [b][..0] == [];
  }

  /** Two buffers agree when every slice reads the same and so does what lies beyond. */
  lemma SameBuffer(g: Geometry, x: seq<Block>, y: seq<Block>)
    requires Fits(g, x) && |x| == |y|
    requires forall s, j :: 0 <= s < g.n && 0 <= j <= g.d ==> Get(g, x, s, j) == Get(g, y, s, j)
    requires forall a :: g.n * (g.d + 1) <= a < |x| ==> x[a] == y[a]
    ensures x == y
  {
    hide Cell;
    forall a | 0 <= a < |x| ensures x[a] == y[a] {
      if a < g.n * (g.d + 1) {
        var s, j := CellOnto(g, a);
        assert Get(g, x, s, j) == Get(g, y, s, j);
      }
    }
  }

  /** A later write of the same block hides an earlier one. */
  lemma PutOverwrites(g: Geometry, buf: seq<Block>, s: nat, lo: nat, bs: seq<Block>, b: Block, j: nat)
    requires Fits(g, buf) && s < g.n && lo + |bs| <= g.d + 1 && lo <= j < lo + |bs|
    ensures Put(g, Put(g, buf, s, j, [b]), s, lo, bs) == Put(g, buf, s, lo, bs)
  {
    hide Put, Get, Cell;
    var one := Put(g, buf, s, j, [b]);
    var x, y := Put(g, one, s, lo, bs), Put(g, buf, s, lo, bs);
    forall s', j' | 0 <= s' < g.n && 0 <= j' <= g.d ensures Get(g, x, s', j') == Get(g, y, s', j') {
      GetPut(g, one, s, lo, bs, s', j');
      GetPut(g, buf, s, lo, bs, s', j');
      GetPut(g, buf, s, j, [b], s', j');
    }
    forall a | g.n * (g.d + 1) <= a < |x| ensures x[a] == y[a] {
      PutBeyond(g, one, s, lo, bs, a);
      PutBeyond(g, buf, s, lo, bs, a);
      PutBeyond(g, buf, s, j, [b], a);
    }
    SameBuffer(g, x, y);
  }

  /** Writes to different blocks of a slice may be exchanged. */
  lemma PutCommutes(g: Geometry, buf: seq<Block>, s: nat, lo: nat, bs: seq<Block>, b: Block, j: nat)
    requires Fits(g, buf) && s < g.n && lo + |bs| <= j <= g.d
    ensures Put(g, Put(g, buf, s, j, [b]), s, lo, bs) == Put(g, Put(g, buf, s, lo, bs), s, j, [b])
  {
    hide Put, Get, Cell;
    var one, run := Put(g, buf, s, j, [b]), Put(g, buf, s, lo, bs);
    var x, y := Put(g, one, s, lo, bs), Put(g, run, s, j, [b]);
    forall s', j' | 0 <= s' < g.n && 0 <= j' <= g.d ensures Get(g, x, s', j') == Get(g, y, s', j') {
      GetPut(g, one, s, lo, bs, s', j');
      GetPut(g, buf, s, j, [b], s', j');
      GetPut(g, run, s, j, [b], s', j');
      GetPut(g, buf, s, lo, bs, s', j');
    }
    forall a | g.n * (g.d + 1) <= a < |x| ensures x[a] == y[a] {
      PutBeyond(g, one, s, lo, bs, a);
      PutBeyond(g, buf, s, j, [b], a);
      PutBeyond(g, run, s, j, [b], a);
      PutBeyond(g, buf, s, lo, bs, a);
    }
    SameBuffer(g, x, y);
  }
}
