/**
 The packed buffer.  A slice of e blocks (its data and one checksum block) is cut into chunks
 of l blocks, the last one shorter.  Chunk by chunk, the n slices are laid down in groups of i
 interleaved slices; the last group holds the n % i slices that are left, interleaved more
 narrowly.  Offsets are counted in blocks; ChecksumPtrScales ties them to the bytes of the code.
 */
module Layout {
  import opened Arith

  /** interleaveBy: how many slices share the group of slice s. */
  function Width(n: nat, i: Positive, s: nat): int {
    if s >= n - n % i then n % i else i
  }

  /** Blocks of each slice in chunk q. */
  function ChunkBlocks(l: Positive, e: nat, q: int): int {
    if (q + 1) * l <= e then l else e - q * l
  }

  /** Block p of the k-th slice of group g, in a chunk of len blocks where w slices interleave. */
  function Place(i: int, len: int, w: int, g: int, k: int, p: int): int {
    g * len * i + p * w + k
  }

  /** Offset of block p of slice s inside a chunk of len blocks. */
  function InChunk(n: nat, i: Positive, len: int, s: nat, p: int): int {
    Place(i, len, Width(n, i, s), s / i, s % i, p)
  }

  /** Offset of block j of slice s in the packed buffer. */
  function Offset(n: nat, i: Positive, l: Positive, e: nat, s: nat, j: nat): int {
    (j / l) * (l * n) + InChunk(n, i, ChunkBlocks(l, e, j / l), s, j % l)
  }

  // One chunk.

  lemma GroupOfSlice(n: nat, i: Positive, s: nat)
    requires s < n
    ensures 0 <= s / i <= n / i && 0 <= s % i < Width(n, i, s) <= i
    ensures s == (s / i) * i + s % i && n == (n / i) * i + n % i
    ensures s / i < n / i ==> Width(n, i, s) == i
    ensures s / i == n / i ==> Width(n, i, s) == n % i
    ensures (s / i) * i + Width(n, i, s) <= n
  {
    DivMod(n, i);
    DivMod(s, i);
    var g, m := s / i, n / i;
    if g > m { MulLess(m, g, i); }
    if g < m { MulLess(g, m, i); }
  }

  /** A cell of a group stays within that group's part of the chunk. */
  lemma PlaceParts(i: Positive, len: nat, w: int, g: int, k: int, p: int)
    requires 0 <= k < w <= i && 0 <= p < len
    ensures Place(i, len, w, g, k, p) == g * (len * i) + (p * w + k)
    ensures 0 <= p * w + k < len * w <= len * i
  {
    Assoc3(g, len, i);
    MulLess(p, len, w);
    MulLe(0, p, w);
    MulLe(w, i, len);
  }

  lemma InChunkBounds(n: nat, i: Positive, len: nat, s: nat, p: nat)
    requires s < n && p < len
    ensures 0 <= InChunk(n, i, len, s, p) < len * n
  {
    hide Place, Width;
    var w, g := Width(n, i, s), s / i;
    GroupOfSlice(n, i, s);
    PlaceParts(i, len, w, g, s % i, p);
    MulLe(0, g, len * i);
    Assoc3(g, len, i);
    Distribute(g * i, w, len);
    MulLe(g * i + w, n, len);
  }

  /** Two cells of a chunk with the same offset are the same cell. */
  lemma InChunkInjective(n: nat, i: Positive, len: nat, s: nat, p: nat, s': nat, p': nat)
    requires s < n && s' < n && p < len && p' < len
    requires InChunk(n, i, len, s, p) == InChunk(n, i, len, s', p')
    ensures s == s' && p == p'
  {
    hide Place, Width;
    var w, w' := Width(n, i, s), Width(n, i, s');
    GroupOfSlice(n, i, s);
    GroupOfSlice(n, i, s');
    PlaceParts(i, len, w, s / i, s % i, p);
    PlaceParts(i, len, w', s' / i, s' % i, p');
    SameQuotient(len * i, s / i, p * w + s % i, s' / i, p' * w' + s' % i);
    SameQuotient(w, p, s % i, p', s' % i);
  }

  /** The group, slice and block that a position of the chunk belongs to. */
  lemma PlaceOnto(n: nat, i: Positive, len: Positive, a: nat) returns (g: nat, w: int, k: nat, p: nat)
    requires a < len * n
    ensures g <= n / i && w == (if g < n / i then i else n % i)
    ensures k < w && p < len && Place(i, len, w, g, k, p) == a
  {
    DivMod(n, i);
    MulLess(0, len, i);
    var d: Positive := len * i;
    var m := n / i;
    DivMod(a, d);
    var r := a % d;
    g := a / d;
    Distribute(m * i, n % i, len);
    Assoc3(m, len, i);
    MulLe(n % i, i, len);
    if g > m { MulLess(m, g, d); }
    w := if g < m then i else n % i;
    assert r < len * w;
    PositiveFactor(len, w);
    DivMod(r, w);
    p, k := r / w, r % w;
    DivBelow(r, w, len);
    Assoc3(g, len, i);
  }

  /** Every cell of a chunk belongs to some slice. */
  lemma InChunkOnto(n: nat, i: Positive, len: Positive, a: nat) returns (s: nat, p: nat)
    requires a < len * n
    ensures s < n && p < len && InChunk(n, i, len, s, p) == a
  {
    hide Place;
    var g, w, k;
    g, w, k, p := PlaceOnto(n, i, len, a);
    DivMod(n, i);
    MulLe(0, g, i);
    s := g * i + k;
    if g < n / i { MulLess(g, n / i, i); }
    DivUnique(s, i, g, k);
    GroupOfSlice(n, i, s);
  }

  // The whole buffer.

  lemma ChunkOfBlock(l: Positive, e: nat, j: nat)
    requires j < e
    ensures var q := j / l; var len := ChunkBlocks(l, e, q);
            j == q * l + j % l && 0 <= q && 0 <= j % l < len <= l && q * l + len <= e
  {
    DivMod(j, l);
    Distribute(j / l, 1, l);
  }

  lemma OffsetBounds(n: nat, i: Positive, l: Positive, e: nat, s: nat, j: nat)
    requires s < n && j < e
    ensures 0 <= InChunk(n, i, ChunkBlocks(l, e, j / l), s, j % l) < l * n
    ensures 0 <= Offset(n, i, l, e, s, j) < n * e
  {
    hide InChunk, ChunkBlocks;
    var q := j / l;
    var len := ChunkBlocks(l, e, q);
    ChunkOfBlock(l, e, j);
    InChunkBounds(n, i, len, s, j % l);
    MulLe(len, l, n);
    MulLe(q * l + len, e, n);
    Distribute(q * l, len, n);
    Assoc3(q, l, n);
    MulLe(0, l, n);
    MulLe(0, q, l * n);
  }

  /** No two blocks share a place. */
  lemma OffsetInjective(n: nat, i: Positive, l: Positive, e: nat, s: nat, j: nat, s': nat, j': nat)
    requires s < n && s' < n && j < e && j' < e
    ensures Offset(n, i, l, e, s, j) == Offset(n, i, l, e, s', j') <==> s == s' && j == j'
  {
    hide InChunk, ChunkBlocks;
    if Offset(n, i, l, e, s, j) == Offset(n, i, l, e, s', j') {
      OffsetBounds(n, i, l, e, s, j);
      OffsetBounds(n, i, l, e, s', j');
      ChunkOfBlock(l, e, j);
      ChunkOfBlock(l, e, j');
      var q, q' := j / l, j' / l;
      SameQuotient(l * n, q, InChunk(n, i, ChunkBlocks(l, e, q), s, j % l),
                   q', InChunk(n, i, ChunkBlocks(l, e, q'), s', j' % l));
      InChunkInjective(n, i, ChunkBlocks(l, e, q), s, j % l, s', j' % l);
    }
  }

  /** Every place in the buffer is used: with OffsetInjective, a bijection onto n * e blocks. */
  lemma OffsetOnto(n: nat, i: Positive, l: Positive, e: nat, a: nat) returns (s: nat, j: nat)
    requires a < n * e
    ensures s < n && j < e && Offset(n, i, l, e, s, j) == a
  {
    hide InChunk;
    assert n > 0;
    MulLess(0, n, l);
    var d: Positive := l * n;
    DivMod(a, d);
    var q, r := a / d, a % d;
    Assoc3(q, l, n);
    if q * l >= e { MulLe(e, q * l, n); }
    var len := ChunkBlocks(l, e, q);
    Distribute(q, 1, l);
    Distribute(q * l, len, n);
    assert r < len * n;
    MulLe(0, q, l);
    var p;
    s, p := InChunkOnto(n, i, len, r);
    j := q * l + p;
    DivUnique(j, l, q, p);
  }

  // Where the checksum block lies.

  /** gf16_checksum_ptr with lengths in blocks: d data blocks, chunks of l blocks. */
  function ChecksumPtr(d: nat, n: nat, s: nat, l: Positive, i: Positive): int {
    var rest := (d + 1) % l;
    var last := if rest == 0 then l else rest;
    s % i + (l * n) * (d / l) + (s / i) * last * i + last * Width(n, i, s) - Width(n, i, s)
  }

  /** gf16_checksum_ptr as written, on byte lengths. */
  function ChecksumPtrBytes(sliceLen: nat, blockLen: Positive, numSlices: nat, index: nat,
                            chunkLen: Positive, interleaveSize: Positive): int {
    var rest := (sliceLen + blockLen) % chunkLen;
    var effectiveLastChunkLen := if rest == 0 then chunkLen else rest;
    var interleaveBy := if index >= numSlices - numSlices % interleaveSize
                        then numSlices % interleaveSize else interleaveSize;
    var fullChunks := sliceLen / chunkLen;
    var chunkStride := chunkLen * numSlices;
    (index % interleaveSize) * blockLen + chunkStride * fullChunks
      + (index / interleaveSize) * effectiveLastChunkLen * interleaveSize
      + effectiveLastChunkLen * interleaveBy - blockLen * interleaveBy
  }

  /** The length of the last chunk, as the code computes it from a remainder. */
  lemma LastChunk(l: Positive, d: nat)
    ensures var rest := (d + 1) % l;
            ChunkBlocks(l, d + 1, d / l) == (if rest == 0 then l else rest) == d % l + 1
  {
    DivMod(d, l);
    var q, t := d / l, d % l;
    Distribute(q, 1, l);
    if t + 1 == l { DivUnique(d + 1, l, q + 1, 0); } else { DivUnique(d + 1, l, q, t + 1); }
  }

  /** The checksum is simply block d, the one after the data. */
  lemma ChecksumPtrIsOffset(d: nat, n: nat, s: nat, l: Positive, i: Positive)
    ensures ChecksumPtr(d, n, s, l, i) == Offset(n, i, l, d + 1, s, d)
  {
    hide Width, ChunkBlocks;
    LastChunk(l, d);
    Distribute(d % l, 1, Width(n, i, s));
  }

  /** With lengths that are whole blocks, the byte offset is the block offset times blockLen. */
  lemma ChecksumPtrScales(d: nat, b: Positive, n: nat, s: nat, l: Positive, i: Positive)
    ensures d * b >= 0 && l * b > 0
    ensures ChecksumPtrBytes(d * b, b, n, s, l * b, i) == ChecksumPtr(d, n, s, l, i) * b
  {
    hide Width;
    DivModScale(d + 1, l, b);
    DivModScale(d, l, b);
    Distribute(d, 1, b);
    var rest := (d + 1) % l;
    var last := if rest == 0 then l else rest;
    WidthBytes(n, i, s);
    ScaleSum(s % i, l, n, d / l, s / i, last, i, Width(n, i, s), b);
    ScaleZero(rest, b);
  }

  lemma WidthBytes(n: nat, i: Positive, s: nat)
    ensures Width(n, i, s) == if s >= n - n % i then n % i else i
  {
  }

  lemma ScaleZero(r: int, b: Positive)
    ensures r * b == 0 <==> r == 0
  {
  }

  lemma ScaleSum(k: int, l: int, n: int, q: int, g: int, last: int, i: int, w: int, b: int)
    ensures k * b + (l * b * n) * q + g * (last * b) * i + last * b * w - b * w
            == (k + (l * n) * q + g * last * i + last * w - w) * b
  {
    var x, y, z := (l * n) * q, g * last * i, last * w;
    assert (l * b * n) * q == x * b by { assert l * b * n == (l * n) * b; Assoc3(l * n, b, q); }
    assert g * (last * b) * i == y * b by { assert g * (last * b) == (g * last) * b; Assoc3(g * last, b, i); }
    assert last * b * w == z * b;
    assert (k + x + y + z - w) * b == k * b + x * b + y * b + z * b - w * b;
  }
}
