/**
 The generated XOR program: for a matrix of input dependencies, the instructions that compute (or
 add) every output bit plane from the sixteen input bit planes.
 */
module XorProgram {
  import opened Field
  import B = BitDep
  import C = ChecksumGeneric
  import K = Clmul
  import T = Lookup

  // The machine.

  /** One bit of every word of a buffer. */
  type Plane = seq<bool>

  type Planes = p: seq<Plane> | |p| == 16 witness seq(16, _ => [])

  /** Registers 16 to 31 hold the input planes, the others are scratch. */
  type Reg = n: nat | n < 32

  type Slot = n: nat | n < 16

  datatype State = State(zmm: Planes, planes: Planes, src: Planes, mem: Planes)

  datatype Instr =
    | Load(k: Slot)
    | Mov(r: Reg, a: Reg)
    | XorReg(r: Reg, a: Reg, b: Reg)
    | Ternary(r: Reg, a: Reg, b: Reg)
    | XorMem(r: Reg, a: Reg, o: Slot)
    | TernaryMem(r: Reg, a: Reg, o: Slot)
    | Store(o: Slot, a: Reg)

  function XorPlane(a: Plane, b: Plane): Plane {
    seq(|a|, i requires 0 <= i < |a| => a[i] != (i < |b| && b[i]))
  }

  function NoPlane(len: nat): Plane { seq(len, _ => false) }

  function Get(s: State, x: Reg): Plane { if x < 16 then s.zmm[x] else s.planes[x - 16] }

  function Set(s: State, x: Reg, p: Plane): State {
    if x < 16 then s.(zmm := s.zmm[x := p]) else s.(planes := s.planes[x - 16 := p])
  }

  function Step(s: State, i: Instr): State {
    match i
    case Load(k) => s.(planes := s.planes[k := s.src[k]])
    case Mov(r, a) => Set(s, r, Get(s, a))
    case XorReg(r, a, b) => Set(s, r, XorPlane(Get(s, a), Get(s, b)))
    case Ternary(r, a, b) => Set(s, r, XorPlane(XorPlane(Get(s, r), Get(s, a)), Get(s, b)))
    case XorMem(r, a, o) => Set(s, r, XorPlane(Get(s, a), s.mem[o]))
    case TernaryMem(r, a, o) => Set(s, r, XorPlane(XorPlane(Get(s, r), Get(s, a)), s.mem[o]))
    case Store(o, a) => s.(mem := s.mem[o := Get(s, a)])
  }

  function Run(s: State, code: seq<Instr>): State {
    if |code| == 0 then s else Step(Run(s, code[..|code| - 1]), code[|code| - 1])
  }

  ghost predicate Even(p: Planes, len: nat) { forall i :: 0 <= i < 16 ==> |p[i]| == len }

  /** Every plane has the same length. */
  ghost predicate Wide(s: State, len: nat) {
    Even(s.zmm, len) && Even(s.planes, len) && Even(s.src, len) && Even(s.mem, len)
  }

  lemma {:induction false} RunAppend(s: State, c: seq<Instr>, d: seq<Instr>)
    ensures Run(s, c + d) == Run(Run(s, c), d)
    decreases |d|
  {
    hide Step;
    if |d| == 0 {
      assert c + d == c;
    } else {
      var n := |d| - 1;
      RunAppend(s, c, d[..n]);
      assert (c + d)[..|c + d| - 1] == c + d[..n];
    }
  }

  lemma RunNext(s: State, c: seq<Instr>, i: Instr)
    ensures Run(s, c + [i]) == Step(Run(s, c), i)
    ensures Run(s, [i]) == Step(s, i)
  {
    hide Step;
    assert (c + [i])[..|c|] == c;
    assert [i][..0] == [];
  }

  lemma PlaneLaws(a: Plane, b: Plane, c: Plane)
    requires |a| == |b| == |c|
    ensures |XorPlane(a, b)| == |a| && XorPlane(a, b) == XorPlane(b, a)
    ensures XorPlane(XorPlane(a, b), c) == XorPlane(a, XorPlane(b, c))
    ensures XorPlane(a, NoPlane(|a|)) == a == XorPlane(NoPlane(|a|), a)
  {
  }

  lemma PlaneSwap(a: Plane, b: Plane, c: Plane, d: Plane)
    requires |a| == |b| == |c| == |d|
    ensures XorPlane(XorPlane(a, b), XorPlane(c, d)) == XorPlane(XorPlane(a, c), XorPlane(b, d))
  {
  }

  // Queues: lists of input planes.

  predicate Bit(m: Word, k: nat) { Odd(HalfBy(m, k)) }

  /** The inputs that the low n bits of the mask name, in order. */
  function Compress(m: Word, n: nat): (q: seq<Slot>)
    requires n <= 16
    ensures |q| <= n
    decreases n
  {
    if n == 0 then [] else if Bit(m, n - 1) then Compress(m, n - 1) + [n - 1] else Compress(m, n - 1)
  }

  /** The sum of the planes in a queue. */
  function Sum(p: Planes, q: seq<Slot>, len: nat): Plane {
    if |q| == 0 then NoPlane(len) else XorPlane(Sum(p, q[..|q| - 1], len), p[q[|q| - 1]])
  }

  /** The sum of the planes that the low n bits of a row name. */
  function RowSum(p: Planes, m: Word, n: nat, len: nat): Plane
    requires n <= 16
    decreases n
  {
    if n == 0 then NoPlane(len)
    else XorPlane(RowSum(p, m, n - 1, len), if Bit(m, n - 1) then p[n - 1] else NoPlane(len))
  }

  lemma {:induction false} SumLength(p: Planes, q: seq<Slot>, len: nat)
    requires Even(p, len)
    ensures |Sum(p, q, len)| == len
  {
    if |q| > 0 { SumLength(p, q[..|q| - 1], len); }
  }

  lemma {:induction false} RowSumLength(p: Planes, m: Word, n: nat, len: nat)
    requires n <= 16 && Even(p, len)
    ensures |RowSum(p, m, n, len)| == len
    decreases n
  {
    if n > 0 { RowSumLength(p, m, n - 1, len); }
  }

  lemma {:induction false} SumIsRowSum(p: Planes, m: Word, n: nat, len: nat)
    requires n <= 16 && Even(p, len)
    ensures Sum(p, Compress(m, n), len) == RowSum(p, m, n, len)
    decreases n
  {
    hide Bit, XorPlane, NoPlane;
    if n > 0 {
      SumIsRowSum(p, m, n - 1, len);
      RowSumLength(p, m, n - 1, len);
      var q, t := Compress(m, n - 1), RowSum(p, m, n - 1, len);
      PlaneLaws(t, t, t);
      assert (q + [n - 1])[..|q|] == q;
    }
  }

  lemma {:induction false} RowSumXor(p: Planes, a: Word, b: Word, n: nat, len: nat)
    requires n <= 16 && Even(p, len)
    ensures RowSum(p, Xor(a, b), n, len) == XorPlane(RowSum(p, a, n, len), RowSum(p, b, n, len))
    decreases n
  {
    hide Odd, HalfBy, Xor, XorPlane, NoPlane;
    NoPlaneLength(len);
    var z := NoPlane(len);
    PlaneLaws(z, z, z);
    if n > 0 {
      RowSumXor(p, a, b, n - 1, len);
      C.HalfByXor(a, b, n - 1);
      OddXor(HalfBy(a, n - 1), HalfBy(b, n - 1));
      RowSumLength(p, a, n - 1, len);
      RowSumLength(p, b, n - 1, len);
      var x := p[n - 1];
      PlaneLaws(x, x, x);
      XorSelf(x);
      PlaneSwap(RowSum(p, a, n - 1, len), if Bit(a, n - 1) then x else z,
                RowSum(p, b, n - 1, len), if Bit(b, n - 1) then x else z);
    }
  }

  lemma NoPlaneLength(len: nat) ensures |NoPlane(len)| == len {}

  lemma XorSelf(a: Plane) ensures XorPlane(a, a) == NoPlane(|a|) {}

  /** Bit t of a row's sum is the matrix row applied to column t. */
  function Column(p: Planes, t: nat): B.Bits
    requires forall i :: 0 <= i < 16 ==> t < |p[i]|
  {
    seq(16, i requires 0 <= i < 16 => p[i][t])
  }

  lemma {:induction false} RowSumColumn(p: Planes, m: Word, n: nat, len: nat, t: nat)
    requires n <= 16 && Even(p, len) && t < len
    ensures |RowSum(p, m, n, len)| == len && RowSum(p, m, n, len)[t] == B.Dot(m, Column(p, t), n)
    decreases n
  {
    hide Odd, HalfBy;
    if n > 0 { RowSumColumn(p, m, n - 1, len, t); }
  }

  lemma {:induction false} CompressPrefix(m: Word, n: nat)
    requires n <= 16
    ensures |Compress(m, n)| == 0 ==> K.Prefix(m, n) == Zero
    ensures |Compress(m, n)| == 1 ==> K.Prefix(m, n) == Exp(Compress(m, n)[0])
    decreases n
  {
    hide Odd, HalfBy, Xor, Shift;
    XorLaws(Zero, Zero);
    if n > 0 {
      CompressPrefix(m, n - 1);
      XorLaws(K.Prefix(m, n - 1), Zero);
      XorLaws(Exp(n - 1), Zero);
      XorLaws(Zero, Exp(n - 1));
    }
  }

  lemma CompressEmpty(m: Word)
    ensures |Compress(m, 16)| == 0 <==> m == Zero
  {
    hide Compress;
    CompressPrefix(m, 16);
    K.PrefixAll(m);
    CompressZero(16);
  }

  lemma {:induction false} CompressZero(n: nat)
    requires n <= 16
    ensures Compress(Zero, n) == []
    decreases n
  {
    hide Odd, HalfBy;
    if n > 0 {
      CompressZero(n - 1);
      C.HalfByZero(n - 1);
      C.TopEven();
    }
  }

  /** What two rows share, unless that is a single input. */
  function CommonMask(a: Word, b: Word): Word {
    var c := a.bits & b.bits;
    if c & (c - 1) == 0 then Zero else Word(c)
  }

  lemma PowersAlone(i: nat)
    requires i < 16
    ensures Exp(i).bits & (Exp(i).bits - 1) == 0
  {
    hide Shift;
    K.PowerValues();
  }

  lemma MaskCases(a: Word, b: Word)
    ensures var c := CommonMask(a, b); c == Zero || c.bits & (c.bits - 1) != 0
  {
  }

  /** A common queue has at least two members. */
  lemma CommonNeverSingle(a: Word, b: Word)
    ensures |Compress(CommonMask(a, b), 16)| != 1
  {
    hide Compress, CommonMask, Shift;
    var c := CommonMask(a, b);
    MaskCases(a, b);
    CompressZero(16);
    CompressPrefix(c, 16);
    K.PrefixAll(c);
    if |Compress(c, 16)| == 1 { PowersAlone(Compress(c, 16)[0]); }
  }

  // The blocks of instructions.

  /** Queue entries past the end read as zero. */
  function Padded(q: seq<Slot>): (idx: seq<Slot>)
    requires |q| <= 16
    ensures |idx| == 16
  {
    seq(16, i requires 0 <= i < 16 => if i < |q| then q[i] else 0)
  }

  /** The register that holds an input plane. */
  function Input(k: Slot): (x: Reg)
    ensures x >= 16
  {
    16 + k as int
  }

  /** The instructions for pairs of queue entries, from entry n on. */
  function Pairings(r: Reg, idx: seq<Slot>, n: nat, count: nat): (code: seq<Instr>)
    requires |idx| == 16 && n + 2 * count <= 17
    ensures |code| == count
    ensures forall k :: 0 <= k < count ==> code[k] == Ternary(r, Input(idx[n + 2 * k]), Input(idx[(n + 2 * k + 1) % 16]))
  {
    if count == 0 then []
    else
      Pairings(r, idx, n, count - 1)
      + [Ternary(r, Input(idx[n + 2 * (count - 1)]), Input(idx[(n + 2 * (count - 1) + 1) % 16]))]
  }

  /** xor_avx512_main_part: a first instruction, then one for every further pair. */
  function MainPart(odd: bool, r: Reg, idx: seq<Slot>): (code: seq<Instr>)
    requires |idx| == 16
    ensures |code| == if odd then 9 else 8
  {
    if odd then [Mov(r, Input(idx[0]))] + Pairings(r, idx, 1, 8)
    else [XorReg(r, Input(idx[0]), Input(idx[1]))] + Pairings(r, idx, 2, 7)
  }

  /** How many queue entries the first instruction and p pairs take. */
  function Taken(odd: bool, p: nat): nat { (if odd then 1 else 2) + 2 * p }

  lemma SumNext(p: Planes, idx: seq<Slot>, n: nat, len: nat)
    requires n < |idx|
    ensures Sum(p, idx[..n + 1], len) == XorPlane(Sum(p, idx[..n], len), p[idx[n]])
  {
    hide XorPlane;
    assert idx[..n + 1][..n] == idx[..n];
  }

  lemma SumFirst(p: Planes, idx: seq<Slot>, len: nat)
    requires Even(p, len) && |idx| == 16
    ensures Sum(p, idx[..1], len) == p[idx[0]]
    ensures Sum(p, idx[..2], len) == XorPlane(p[idx[0]], p[idx[1]])
  {
    hide XorPlane, NoPlane;
    var a := p[idx[0]];
    PlaneLaws(a, a, a);
    SumNext(p, idx, 0, len);
    SumNext(p, idx, 1, len);
  }

  lemma MainFirst(s: State, odd: bool, r: Reg, idx: seq<Slot>, len: nat)
    requires Wide(s, len) && r < 16 && |idx| == 16
    ensures Run(s, MainPart(odd, r, idx)[..1]) == Set(s, r, Sum(s.planes, idx[..Taken(odd, 0)], len))
  {
    hide XorPlane, NoPlane, Sum, Run;
    var code := MainPart(odd, r, idx);
    assert code[..1] == [code[0]];
    RunNext(s, [], code[0]);
    SumFirst(s.planes, idx, len);
  }

  /** One more pair of planes added to the sum in register r. */
  lemma PairRuns(s: State, u: State, r: Reg, idx: seq<Slot>, n: nat, len: nat)
    requires r < 16 && n + 1 < |idx| && u == Set(s, r, Sum(s.planes, idx[..n], len))
    ensures Step(u, Ternary(r, Input(idx[n]), Input(idx[n + 1]))) == Set(s, r, Sum(s.planes, idx[..n + 2], len))
  {
    hide XorPlane, Sum;
    SumNext(s.planes, idx, n, len);
    SumNext(s.planes, idx, n + 1, len);
  }

  lemma PairingAt(r: Reg, idx: seq<Slot>, n: nat, count: nat, k: nat)
    requires |idx| == 16 && n + 2 * count <= 17 && k < count && n + 2 * k + 1 < 16
    ensures Pairings(r, idx, n, count)[k] == Ternary(r, Input(idx[n + 2 * k]), Input(idx[n + 2 * k + 1]))
  {
    hide Input;
    assert (n + 2 * k + 1) % 16 == n + 2 * k + 1;
  }

  lemma MainTail(odd: bool, r: Reg, idx: seq<Slot>, p: nat)
    requires |idx| == 16 && 1 <= p < if odd then 9 else 8
    ensures MainPart(odd, r, idx)[p] == Pairings(r, idx, if odd then 1 else 2, if odd then 8 else 7)[p - 1]
  {
    hide Input, Pairings;
  }

  lemma MainPair(odd: bool, r: Reg, idx: seq<Slot>, p: nat)
    requires |idx| == 16 && 1 <= p <= 7
    ensures var n := Taken(odd, p - 1);
            MainPart(odd, r, idx)[p] == Ternary(r, Input(idx[n]), Input(idx[n + 1]))
  {
    hide Input, Pairings, MainPart;
    if odd {
      PairingAt(r, idx, 1, 8, p - 1);
      MainTail(true, r, idx, p);
    } else {
      PairingAt(r, idx, 2, 7, p - 1);
      MainTail(false, r, idx, p);
    }
  }

  lemma {:induction false} MainRuns(s: State, odd: bool, r: Reg, idx: seq<Slot>, p: nat, len: nat)
    requires Wide(s, len) && r < 16 && |idx| == 16 && p <= 7
    ensures Run(s, MainPart(odd, r, idx)[..1 + p]) == Set(s, r, Sum(s.planes, idx[..Taken(odd, p)], len))
    decreases p
  {
    hide XorPlane, NoPlane, Sum, Run, Step, Set, Input, Wide, MainPart;
    if p == 0 {
      MainFirst(s, odd, r, idx, len);
    } else {
      MainRuns(s, odd, r, idx, p - 1, len);
      var code := MainPart(odd, r, idx);
      var n := Taken(odd, p - 1);
      MainPair(odd, r, idx, p);
      assert code[..1 + p] == code[..p] + [code[p]];
      RunNext(s, code[..p], code[p]);
      PairRuns(s, Run(s, code[..p]), r, idx, n, len);
      assert n + 2 == Taken(odd, p);
    }
  }

  // Queues as code.

  /** The sum of a whole queue into a register. */
  function Queue(r: Reg, q: seq<Slot>): seq<Instr>
    requires 1 <= |q| <= 16
  {
    MainPart(|q| % 2 == 1, r, Padded(q))[..1 + (|q| - 1) / 2]
  }

  /** The same with one operand to spare at the end, to be patched. */
  function Merged(r: Reg, q: seq<Slot>): (code: seq<Instr>)
    requires 1 <= |q| <= 16
    ensures |code| == 1 + |q| / 2
  {
    MainPart(|q| % 2 == 0, r, Padded(q))[..1 + |q| / 2]
  }

  /** Make the last operand of a three-way XOR a plane in memory. */
  function PatchMem(i: Instr, o: Slot): Instr { if i.Ternary? then TernaryMem(i.r, i.a, o) else i }

  /** Make the last operand of an XOR another register. */
  function PatchReg(i: Instr, x: Reg): Instr {
    if i.Ternary? then Ternary(i.r, i.a, x) else if i.XorReg? then XorReg(i.r, i.a, x) else i
  }

  lemma QueueRuns(s: State, r: Reg, q: seq<Slot>, len: nat)
    requires Wide(s, len) && r < 16 && 1 <= |q| <= 16
    ensures Run(s, Queue(r, q)) == Set(s, r, Sum(s.planes, q, len))
  {
    hide XorPlane, NoPlane, Sum, Run, Step, Set, Input, Wide, MainPart, Taken;
    var p := (|q| - 1) / 2;
    MainRuns(s, |q| % 2 == 1, r, Padded(q), p, len);
    QueueTaken(|q|);
    assert Padded(q)[..|q|] == q;
  }

  lemma MainEighth(r: Reg, idx: seq<Slot>)
    requires |idx| == 16
    ensures MainPart(true, r, idx)[8] == Ternary(r, Input(idx[15]), Input(idx[0]))
  {
    hide Input;
    MainTail(true, r, idx, 8);
  }

  lemma MergedLast(r: Reg, q: seq<Slot>)
    requires 2 <= |q| <= 16
    ensures var i := Merged(r, q)[|q| / 2]; i.Ternary? && i.r == r && i.a == Input(q[|q| - 1])
  {
    hide MainPart, Input;
    if |q| == 16 {
      MainEighth(r, Padded(q));
    } else {
      MainPair(|q| % 2 == 0, r, Padded(q), |q| / 2);
      MergedTaken(|q|);
    }
  }

  lemma MergedTaken(n: nat)
    requires n >= 2
    ensures Taken(n % 2 == 0, n / 2 - 1) == n - 1
  {
  }

  lemma QueueTaken(n: nat)
    requires n >= 1
    ensures Taken(n % 2 == 1, (n - 1) / 2) == n
  {
  }

  lemma MergedFirst(s: State, r: Reg, q: seq<Slot>, len: nat)
    requires Wide(s, len) && r < 16 && 2 <= |q| <= 16
    ensures Run(s, Merged(r, q)[..|q| / 2]) == Set(s, r, Sum(s.planes, q[..|q| - 1], len))
  {
    hide XorPlane, NoPlane, Sum, Run, Step, Set, Input, Wide, MainPart;
    var odd, p := |q| % 2 == 0, |q| / 2 - 1;
    MainRuns(s, odd, r, Padded(q), p, len);
    MergedTaken(|q|);
    assert Padded(q)[..|q| - 1] == q[..|q| - 1];
    assert Merged(r, q)[..|q| / 2] == MainPart(odd, r, Padded(q))[..1 + p];
  }

  lemma MergedMemRuns(s: State, r: Reg, q: seq<Slot>, o: Slot, len: nat)
    requires Wide(s, len) && r < 16 && 2 <= |q| <= 16
    ensures var code := Merged(r, q);
            Run(s, code[|q| / 2 := PatchMem(code[|q| / 2], o)]) == Set(s, r, XorPlane(Sum(s.planes, q, len), s.mem[o]))
  {
    hide XorPlane, NoPlane, Run, Merged;
    var code, n := Merged(r, q), |q| / 2;
    var last := PatchMem(code[n], o);
    MergedLast(r, q);
    MergedFirst(s, r, q, len);
    assert code[n := last] == code[..n] + [last];
    RunNext(s, code[..n], last);
  }

  lemma MergedRegRuns(s: State, r: Reg, q: seq<Slot>, x: Reg, len: nat)
    requires Wide(s, len) && r < 16 && x < 16 && x != r && 1 <= |q| <= 16
    ensures var code := Merged(r, q);
            Run(s, code[|q| / 2 := PatchReg(code[|q| / 2], x)]) == Set(s, r, XorPlane(Sum(s.planes, q, len), s.zmm[x]))
  {
    hide XorPlane, NoPlane, Run, Merged;
    var code, n := Merged(r, q), |q| / 2;
    var last := PatchReg(code[n], x);
    assert code[n := last] == code[..n] + [last];
    RunNext(s, code[..n], last);
    if |q| == 1 {
      MergedSingle(r, q);
      RunNone(s);
      SumSingle(s.planes, q, len);
    } else {
      MergedLast(r, q);
      MergedFirst(s, r, q, len);
    }
  }

  lemma MergedSingle(r: Reg, q: seq<Slot>)
    requires |q| == 1
    ensures Merged(r, q)[..0] == [] && Merged(r, q)[0] == XorReg(r, Input(q[0]), Input(0))
  {
  }

  lemma RunNone(s: State) ensures Run(s, []) == s {}

  lemma SumSingle(p: Planes, q: seq<Slot>, len: nat)
    requires Even(p, len) && |q| == 1
    ensures Sum(p, q, len) == p[q[0]]
  {
    hide XorPlane, NoPlane;
    var a := p[q[0]];
    PlaneLaws(a, a, a);
    assert q[..0] == [];
  }

  /** The sum of a queue and, if there is one, of the common queue in register 3. */
  function Queued(s: State, q: seq<Slot>, common: bool, len: nat): Plane {
    if common then XorPlane(Sum(s.planes, q, len), s.zmm[3]) else Sum(s.planes, q, len)
  }

  /** The code adds the queues to output o in register r. */
  ghost predicate Adds(code: seq<Instr>, r: Reg, q: seq<Slot>, common: bool, o: Slot) {
    forall s: State, len: nat {:trigger Wide(s, len)} :: Wide(s, len) ==>
      Run(s, code) == Set(s, r, XorPlane(Queued(s, q, common, len), s.mem[o]))
  }

  /** The code stores the queues as output o, using register r. */
  ghost predicate Stores(code: seq<Instr>, r: Reg, q: seq<Slot>, common: bool, o: Slot) {
    forall s: State, len: nat {:trigger Wide(s, len)} :: Wide(s, len) ==> Stored(s, Run(s, code), r, q, common, o, len)
  }

  ghost predicate Stored(s: State, u: State, r: Reg, q: seq<Slot>, common: bool, o: Slot, len: nat) {
    && u.planes == s.planes && u.src == s.src && u.mem == s.mem[o := Queued(s, q, common, len)]
    && |u.zmm[if r < 16 then r else 0]| == len && forall k :: 0 <= k < 16 && k != r ==> u.zmm[k] == s.zmm[k]
  }

  method EmitMuladd(r: Reg, q: seq<Slot>, common: bool, o: Slot) returns (code: seq<Instr>)
    requires r < 3 && |q| <= 16 && (common || |q| >= 1)
    ensures Adds(code, r, q, common, o)
  {
    hide XorPlane, NoPlane, Run, Merged, Queue, Input;
    if common {
      if |q| == 0 {
        code := [XorMem(r, 3, o)];
        forall s: State, len: nat | Wide(s, len)
          ensures Run(s, code) == Set(s, r, XorPlane(Queued(s, q, common, len), s.mem[o]))
        {
          var a := s.zmm[3];
          RunNext(s, [], code[0]);
          PlaneLaws(a, a, a);
        }
      } else {
        code := Queue(r, q) + [TernaryMem(r, 3, o)];
        forall s: State, len: nat | Wide(s, len)
          ensures Run(s, code) == Set(s, r, XorPlane(Queued(s, q, common, len), s.mem[o]))
        {
          QueueRuns(s, r, q, len);
          RunNext(s, Queue(r, q), TernaryMem(r, 3, o));
        }
      }
    } else if |q| == 1 {
      code := [XorMem(r, Input(q[0]), o)];
      forall s: State, len: nat | Wide(s, len)
        ensures Run(s, code) == Set(s, r, XorPlane(Queued(s, q, common, len), s.mem[o]))
      {
        RunNext(s, [], code[0]);
        SumSingle(s.planes, q, len);
        InputMeans(s, q[0]);
      }
    } else {
      code := Merged(r, q);
      code := code[|q| / 2 := PatchMem(code[|q| / 2], o)];
      forall s: State, len: nat | Wide(s, len)
        ensures Run(s, code) == Set(s, r, XorPlane(Queued(s, q, common, len), s.mem[o]))
      {
        MergedMemRuns(s, r, q, o, len);
      }
    }
  }

  lemma InputMeans(s: State, k: Slot) ensures Get(s, Input(k)) == s.planes[k] {}

  method EmitMul(r: Reg, q: seq<Slot>, common: bool, o: Slot) returns (code: seq<Instr>)
    requires r < 3 && |q| <= 16 && (common || |q| >= 1)
    ensures Stores(code, r, q, common, o)
  {
    hide XorPlane, NoPlane, Run, Merged, Queue, Input, Sum;
    if common {
      if |q| == 0 {
        code := [Store(o, 3)];
        forall s: State, len: nat | Wide(s, len) ensures Stored(s, Run(s, code), r, q, common, o, len) {
          var a := s.zmm[3];
          RunNext(s, [], code[0]);
          PlaneLaws(a, a, a);
          SumNone(s.planes, q, len);
        }
      } else {
        code := Merged(r, q);
        code := code[|q| / 2 := PatchReg(code[|q| / 2], 3)];
        ghost var sum := code;
        code := code + [Store(o, r)];
        forall s: State, len: nat | Wide(s, len) ensures Stored(s, Run(s, code), r, q, common, o, len) {
          MergedRegRuns(s, r, q, 3, len);
          RunNext(s, sum, Store(o, r));
          SumLength(s.planes, q, len);
          XorLength(Sum(s.planes, q, len), s.zmm[3]);
        }
      }
    } else if |q| == 1 {
      code := [Store(o, Input(q[0]))];
      forall s: State, len: nat | Wide(s, len) ensures Stored(s, Run(s, code), r, q, common, o, len) {
        RunNext(s, [], code[0]);
        SumSingle(s.planes, q, len);
        InputMeans(s, q[0]);
      }
    } else {
      code := Queue(r, q);
      ghost var sum := code;
      code := code + [Store(o, r)];
      forall s: State, len: nat | Wide(s, len) ensures Stored(s, Run(s, code), r, q, common, o, len) {
        QueueRuns(s, r, q, len);
        RunNext(s, sum, Store(o, r));
        SumLength(s.planes, q, len);
      }
    }
  }

  lemma SumNone(p: Planes, q: seq<Slot>, len: nat) requires |q| == 0 ensures Sum(p, q, len) == NoPlane(len) {}

  lemma XorLength(a: Plane, b: Plane) ensures |XorPlane(a, b)| == |a| {}

  // Two outputs at a time.

  /** What output i becomes: the row's sum of the inputs, added to the old plane or alone. */
  function Target(p: Planes, old_: Plane, row: Word, muladd: bool, len: nat): Plane {
    if muladd then XorPlane(RowSum(p, row, 16, len), old_) else RowSum(p, row, 16, len)
  }

  /** Only outputs 2 * bit and 2 * bit + 1 change, and they become what rows d0 and d1 ask for. */
  ghost predicate Paired(s: State, u: State, d0: Word, d1: Word, bit: nat, muladd: bool, len: nat)
    requires bit < 8
  {
    && u.planes == s.planes && u.src == s.src && Wide(u, len)
    && u.mem == s.mem[2 * bit := Target(s.planes, s.mem[2 * bit], d0, muladd, len)]
                     [2 * bit + 1 := Target(s.planes, s.mem[2 * bit + 1], d1, muladd, len)]
  }

  /** A row is its queue and the common queue together. */
  lemma QueuesAreRow(p: Planes, row: Word, c: Word, len: nat)
    requires Even(p, len)
    ensures var q, sum := Compress(Xor(row, c), 16), Sum(p, Compress(c, 16), len);
            XorPlane(Sum(p, q, len), sum) == RowSum(p, row, 16, len)
    ensures |Compress(c, 16)| == 0 ==> Sum(p, Compress(Xor(row, c), 16), len) == RowSum(p, row, 16, len)
  {
    hide XorPlane, NoPlane, Sum, RowSum, Compress, Xor;
    SumIsRowSum(p, c, 16, len);
    SumIsRowSum(p, Xor(row, c), 16, len);
    RowSumXor(p, Xor(row, c), c, 16, len);
    XorAssoc(row, c, c);
    XorLaws(row, c);
    XorLaws(c, c);
    CompressEmpty(c);
  }

  /** A queue is empty only when all of its row is common. */
  lemma QueueNotEmpty(row: Word, c: Word)
    requires row != Zero && |Compress(c, 16)| == 0
    ensures |Compress(Xor(row, c), 16)| >= 1
  {
    hide Compress, Xor;
    CompressEmpty(c);
    XorLaws(row, Zero);
    CompressEmpty(row);
  }

  /** The common queue, if any, goes to register 3. */
  function CommonCode(q: seq<Slot>): seq<Instr>
    requires |q| <= 16
  {
    if |q| > 0 then Queue(3, q) else []
  }

  lemma CommonRuns(s: State, q: seq<Slot>, len: nat)
    requires Wide(s, len) && |q| <= 16
    ensures var u := Run(s, CommonCode(q));
            u == (if |q| > 0 then s.(zmm := s.zmm[3 := Sum(s.planes, q, len)]) else s) && Wide(u, len)
  {
    hide Queue, Sum, XorPlane, NoPlane;
    if |q| > 0 {
      QueueRuns(s, 3, q, len);
      SumLength(s.planes, q, len);
    }
  }

  lemma QueuedLength(s: State, q: seq<Slot>, common: bool, len: nat)
    requires Wide(s, len)
    ensures |Queued(s, q, common, len)| == len
  {
    hide Sum;
    SumLength(s.planes, q, len);
  }

  /** What a queue sums to once the common queue is in register 3. */
  lemma QueuedIsRow(s: State, row: Word, c: Word, len: nat)
    requires Wide(s, len)
    requires var q := Compress(c, 16); |q| > 0 ==> s.zmm[3] == Sum(s.planes, q, len)
    ensures Queued(s, Compress(Xor(row, c), 16), |Compress(c, 16)| > 0, len) == RowSum(s.planes, row, 16, len)
  {
    hide XorPlane, Sum, RowSum, Compress, Xor;
    QueuesAreRow(s.planes, row, c, len);
  }

  lemma MuladdPair(s: State, a: seq<Instr>, b: seq<Instr>, d0: Word, d1: Word, c: Word, bit: nat, len: nat)
    requires Wide(s, len) && bit < 8
    requires Adds(a, 1, Compress(Xor(d0, c), 16), |Compress(c, 16)| > 0, 2 * bit)
    requires Adds(b, 2, Compress(Xor(d1, c), 16), |Compress(c, 16)| > 0, 2 * bit + 1)
    ensures Paired(s, Run(s, CommonCode(Compress(c, 16)) + a + b + [Store(2 * bit, 1)] + [Store(2 * bit + 1, 2)]),
                   d0, d1, bit, true, len)
  {
    hide XorPlane, NoPlane, Sum, RowSum, Compress, Xor, Run, CommonCode, Queued;
    var q, common := Compress(c, 16), |Compress(c, 16)| > 0;
    var qa, qb := Compress(Xor(d0, c), 16), Compress(Xor(d1, c), 16);
    var code0 := CommonCode(q);
    CommonRuns(s, q, len);
    var u := Run(s, code0);
    RunAppend(s, code0, a);
    QueuedIsRow(u, d0, c, len);
    QueuedLength(u, qa, common, len);
    XorLength(Queued(u, qa, common, len), u.mem[2 * bit]);
    var v := Run(u, a);
    RunAppend(s, code0 + a, b);
    QueuedIsRow(v, d1, c, len);
    QueuedLength(v, qb, common, len);
    XorLength(Queued(v, qb, common, len), v.mem[2 * bit + 1]);
    RunNext(s, code0 + a + b, Store(2 * bit, 1));
    RunNext(s, code0 + a + b + [Store(2 * bit, 1)], Store(2 * bit + 1, 2));
  }

  lemma MulPair(s: State, a: seq<Instr>, b: seq<Instr>, d0: Word, d1: Word, c: Word, bit: nat, len: nat)
    requires Wide(s, len) && bit < 8
    requires Stores(a, 1, Compress(Xor(d0, c), 16), |Compress(c, 16)| > 0, 2 * bit)
    requires Stores(b, 2, Compress(Xor(d1, c), 16), |Compress(c, 16)| > 0, 2 * bit + 1)
    ensures Paired(s, Run(s, CommonCode(Compress(c, 16)) + a + b), d0, d1, bit, false, len)
  {
    hide XorPlane, NoPlane, Sum, RowSum, Compress, Xor, Run, CommonCode, Queued;
    var q, common := Compress(c, 16), |Compress(c, 16)| > 0;
    var qa, qb := Compress(Xor(d0, c), 16), Compress(Xor(d1, c), 16);
    var code0 := CommonCode(q);
    CommonRuns(s, q, len);
    var u := Run(s, code0);
    RunAppend(s, code0, a);
    QueuedIsRow(u, d0, c, len);
    QueuedLength(u, qa, common, len);
    var v := Run(u, a);
    RunAppend(s, code0 + a, b);
    QueuedIsRow(v, d1, c, len);
    QueuedLength(v, qb, common, len);
  }

  /** The code computes outputs 2 * bit and 2 * bit + 1 for planes of any length. */
  ghost predicate Pairs(code: seq<Instr>, d0: Word, d1: Word, bit: nat, muladd: bool)
    requires bit < 8
  {
    forall s: State, len: nat {:trigger Wide(s, len)} :: Wide(s, len) ==> Paired(s, Run(s, code), d0, d1, bit, muladd, len)
  }

  /** One round of the generator's loop. */
  method WritePair(d0: Word, d1: Word, bit: nat, muladd: bool) returns (code: seq<Instr>)
    requires bit < 8 && d0 != Zero && d1 != Zero
    ensures Pairs(code, d0, d1, bit, muladd)
  {
    hide Compress, Xor, CommonMask, Run, CommonCode, Paired, Adds, Stores;
    var c := CommonMask(d0, d1);
    var idxC, idxA, idxB := Compress(c, 16), Compress(Xor(d0, c), 16), Compress(Xor(d1, c), 16);
    var common := |idxC| > 0;
    if !common {
      QueueNotEmpty(d0, c);
      QueueNotEmpty(d1, c);
    }
    code := CommonCode(idxC);
    if muladd {
      var a := EmitMuladd(1, idxA, common, 2 * bit);
      var b := EmitMuladd(2, idxB, common, 2 * bit + 1);
      code := code + a + b + [Store(2 * bit, 1)] + [Store(2 * bit + 1, 2)];
      forall s: State, len: nat | Wide(s, len) ensures Paired(s, Run(s, code), d0, d1, bit, muladd, len) {
        MuladdPair(s, a, b, d0, d1, c, bit, len);
      }
    } else {
      var a := EmitMul(1, idxA, common, 2 * bit);
      var b := EmitMul(2, idxB, common, 2 * bit + 1);
      code := code + a + b;
      forall s: State, len: nat | Wide(s, len) ensures Paired(s, Run(s, code), d0, d1, bit, muladd, len) {
        MulPair(s, a, b, d0, d1, c, bit, len);
      }
    }
  }

  // The generator.

  /** From planes 1 to 15 in registers, the first n outputs are as their rows ask and the rest as before. */
  ghost predicate Written(s: State, u: State, deps: B.Rows, muladd: bool, n: nat, len: nat) {
    && u.planes == s.src == u.src && Wide(u, len)
    && (forall i :: 0 <= i < n && i < 16 ==> u.mem[i] == Target(s.src, s.mem[i], deps[i], muladd, len))
    && forall i :: n <= i < 16 ==> u.mem[i] == s.mem[i]
  }

  ghost predicate Writes(code: seq<Instr>, deps: B.Rows, muladd: bool, n: nat) {
    forall s: State, len: nat {:trigger Wide(s, len)} ::
      Wide(s, len) && s.planes[1..] == s.src[1..] ==> Written(s, Run(s, code), deps, muladd, n, len)
  }

  lemma WritesFirst(deps: B.Rows, muladd: bool)
    ensures Writes([Load(0)], deps, muladd, 0)
  {
    forall s: State, len: nat | Wide(s, len) && s.planes[1..] == s.src[1..]
      ensures Written(s, Run(s, [Load(0)]), deps, muladd, 0, len)
    {
      RunNext(s, [], Load(0));
      forall i | 0 <= i < 16 ensures s.planes[0 := s.src[0]][i] == s.src[i] {
        if i > 0 { assert s.planes[1..][i - 1] == s.src[1..][i - 1]; }
      }
      assert s.planes[0 := s.src[0]] == s.src;
    }
  }

  lemma WrittenNext(s: State, v: State, u: State, deps: B.Rows, muladd: bool, bit: nat, len: nat)
    requires bit < 8 && Written(s, v, deps, muladd, 2 * bit, len)
    requires Paired(v, u, deps[2 * bit], deps[2 * bit + 1], bit, muladd, len)
    ensures Written(s, u, deps, muladd, 2 * bit + 2, len)
  {
    hide Target, Wide;
  }

  lemma WritesNext(code: seq<Instr>, part: seq<Instr>, deps: B.Rows, muladd: bool, bit: nat)
    requires bit < 8 && Writes(code, deps, muladd, 2 * bit)
    requires Pairs(part, deps[2 * bit], deps[2 * bit + 1], bit, muladd)
    ensures Writes(code + part, deps, muladd, 2 * bit + 2)
  {
    hide Run, Paired, Wide;
    forall s: State, len: nat | Wide(s, len) && s.planes[1..] == s.src[1..]
      ensures Written(s, Run(s, code + part), deps, muladd, 2 * bit + 2, len)
    {
      RunAppend(s, code, part);
      var v := Run(s, code);
      WrittenWide(s, v, deps, muladd, 2 * bit, len);
      hide Written;
      WrittenNext(s, v, Run(v, part), deps, muladd, bit, len);
    }
  }

  lemma WrittenWide(s: State, u: State, deps: B.Rows, muladd: bool, n: nat, len: nat)
    requires Written(s, u, deps, muladd, n, len)
    ensures Wide(u, len)
  {
  }

  method WriteJit(deps: B.Rows, muladd: bool) returns (code: seq<Instr>)
    requires forall i :: 0 <= i < 16 ==> deps[i] != Zero
    ensures Writes(code, deps, muladd, 16)
  {
    hide Run, Writes, Pairs;
    code := [Load(0)];
    WritesFirst(deps, muladd);
    var bit: int := 0;
    while bit < 8
      invariant 0 <= bit <= 8
      invariant Writes(code, deps, muladd, 2 * bit)
    {
      var part := WritePair(deps[2 * bit], deps[2 * bit + 1], bit, muladd);
      WritesNext(code, part, deps, muladd, bit);
      code := code + part;
      bit := bit + 1;
    }
  }

  /** The state once planes 1 to i - 1 have been loaded. */
  function Loaded(s: State, i: nat): State
    requires 1 <= i <= 16
  {
    s.(planes := s.planes[..1] + s.src[1..i] + s.planes[i..])
  }

  lemma LoadedNext(s: State, i: Slot)
    requires i >= 1
    ensures Step(Loaded(s, i), Load(i)) == Loaded(s, i + 1)
    ensures Loaded(s, 1) == s
  {
    assert Loaded(s, i).planes[i := s.src[i]] == Loaded(s, i + 1).planes;
    assert Loaded(s, 1).planes == s.planes;
  }

  /** Registers 17 to 31 are loaded ahead of the generated code. */
  method WriteInit() returns (code: seq<Instr>)
    ensures forall s: State {:trigger Run(s, code)} :: Run(s, code) == Loaded(s, 16)
  {
    hide Loaded, Step, Run;
    code := [];
    forall s: State ensures Run(s, code) == Loaded(s, 1) {
      RunNone(s);
      LoadedNext(s, 1);
    }
    var i: int := 1;
    while i < 16
      invariant 1 <= i <= 16
      invariant forall s: State {:trigger Run(s, code)} :: Run(s, code) == Loaded(s, i)
    {
      ghost var before := code;
      code := code + [Load(i)];
      forall s: State ensures Run(s, code) == Loaded(s, i + 1) {
        RunNext(s, before, Load(i));
        LoadedNext(s, i);
      }
      i := i + 1;
    }
  }

  /** Every word of the output becomes the product by val, or has it added. */
  ghost predicate Multiplied(s: State, u: State, val: nat, muladd: bool, len: nat)
    requires Wide(s, len) && Wide(u, len)
  {
    forall t: nat :: t < len ==>
      B.WordOf(Column(u.mem, t))
      == Xor(if muladd then B.WordOf(Column(s.mem, t)) else Zero, Mul(T.FromNat(val), B.WordOf(Column(s.src, t))))
  }

  lemma TargetColumn(s: State, u: State, m: B.Rows, muladd: bool, len: nat, t: nat)
    requires Wide(s, len) && Written(s, u, m, muladd, 16, len) && t < len
    ensures Column(u.mem, t) == if muladd then B.XorBits(B.Apply(m, Column(s.src, t)), Column(s.mem, t))
                                else B.Apply(m, Column(s.src, t))
  {
    hide RowSum, B.Dot;
    forall i | 0 <= i < 16
      ensures u.mem[i][t] == (B.Dot(m[i], Column(s.src, t), 16) != (muladd && s.mem[i][t]))
    {
      RowSumColumn(s.src, m[i], 16, len, t);
    }
  }

  lemma WrittenMultiplies(s: State, u: State, table: seq<B.Rows>, val: nat, muladd: bool, len: nat)
    requires Wide(s, len) && |table| == 64 && B.IsTable(B.Polynomial(), table, 64) && val < 65536
    requires Written(s, u, B.DepMask(table, val), muladd, 16, len)
    ensures Multiplied(s, u, val, muladd, len)
  {
    hide B.IsTable, B.DepMask, B.WordOf, B.XorBits, B.Apply, Mul, Xor, T.FromNat, Column;
    forall t: nat | t < len
      ensures B.WordOf(Column(u.mem, t))
           == Xor(if muladd then B.WordOf(Column(s.mem, t)) else Zero, Mul(T.FromNat(val), B.WordOf(Column(s.src, t))))
    {
      var m, x, old_ := B.DepMask(table, val), Column(s.src, t), Column(s.mem, t);
      TargetColumn(s, u, m, muladd, len, t);
      B.DepMaskMultiplies(table, val, x);
      B.WordOfXor(B.Apply(m, x), old_);
      XorLaws(B.WordOf(B.Apply(m, x)), B.WordOf(old_));
      XorLaws(Zero, B.WordOf(B.Apply(m, x)));
      XorLaws(B.WordOf(B.Apply(m, x)), Zero);
    }
  }

  /** The program for a non-zero coefficient multiplies every word of a buffer of any length by it. */
  method XorJitMul(table: seq<B.Rows>, val: nat, muladd: bool) returns (code: seq<Instr>)
    requires |table| == 64 && B.IsTable(B.Polynomial(), table, 64) && 0 < val < 65536
    ensures forall s: State, len: nat {:trigger Wide(s, len)} ::
              Wide(s, len) ==> Wide(Run(s, code), len) && Multiplied(s, Run(s, code), val, muladd, len)
  {
    hide B.IsTable, B.DepMask, Run, T.FromNat, Multiplied, Written;
    B.CoefficientNotZero(val);
    var deps := B.DepMask(table, val);
    forall i | 0 <= i < 16 ensures deps[i] != Zero { B.RowsNotEmpty(table, val, i); }
    var init := WriteInit();
    var body := WriteJit(deps, muladd);
    code := init + body;
    forall s: State, len: nat | Wide(s, len)
      ensures Wide(Run(s, code), len) && Multiplied(s, Run(s, code), val, muladd, len)
    {
      RunAppend(s, init, body);
      var v := Run(s, init);
      LoadedWide(s, v, len);
      WrittenMultiplies(v, Run(v, body), table, val, muladd, len);
      SameInputs(s, v, Run(v, body), table, val, muladd, len);
    }
  }

  lemma LoadedWide(s: State, v: State, len: nat)
    requires Wide(s, len) && v == Loaded(s, 16)
    ensures Wide(v, len) && v.planes[1..] == v.src[1..]
  {
  }

  lemma SameInputs(s: State, v: State, u: State, table: seq<B.Rows>, val: nat, muladd: bool, len: nat)
    requires Wide(s, len) && Wide(v, len) && v.src == s.src && v.mem == s.mem
    requires |table| == 64 && val < 65536 && Written(v, u, B.DepMask(table, val), muladd, 16, len)
    requires Multiplied(v, u, val, muladd, len)
    ensures Wide(u, len) && Multiplied(s, u, val, muladd, len)
  {
    hide B.DepMask, B.WordOf, Mul, Xor, T.FromNat, Target, Column;
  }
}
