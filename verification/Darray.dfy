/** The distributed array constructor: which elements of a global array each process of a
    process grid owns, and the datatype that selects them. Dimensions are numbered from the
    fastest running one. */
module Darray {
  import opened TypeMap
  import opened Constructors
  import opened Subarray

  const DFLT_DARG := -1

  datatype Dist = Block | Cyclic

  /** One dimension as one process sees it: its size, how it is distributed over `procs`
      processes, and which of them, `coord`, this one is. */
  datatype Dim = Dim(size: nat, dist: Dist, darg: int, procs: nat, coord: nat)

  /** What MPI demands: a block size that is the default or positive, and blocks that cover the
      dimension. */
  predicate DimOk(d: Dim) {
    && d.procs > 0 && d.coord < d.procs && (d.darg == DFLT_DARG || d.darg > 0)
    && (d.dist == Block && d.darg != DFLT_DARG ==> d.darg * d.procs >= d.size)
  }

  function BlockSize(d: Dim): nat
    requires DimOk(d)
  {
    if d.darg != DFLT_DARG then d.darg
    else if d.dist == Cyclic then 1
    else (d.size + d.procs - 1) / d.procs
  }

  /** `procs` blocks of length `c` cover the dimension. */
  ghost predicate Covers(d: Dim, c: nat) {
    d.size <= c * d.procs
  }

  /** What MPI says the length of a block is: the one given, or by default 1 for the cyclic distribution and the
      least that covers the dimension for the other. */
  ghost predicate IsBlockSize(d: Dim, b: nat) {
    if d.darg != DFLT_DARG then b == d.darg
    else if d.dist == Cyclic then b == 1
    else forall c: nat :: Covers(d, c) <==> b <= c
  }

  lemma {:induction false} CoversMore(d: Dim, b: nat, c: nat)
    requires Covers(d, b) && b <= c
    ensures Covers(d, c)
  {
    assert c * d.procs == b * d.procs + (c - b) * d.procs;
  }

  /** The default length of a block covers the dimension, and no smaller one does. */
  lemma {:induction false} LeastCovers(d: Dim, c: nat)
    requires DimOk(d) && d.darg == DFLT_DARG && d.dist == Block
    ensures Covers(d, c) <==> BlockSize(d) <= c
  {
    var (b, m) := (BlockSize(d), d.size + d.procs - 1);
    assert m == b * d.procs + m % d.procs;
    if b <= c {
      CoversMore(d, b, c);
    } else if Covers(d, c) {
      CoversMore(d, c, b - 1);
    }
  }

  lemma {:induction false} BlockSizeIs(d: Dim, b: nat)
    requires DimOk(d)
    ensures IsBlockSize(d, b) <==> b == BlockSize(d)
  {
    if d.darg == DFLT_DARG && d.dist == Block {
      forall c: nat
        ensures Covers(d, c) <==> BlockSize(d) <= c
      {
        LeastCovers(d, c);
      }
      LeastCovers(d, b);
      if IsBlockSize(d, b) {
        assert Covers(d, b) && Covers(d, BlockSize(d));
      }
    }
  }

  // ---------------------------------------------------------------------------
  // One dimension: ownership, and the indices the code computes
  // ---------------------------------------------------------------------------

  /** The process coordinate that owns index `i` (section 4.1.4 of MPI-3.0). */
  function Owner(d: Dim, i: nat): nat
    requires DimOk(d)
  {
    if BlockSize(d) == 0 then 0
    else if d.dist == Block then i / BlockSize(d)
    else (i / BlockSize(d)) % d.procs
  }

  function MySize(d: Dim): nat
    requires DimOk(d)
  {
    var blk := BlockSize(d);
    var j := d.size - blk * d.coord;
    var mine := if blk < j then blk else j;
    if mine < 0 then 0 else mine
  }

  /** local_size of the cyclic distribution, for `t` indices from the first one owned on. */
  function Local(t: nat, cycle: nat, blk: nat): nat
    requires cycle > 0
  {
    (t / cycle) * blk + (if t % cycle < blk then t % cycle else blk)
  }

  function LocalSize(d: Dim): nat
    requires DimOk(d) && d.dist == Cyclic
  {
    var (blk, st) := (BlockSize(d), d.coord * BlockSize(d));
    Positive(d.procs, blk);
    if d.size - 1 < st then 0 else Local(d.size - st, d.procs * blk, blk)
  }

  /** `count` whole blocks and `rem` more indices. */
  function Pieces(count: nat, rem: nat, cycle: nat, blk: nat): seq<int> {
    Sums(Run(count, 0, cycle), Run(blk, 0, 1)) + Run(rem, count * cycle, 1)
  }

  lemma {:induction false} Positive(a: nat, b: nat)
    requires a > 0 && b > 0
    ensures a * b > 0
  {
  }

  /** The indices relative to the first one owned. */
  function Relative(d: Dim): seq<int>
    requires DimOk(d)
  {
    if d.dist == Block then Run(MySize(d), 0, 1)
    else
      var (blk, local) := (BlockSize(d), LocalSize(d));
      Pieces(local / blk, local % blk, d.procs * blk, blk)
  }

  /** st_offset */
  function Start(d: Dim): nat
    requires DimOk(d)
  {
    if (if d.dist == Block then MySize(d) else LocalSize(d)) == 0 then 0 else BlockSize(d) * d.coord
  }

  function Owned(d: Dim): seq<int>
    requires DimOk(d)
  {
    Plus(Start(d), Relative(d))
  }

  lemma {:induction false} RunMember(n: nat, d: int, e: int, x: int)
    ensures x in Run(n, d, e) <==> exists i :: 0 <= i < n && x == d + i * e
  {
    if x in Run(n, d, e) {
      var i :| 0 <= i < n && Run(n, d, e)[i] == x;
      RunAt(n, d, e, i);
    }
    if i :| 0 <= i < n && x == d + i * e {
      RunAt(n, d, e, i);
    }
  }

  lemma {:induction false} UnitRun(n: nat, d: int, x: int)
    ensures x in Run(n, d, 1) <==> d <= x < d + n
  {
    RunMember(n, d, 1, x);
    if d <= x < d + n {
      assert x == d + (x - d) * 1;
    }
  }

  lemma {:induction false} PlusMember(d: int, xs: seq<int>, x: int)
    ensures x in Plus(d, xs) <==> x - d in xs
  {
    if i :| 0 <= i < |xs| && xs[i] == x - d {
      assert Plus(d, xs)[i] == x;
    }
  }

  lemma {:induction false} SumsMember(outer: seq<int>, inner: seq<int>, x: int)
    ensures x in Sums(outer, inner) <==> exists u :: u in outer && x - u in inner
  {
    if outer != [] {
      SumsMember(outer[1..], inner, x);
      PlusMember(outer[0], inner, x);
      if x - outer[0] in inner {
        assert outer[0] in outer;
      }
      if u :| u in outer[1..] && x - u in inner {
        assert u in outer;
      }
      if u :| u in outer && x - u in inner {
        assert u == outer[0] || u in outer[1..];
      }
    }
  }

  /** `y` lies in block number `k` when blocks of length `blk` begin every `cycle`. */
  predicate InBlock(k: int, cycle: nat, blk: nat, y: int) {
    0 <= k && k * cycle <= y < k * cycle + blk
  }

  ghost predicate InSomeBlock(cycle: nat, blk: nat, y: int) {
    exists k :: InBlock(k, cycle, blk, y)
  }

  /** The blocks of length `blk`, one every `cycle`. */
  lemma {:induction false} CycleMember(count: nat, cycle: nat, blk: nat, x: int)
    ensures x in Sums(Run(count, 0, cycle), Run(blk, 0, 1)) <==>
            exists k :: k < count && InBlock(k, cycle, blk, x)
  {
    var (outer, inner) := (Run(count, 0, cycle), Run(blk, 0, 1));
    SumsMember(outer, inner, x);
    if u :| u in outer && x - u in inner {
      RunMember(count, 0, cycle, u);
      UnitRun(blk, 0, x - u);
      var k :| 0 <= k < count && u == 0 + k * cycle;
      assert InBlock(k, cycle, blk, x);
    }
    if k :| k < count && InBlock(k, cycle, blk, x) {
      RunAt(count, 0, cycle, k);
      assert k * cycle in outer;
      UnitRun(blk, 0, x - k * cycle);
    }
  }

  lemma {:induction false} DivRange(x: int, b: nat, c: int)
    requires b > 0
    ensures x / b == c <==> c * b <= x < c * b + b
  {
    var q := x / b;
    assert x == q * b + x % b;
    if c * b <= x < c * b + b {
      if q < c {
        Gap(q, c, b);
      } else if q > c {
        Gap(c, q, b);
      }
    }
  }

  lemma {:induction false} Regroup(k: int, n: int, c: int, b: int)
    ensures (k * n + c) * b == k * (n * b) + c * b
  {
  }

  lemma {:induction false} Remainder(m: nat, n: nat)
    requires n > 0
    ensures m == (m / n) * n + m % n
  {
  }

  lemma {:induction false} OwnerToBlock(x: nat, blk: nat, n: nat, c: nat)
    requires blk > 0 && c < n && (x / blk) % n == c
    ensures InBlock((x / blk) / n, n * blk, blk, x - c * blk)
  {
    var (m, k) := (x / blk, (x / blk) / n);
    DivRange(x, blk, m);
    assert m == k * n + c by {
      Remainder(m, n);
    }
    Regroup(k, n, c, blk);
  }

  lemma {:induction false} BlockToOwner(x: nat, blk: nat, n: nat, c: nat, k: int)
    requires blk > 0 && c < n && InBlock(k, n * blk, blk, x - c * blk)
    ensures (x / blk) % n == c
  {
    Regroup(k, n, c, blk);
    DivRange(x, blk, k * n + c);
    DivRange(k * n + c, n, k);
  }

  /** The blocks of the whole dimension that belong to coordinate `c`. */
  lemma {:induction false} CyclicOwner(x: nat, blk: nat, n: nat, c: nat)
    requires blk > 0 && c < n
    ensures (x / blk) % n == c <==> InSomeBlock(n * blk, blk, x - c * blk)
  {
    if (x / blk) % n == c {
      OwnerToBlock(x, blk, n, c);
    }
    var (cycle, y) := (n * blk, x - c * blk);
    if k :| InBlock(k, cycle, blk, y) {
      BlockToOwner(x, blk, n, c, k);
    }
  }

  lemma {:induction false} LocalParts(t: nat, cycle: nat, blk: nat)
    requires 0 < blk <= cycle
    ensures var local := Local(t, cycle, blk);
            && local / blk == t / cycle + (if t % cycle < blk then 0 else 1)
            && local % blk == (if t % cycle < blk then t % cycle else 0)
  {
    var (q, r) := (t / cycle, t % cycle);
    var local := q * blk + (if r < blk then r else blk);
    if r < blk {
      DivRange(local, blk, q);
    } else {
      assert local == (q + 1) * blk;
      DivRange(local, blk, q + 1);
    }
  }

  lemma {:induction false} LocalPositive(t: nat, cycle: nat, blk: nat)
    requires t > 0 && cycle > 0 && blk > 0
    ensures Local(t, cycle, blk) > 0
  {
    var q := t / cycle;
    assert t == q * cycle + t % cycle;
    if q > 0 {
      Positive(q, blk);
    }
  }

  /** The code's full and partial blocks are the blocks cut off at the end of the dimension. */
  lemma {:induction false} CutBlocks(t: nat, cycle: nat, blk: nat, count: nat, rem: nat, y: int)
    requires 0 < blk <= cycle
    requires count == t / cycle + (if t % cycle < blk then 0 else 1) && rem == (if t % cycle < blk then t % cycle else 0)
    ensures (exists k :: k < count && InBlock(k, cycle, blk, y)) || count * cycle <= y < count * cycle + rem
            <==> y < t && InSomeBlock(cycle, blk, y)
  {
    var (q, r) := (t / cycle, t % cycle);
    assert t == q * cycle + r;
    if k :| k < count && InBlock(k, cycle, blk, y) {
      if k < q {
        Gap(k, q, cycle);
      }
    }
    if count * cycle <= y < count * cycle + rem {
      assert InBlock(count, cycle, blk, y);
    }
    if y < t {
      if k :| InBlock(k, cycle, blk, y) {
        if k > q {
          Gap(q, k, cycle);
        }
      }
    }
  }

  lemma {:induction false} BlkFits(d: Dim)
    requires DimOk(d)
    ensures d.dist == Cyclic ==> 0 < BlockSize(d) <= d.procs * BlockSize(d)
    ensures d.dist == Block ==> d.size <= d.procs * BlockSize(d)
    ensures BlockSize(d) == 0 ==> d.size == 0
  {
    if d.darg == DFLT_DARG && d.dist == Block {
      var b := BlockSize(d);
      DivRange(d.size + d.procs - 1, d.procs, b);
      assert b * d.procs == d.procs * b;
    } else if d.dist == Cyclic {
      var b := BlockSize(d);
      assert (d.procs - 1) * b >= 0;
      assert d.procs * b == (d.procs - 1) * b + b;
    } else {
      assert d.darg * d.procs == d.procs * d.darg;
    }
  }

  lemma {:induction false} BlockOwned(d: Dim, x: int)
    requires DimOk(d) && d.dist == Block
    ensures x in Owned(d) <==> 0 <= x < d.size && Owner(d, x) == d.coord
    ensures IsBlockSize(d, BlockSize(d))
    ensures x in Owned(d) <==> 0 <= x < d.size && d.coord * BlockSize(d) <= x < d.coord * BlockSize(d) + BlockSize(d)
  {
    BlockSizeIs(d, BlockSize(d));
    var blk := BlockSize(d);
    BlkFits(d);
    PlusMember(Start(d), Relative(d), x);
    UnitRun(MySize(d), 0, x - Start(d));
    if blk > 0 {
      DivRange(x, blk, d.coord);
      assert d.coord * blk == blk * d.coord;
    }
  }

  lemma {:induction false} NoneBelow(cycle: nat, blk: nat, y: int)
    requires y < 0
    ensures !InSomeBlock(cycle, blk, y)
  {
    forall k
      ensures !InBlock(k, cycle, blk, y)
    {
      if k >= 0 {
        assert k * cycle >= 0;
      }
    }
  }

  lemma {:induction false} CyclicEmpty(d: Dim)
    requires DimOk(d) && d.dist == Cyclic && d.size - 1 < d.coord * BlockSize(d)
    ensures Relative(d) == []
  {
    BlkFits(d);
    assert LocalSize(d) == 0 && 0 / BlockSize(d) == 0 && 0 % BlockSize(d) == 0;
    assert Run(0, 0, d.procs * BlockSize(d)) == [];
  }

  lemma {:induction false} CyclicRelative(d: Dim, y: int)
    requires DimOk(d) && d.dist == Cyclic && d.size - 1 >= d.coord * BlockSize(d)
    ensures y in Relative(d) <==> y < d.size - d.coord * BlockSize(d) && InSomeBlock(d.procs * BlockSize(d), BlockSize(d), y)
    ensures LocalSize(d) > 0
  {
    var (blk, cycle, t) := (BlockSize(d), d.procs * BlockSize(d), d.size - d.coord * BlockSize(d));
    BlkFits(d);
    LocalPositive(t, cycle, blk);
    var local := Local(t, cycle, blk);
    assert LocalSize(d) == local;
    assert Relative(d) == Pieces(local / blk, local % blk, cycle, blk);
    PiecesCut(t, cycle, blk, local / blk, local % blk, y);
  }

  lemma {:induction false} PiecesMember(count: nat, rem: nat, cycle: nat, blk: nat, y: int)
    ensures y in Pieces(count, rem, cycle, blk) <==>
            (exists k :: k < count && InBlock(k, cycle, blk, y)) || count * cycle <= y < count * cycle + rem
  {
    CycleMember(count, cycle, blk, y);
    UnitRun(rem, count * cycle, y);
  }

  lemma {:induction false} PiecesCut(t: nat, cycle: nat, blk: nat, count: nat, rem: nat, y: int)
    requires 0 < blk <= cycle && count == Local(t, cycle, blk) / blk && rem == Local(t, cycle, blk) % blk
    ensures y in Pieces(count, rem, cycle, blk) <==> y < t && InSomeBlock(cycle, blk, y)
  {
    LocalParts(t, cycle, blk);
    PiecesMember(count, rem, cycle, blk, y);
    CutBlocks(t, cycle, blk, count, rem, y);
  }

  lemma {:induction false} CyclicOwned(d: Dim, x: int)
    requires DimOk(d) && d.dist == Cyclic
    ensures x in Owned(d) <==> 0 <= x < d.size && Owner(d, x) == d.coord
    ensures IsBlockSize(d, BlockSize(d))
  {
    BlockSizeIs(d, BlockSize(d));
    var blk := BlockSize(d);
    var (cycle, st) := (d.procs * blk, d.coord * blk);
    BlkFits(d);
    PlusMember(Start(d), Relative(d), x);
    if 0 <= x < d.size {
      CyclicOwner(x, blk, d.procs, d.coord);
    }
    if x < st {
      NoneBelow(cycle, blk, x - st);
    }
    if d.size - 1 < st {
      CyclicEmpty(d);
    } else {
      CyclicRelative(d, x - st);
      assert Start(d) == blk * d.coord == st;
    }
  }

  predicate Increasing(xs: seq<int>) {
    forall i, j :: 0 <= i < j < |xs| ==> xs[i] < xs[j]
  }

  predicate Between(xs: seq<int>, lo: int, hi: int) {
    forall i :: 0 <= i < |xs| ==> lo <= xs[i] < hi
  }

  lemma {:induction false} IncreasingConcat(xs: seq<int>, ys: seq<int>, lo: int, mid: int, hi: int)
    requires Increasing(xs) && Increasing(ys) && Between(xs, lo, mid) && Between(ys, mid, hi) && lo <= mid <= hi
    ensures Increasing(xs + ys) && Between(xs + ys, lo, hi)
  {
  }

  lemma {:induction false} UnitRunIncreasing(n: nat, d: int)
    ensures Increasing(Run(n, d, 1)) && Between(Run(n, d, 1), d, d + n)
  {
    forall i | 0 <= i < n
      ensures Run(n, d, 1)[i] == d + i
    {
      RunAt(n, d, 1, i);
    }
  }

  lemma {:induction false} CycleIncreasing(count: nat, d: int, cycle: nat, blk: nat, end: int)
    requires blk <= cycle && end == d + count * cycle
    ensures Increasing(Sums(Run(count, d, cycle), Run(blk, 0, 1)))
    ensures Between(Sums(Run(count, d, cycle), Run(blk, 0, 1)), d, end) && d <= end
    decreases count
  {
    if count > 0 {
      var inner := Run(blk, 0, 1);
      OneLess(count, cycle);
      CycleIncreasing(count - 1, d + cycle, cycle, blk, end);
      PlusRun(d, blk, 0, 1);
      UnitRunIncreasing(blk, d);
      assert Run(count, d, cycle)[0] == d && Run(count, d, cycle)[1..] == Run(count - 1, d + cycle, cycle);
      IncreasingConcat(Plus(d, inner), Sums(Run(count - 1, d + cycle, cycle), inner), d, d + cycle, end);
    }
  }

  lemma {:induction false} PiecesIncreasing(count: nat, rem: nat, cycle: nat, blk: nat)
    requires blk <= cycle
    ensures Increasing(Pieces(count, rem, cycle, blk))
  {
    var end := count * cycle;
    CycleIncreasing(count, 0, cycle, blk, end);
    UnitRunIncreasing(rem, end);
    IncreasingConcat(Sums(Run(count, 0, cycle), Run(blk, 0, 1)), Run(rem, end, 1), 0, end, end + rem);
  }

  lemma {:induction false} PlusIncreasing(d: int, xs: seq<int>)
    requires Increasing(xs)
    ensures Increasing(Plus(d, xs))
  {
  }

  lemma {:induction false} OwnedIncreasing(d: Dim)
    requires DimOk(d)
    ensures Increasing(Owned(d))
  {
    if d.dist == Block {
      UnitRunIncreasing(MySize(d), 0);
    } else {
      BlkFits(d);
      var (blk, local) := (BlockSize(d), LocalSize(d));
      var cycle := d.procs * blk;
      PiecesIncreasing(local / blk, local % blk, cycle, blk);
    }
    PlusIncreasing(Start(d), Relative(d));
  }

  lemma {:induction false} TimesMonotone(a: nat, b: nat, c: nat)
    requires a <= b
    ensures a * c <= b * c
  {
    assert (b - a) * c >= 0;
    Distributes(b - a, a, c);
  }

  lemma {:induction false} DivLess(i: nat, b: nat, n: nat)
    requires b > 0 && i < n * b
    ensures i / b < n
  {
    DivRange(i, b, i / b);
    if n <= i / b {
      TimesMonotone(n, i / b, b);
    }
  }

  lemma {:induction false} OwnerInGrid(d: Dim, i: nat)
    requires DimOk(d) && i < d.size
    ensures Owner(d, i) < d.procs
  {
    BlkFits(d);
    if d.dist == Block {
      DivLess(i, BlockSize(d), d.procs);
    }
  }

  lemma {:induction false} OwnedAt(d: Dim, x: int)
    requires DimOk(d)
    ensures x in Owned(d) <==> 0 <= x < d.size && Owner(d, x) == d.coord
  {
    if d.dist == Block {
      BlockOwned(d, x);
    } else {
      CyclicOwned(d, x);
    }
  }

  lemma {:induction false} OwnedInside(d: Dim)
    requires DimOk(d)
    ensures forall x :: x in Owned(d) ==> 0 <= x < d.size
  {
    forall x | x in Owned(d)
      ensures 0 <= x < d.size
    {
      OwnedAt(d, x);
    }
  }

  lemma {:induction false} OwnedDistinct(d: Dim)
    requires DimOk(d)
    ensures NoRepeats(Owned(d))
  {
    OwnedIncreasing(d);
  }

  /** Each process owns, in increasing order, exactly the indices whose owner it is; so the
      processes of a dimension partition it. */
  lemma {:induction false} OwnedExactly(d: Dim)
    requires DimOk(d)
    ensures forall x :: x in Owned(d) <==> 0 <= x < d.size && Owner(d, x) == d.coord
    ensures NoRepeats(Owned(d))
    ensures forall i :: 0 <= i < d.size ==> 0 <= Owner(d, i) < d.procs
  {
    OwnedDistinct(d);
    forall x
      ensures x in Owned(d) <==> 0 <= x < d.size && Owner(d, x) == d.coord
    {
      OwnedAt(d, x);
    }
    forall i | 0 <= i < d.size
      ensures 0 <= Owner(d, i) < d.procs
    {
      OwnerInGrid(d, i);
    }
  }

  /** With the block length MPI asks for: block number `coord` is owned, or each block of the
      cycles that has this number, and no list is longer than a block has to be. */
  lemma {:induction false} OwnedBlocks(d: Dim, b: nat, x: int)
    requires DimOk(d) && IsBlockSize(d, b)
    ensures d.dist == Block ==> (x in Owned(d) <==> 0 <= x < d.size && d.coord * b <= x < d.coord * b + b)
    ensures d.dist == Block ==> |Owned(d)| <= b
    ensures d.dist == Cyclic ==> (x in Owned(d) <==> 0 <= x < d.size && InSomeBlock(d.procs * b, b, x - d.coord * b))
  {
    BlockSizeIs(d, b);
    if d.dist == Block {
      BlockOwned(d, x);
    } else {
      CyclicOwned(d, x);
      if 0 <= x < d.size {
        CyclicOwner(x, b, d.procs, d.coord);
      }
    }
  }

  // ---------------------------------------------------------------------------
  // Rows of indices in every dimension, and the positions they select
  // ---------------------------------------------------------------------------

  lemma {:induction false} ScaledMember(xs: seq<int>, p: int, u: int)
    ensures u in Scaled(xs, p) <==> exists o :: o in xs && u == o * p
  {
    if i :| 0 <= i < |xs| && Scaled(xs, p)[i] == u {
      assert xs[i] in xs && u == xs[i] * p;
    }
    if o :| o in xs && u == o * p {
      var i :| 0 <= i < |xs| && xs[i] == o;
      assert Scaled(xs, p)[i] == u;
    }
  }

  /** A position splits in one way into a row and a place in the row. */
  lemma {:induction false} RowMember(rows: seq<int>, p: nat, row: seq<int>, x: int)
    requires p > 0 && Between(row, 0, p) && forall o :: o in rows ==> o >= 0
    ensures x in Sums(Scaled(rows, p), row) <==> x >= 0 && x / p in rows && x % p in row
  {
    SumsMember(Scaled(rows, p), row, x);
    if u :| u in Scaled(rows, p) && x - u in row {
      ScaledMember(rows, p, u);
      var o :| o in rows && u == o * p;
      assert o * p >= 0;
      DivRange(x, p, o);
      Remainder(x, p);
    }
    if x >= 0 && x / p in rows && x % p in row {
      Remainder(x, p);
      ScaledMember(rows, p, (x / p) * p);
    }
  }

  lemma {:induction false} EmptyRow(row: seq<int>, p: nat)
    requires Between(row, 0, p)
    ensures row != [] ==> p > 0
  {
    if row != [] {
      assert 0 <= row[0] < p;
    }
  }

  lemma {:induction false} SumsNothing(outer: seq<int>)
    ensures Sums(outer, []) == []
  {
    SumsEmptyInner(outer);
  }

  lemma {:induction false} NoRepeatsConcat<T>(xs: seq<T>, ys: seq<T>)
    requires NoRepeats(xs) && NoRepeats(ys) && forall x :: x in xs ==> x !in ys
    ensures NoRepeats(xs + ys)
  {
    var all := xs + ys;
    forall i, j | 0 <= i < j < |all|
      ensures all[i] != all[j]
    {
      if i < |xs| <= j {
        assert xs[i] in xs && ys[j - |xs|] in ys;
      }
    }
  }

  lemma {:induction false} RowsDistinct(rows: seq<int>, p: nat, row: seq<int>)
    requires NoRepeats(rows) && NoRepeats(row) && Between(row, 0, p)
    ensures NoRepeats(Sums(Scaled(rows, p), row))
  {
    if rows != [] && p > 0 {
      RowsDistinct(rows[1..], p, row);
      assert Scaled(rows, p)[1..] == Scaled(rows[1..], p);
      var (here, later) := (Plus(rows[0] * p, row), Sums(Scaled(rows[1..], p), row));
      forall x | x in here
        ensures x !in later
      {
        PlusMember(rows[0] * p, row, x);
        SumsMember(Scaled(rows[1..], p), row, x);
        if u :| u in Scaled(rows[1..], p) && x - u in row {
          ScaledMember(rows[1..], p, u);
          var o :| o in rows[1..] && u == o * p;
          DigitsUnique(x - rows[0] * p, x - u, p, rows[0], o);
        }
      }
      NoRepeatsConcat(here, later);
    } else if rows != [] {
      EmptyRow(row, p);
      SumsNothing(Scaled(rows, p));
    }
  }

  lemma {:induction false} MembersBetween(xs: seq<int>, hi: int)
    requires forall x :: x in xs ==> 0 <= x < hi
    ensures Between(xs, 0, hi)
  {
    forall i | 0 <= i < |xs|
      ensures 0 <= xs[i] < hi
    {
      assert xs[i] in xs;
    }
  }

  lemma {:induction false} BeyondSpan(x: nat, p: nat, size: nat)
    requires p > 0 && x / p < size
    ensures x < p * size
  {
    Remainder(x, p);
    DigitBound(x % p, p, x / p, size);
  }

  lemma {:induction false} RowsBetween(rows: seq<int>, p: nat, row: seq<int>, size: nat)
    requires Between(row, 0, p) && forall o :: o in rows ==> 0 <= o < size
    ensures Between(Sums(Scaled(rows, p), row), 0, p * size)
  {
    if p == 0 {
      EmptyRow(row, p);
      SumsNothing(Scaled(rows, p));
    } else {
      forall x | x in Sums(Scaled(rows, p), row)
        ensures 0 <= x < p * size
      {
        RowMember(rows, p, row, x);
        BeyondSpan(x, p, size);
      }
      MembersBetween(Sums(Scaled(rows, p), row), p * size);
    }
  }

  /** The positions whose index in every dimension is in that dimension's row, the first
      dimension running fastest. */
  function GridOf(rows: seq<seq<int>>, sizes: seq<nat>, k: nat): seq<int>
    requires k <= |rows| && k <= |sizes|
  {
    if k == 0 then [0] else Sums(Scaled(rows[k - 1], Prod(sizes, k - 1)), GridOf(rows, sizes, k - 1))
  }

  predicate RowsInside(rows: seq<seq<int>>, sizes: seq<nat>) {
    && |rows| == |sizes|
    && forall d, i :: 0 <= d < |rows| && 0 <= i < |rows[d]| ==> 0 <= rows[d][i] < sizes[d]
  }

  /** Digit by digit, `x` is in the rows. */
  predicate InRows(rows: seq<seq<int>>, sizes: seq<nat>, k: nat, x: int)
    requires k <= |rows| && k <= |sizes|
  {
    if k == 0 then x == 0
    else
      var p := Prod(sizes, k - 1);
      p > 0 && x >= 0 && x / p in rows[k - 1] && InRows(rows, sizes, k - 1, x % p)
  }

  lemma {:induction false} RowInside(rows: seq<seq<int>>, sizes: seq<nat>, d: nat)
    requires RowsInside(rows, sizes) && d < |rows|
    ensures forall o :: o in rows[d] ==> 0 <= o < sizes[d]
  {
  }

  lemma {:induction false} GridBetween(rows: seq<seq<int>>, sizes: seq<nat>, k: nat)
    requires RowsInside(rows, sizes) && k <= |rows|
    ensures Between(GridOf(rows, sizes, k), 0, Prod(sizes, k))
  {
    if k > 0 {
      GridBetween(rows, sizes, k - 1);
      RowInside(rows, sizes, k - 1);
      RowsBetween(rows[k - 1], Prod(sizes, k - 1), GridOf(rows, sizes, k - 1), sizes[k - 1]);
    }
  }

  lemma {:induction false} GridMember(rows: seq<seq<int>>, sizes: seq<nat>, k: nat, x: int)
    requires RowsInside(rows, sizes) && k <= |rows|
    ensures x in GridOf(rows, sizes, k) <==> InRows(rows, sizes, k, x)
  {
    if k > 0 {
      var (p, row) := (Prod(sizes, k - 1), GridOf(rows, sizes, k - 1));
      GridBetween(rows, sizes, k - 1);
      if p == 0 {
        EmptyRow(row, p);
        SumsNothing(Scaled(rows[k - 1], p));
      } else {
        RowInside(rows, sizes, k - 1);
        RowMember(rows[k - 1], p, row, x);
        if x >= 0 {
          GridMember(rows, sizes, k - 1, x % p);
        }
      }
    }
  }

  lemma {:induction false} GridDistinct(rows: seq<seq<int>>, sizes: seq<nat>, k: nat)
    requires RowsInside(rows, sizes) && k <= |rows|
    requires forall d :: 0 <= d < |rows| ==> NoRepeats(rows[d])
    ensures NoRepeats(GridOf(rows, sizes, k))
  {
    if k > 0 {
      GridDistinct(rows, sizes, k - 1);
      GridBetween(rows, sizes, k - 1);
      RowsDistinct(rows[k - 1], Prod(sizes, k - 1), GridOf(rows, sizes, k - 1));
    }
  }

  // ---------------------------------------------------------------------------
  // All dimensions of one process
  // ---------------------------------------------------------------------------

  predicate DimsOk(ds: seq<Dim>) {
    forall i :: 0 <= i < |ds| ==> DimOk(ds[i])
  }

  function Sizes(ds: seq<Dim>): (r: seq<nat>)
    ensures |r| == |ds|
  {
    seq(|ds|, i requires 0 <= i < |ds| => ds[i].size)
  }

  function OwnedRows(ds: seq<Dim>): (r: seq<seq<int>>)
    requires DimsOk(ds)
    ensures |r| == |ds|
  {
    seq(|ds|, i requires 0 <= i < |ds| => Owned(ds[i]))
  }

  /** The positions in the global array. */
  function Grid(ds: seq<Dim>): seq<int>
    requires DimsOk(ds)
  {
    GridOf(OwnedRows(ds), Sizes(ds), |ds|)
  }

  /** `f` of every digit of `x`: of each dimension and the index in it. */
  function DigitMap(f: (nat, nat) -> nat, sizes: seq<nat>, k: nat, x: nat): (r: seq<nat>)
    requires k <= |sizes|
    ensures |r| == k
  {
    if k == 0 then []
    else
      var span := Prod(sizes, k - 1);
      if span == 0 then DigitMap(f, sizes, k - 1, 0) + [0]
      else DigitMap(f, sizes, k - 1, x % span) + [f(k - 1, x / span)]
  }

  function OwnerFn(ds: seq<Dim>): (nat, nat) -> nat {
    (d: nat, i: nat) => if d < |ds| && DimOk(ds[d]) then Owner(ds[d], i) else 0
  }

  /** Whose position `x` is, dimension by dimension: the owners of its digits. */
  function DigitOwners(ds: seq<Dim>, x: nat): (r: seq<nat>)
    ensures |r| == |ds|
  {
    DigitMap(OwnerFn(ds), Sizes(ds), |ds|, x)
  }

  lemma {:induction false} DigitOk(span: nat, size: nat, x: nat)
    requires x < span * size
    ensures span > 0 && x / span < size && x % span < span
  {
    assert span > 0;
    assert size * span == span * size;
    DivLess(x, span, size);
  }

  function Coords(ds: seq<Dim>): (r: seq<nat>)
    ensures |r| == |ds|
  {
    seq(|ds|, i requires 0 <= i < |ds| => ds[i].coord)
  }

  lemma {:induction false} LastSplits<T>(a: seq<T>, b: seq<T>, x: T, y: T)
    ensures a + [x] == b + [y] <==> a == b && x == y
  {
    if a + [x] == b + [y] {
      assert a == (a + [x])[..|a|] && b == (b + [y])[..|b|] && |a + [x]| == |b + [y]|;
      assert x == (a + [x])[|a|] && y == (b + [y])[|b|];
    }
  }

  /** A row holds the indices whose `f` is the dimension's coordinate. */
  ghost predicate RowsBy(f: (nat, nat) -> nat, cs: seq<nat>, rows: seq<seq<int>>, sizes: seq<nat>, k: nat) {
    && k <= |rows| && k <= |sizes| && k <= |cs|
    && forall d: nat, i: nat :: d < k && i < sizes[d] ==> (i in rows[d] <==> f(d, i) == cs[d])
  }

  /** Inside the array, lying in the rows is a matter of the digits. */
  lemma {:induction false} RowsAreDigits(f: (nat, nat) -> nat, cs: seq<nat>, rows: seq<seq<int>>, sizes: seq<nat>, k: nat, x: nat)
    requires RowsBy(f, cs, rows, sizes, k) && x < Prod(sizes, k)
    ensures InRows(rows, sizes, k, x) <==> DigitMap(f, sizes, k, x) == cs[..k]
  {
    if k > 0 {
      var p := Prod(sizes, k - 1);
      DigitOk(p, sizes[k - 1], x);
      var (low, high) := (x % p, x / p);
      RowsAreDigits(f, cs, rows, sizes, k - 1, low);
      assert cs[..k] == cs[..k - 1] + [cs[k - 1]];
      LastSplits(DigitMap(f, sizes, k - 1, low), cs[..k - 1], f(k - 1, high), cs[k - 1]);
      assert high in rows[k - 1] <==> f(k - 1, high) == cs[k - 1];
    }
  }

  lemma {:induction false} OwnedRowsOk(ds: seq<Dim>)
    requires DimsOk(ds)
    ensures RowsInside(OwnedRows(ds), Sizes(ds))
    ensures forall d :: 0 <= d < |ds| ==> NoRepeats(OwnedRows(ds)[d])
  {
    var rows := OwnedRows(ds);
    forall d, i | 0 <= d < |rows| && 0 <= i < |rows[d]|
      ensures 0 <= rows[d][i] < Sizes(ds)[d]
    {
      OwnedInside(ds[d]);
      assert Owned(ds[d])[i] in Owned(ds[d]);
    }
    forall d | 0 <= d < |ds|
      ensures NoRepeats(rows[d])
    {
      OwnedDistinct(ds[d]);
    }
  }

  lemma {:induction false} OwnedRowsBy(ds: seq<Dim>)
    requires DimsOk(ds)
    ensures RowsBy(OwnerFn(ds), Coords(ds), OwnedRows(ds), Sizes(ds), |ds|)
  {
    forall d: nat, i: nat | d < |ds| && i < Sizes(ds)[d]
      ensures i in OwnedRows(ds)[d] <==> OwnerFn(ds)(d, i) == Coords(ds)[d]
    {
      OwnedAt(ds[d], i);
    }
  }

  /** A position inside the array belongs to the process exactly when every digit does. */
  lemma {:induction false} GridAt(ds: seq<Dim>, x: nat)
    requires DimsOk(ds) && x < Prod(Sizes(ds), |ds|)
    ensures x in Grid(ds) <==> DigitOwners(ds, x) == Coords(ds)
  {
    OwnedRowsOk(ds);
    GridMember(OwnedRows(ds), Sizes(ds), |ds|, x);
    OwnedRowsBy(ds);
    RowsAreDigits(OwnerFn(ds), Coords(ds), OwnedRows(ds), Sizes(ds), |ds|, x);
    assert Coords(ds)[..|ds|] == Coords(ds);
  }

  /** A process's positions are all different and inside the array. */
  lemma {:induction false} GridInside(ds: seq<Dim>)
    requires DimsOk(ds)
    ensures NoRepeats(Grid(ds)) && Between(Grid(ds), 0, Prod(Sizes(ds), |ds|))
  {
    OwnedRowsOk(ds);
    GridDistinct(OwnedRows(ds), Sizes(ds), |ds|);
    GridBetween(OwnedRows(ds), Sizes(ds), |ds|);
  }

  // ---------------------------------------------------------------------------
  // Ranks and grid coordinates (row-major, in the order of the arguments)
  // ---------------------------------------------------------------------------

  predicate AllPositive(ps: seq<nat>) {
    forall i :: 0 <= i < |ps| ==> ps[i] > 0
  }

  /** The number of processes that the grid dimensions from `i` on hold. */
  function Tail(ps: seq<nat>, i: nat): (r: nat)
    requires i <= |ps| && AllPositive(ps)
    ensures r > 0
    decreases |ps| - i
  {
    if i == |ps| then 1
    else
      Positive(ps[i], Tail(ps, i + 1));
      ps[i] * Tail(ps, i + 1)
  }

  function CoordsOf(ps: seq<nat>, rank: nat, i: nat): (r: seq<nat>)
    requires i <= |ps| && AllPositive(ps)
    ensures |r| == |ps| - i
    decreases |ps| - i
  {
    if i == |ps| then [] else [rank / Tail(ps, i + 1)] + CoordsOf(ps, rank % Tail(ps, i + 1), i + 1)
  }

  predicate InProcessGrid(ps: seq<nat>, cs: seq<nat>, i: nat) {
    i <= |ps| && |cs| == |ps| - i && forall j :: 0 <= j < |cs| ==> cs[j] < ps[i + j]
  }

  function RankOf(ps: seq<nat>, cs: seq<nat>, i: nat): nat
    requires i <= |ps| && AllPositive(ps) && |cs| == |ps| - i
    decreases |ps| - i
  {
    if i == |ps| then 0 else cs[0] * Tail(ps, i + 1) + RankOf(ps, cs[1..], i + 1)
  }

  lemma {:induction false} RankRoundTrip(ps: seq<nat>, rank: nat, i: nat)
    requires i <= |ps| && AllPositive(ps) && rank < Tail(ps, i)
    ensures InProcessGrid(ps, CoordsOf(ps, rank, i), i) && RankOf(ps, CoordsOf(ps, rank, i), i) == rank
    decreases |ps| - i
  {
    if i < |ps| {
      var t := Tail(ps, i + 1);
      DivLess(rank, t, ps[i]);
      Remainder(rank, t);
      RankRoundTrip(ps, rank % t, i + 1);
      var (cs, rest) := (CoordsOf(ps, rank, i), CoordsOf(ps, rank % t, i + 1));
      assert cs[1..] == rest;
      forall j | 0 <= j < |cs|
        ensures cs[j] < ps[i + j]
      {
        if j > 0 {
          assert cs[j] == rest[j - 1];
        }
      }
    }
  }

  lemma {:induction false} DigitParts(c: nat, t: nat, low: nat, p: nat)
    requires low < t && c < p
    ensures c * t + low < p * t && (c * t + low) / t == c && (c * t + low) % t == low
  {
    Gap(c, p, t);
    DivRange(c * t + low, t, c);
    Remainder(c * t + low, t);
  }

  lemma {:induction false} CoordsRoundTrip(ps: seq<nat>, cs: seq<nat>, i: nat)
    requires AllPositive(ps) && InProcessGrid(ps, cs, i)
    ensures RankOf(ps, cs, i) < Tail(ps, i) && CoordsOf(ps, RankOf(ps, cs, i), i) == cs
    decreases |ps| - i
  {
    if i < |ps| {
      var t := Tail(ps, i + 1);
      assert InProcessGrid(ps, cs[1..], i + 1) by {
        assert forall j :: 0 <= j < |cs[1..]| ==> cs[1..][j] == cs[j + 1];
      }
      CoordsRoundTrip(ps, cs[1..], i + 1);
      var (low, rank) := (RankOf(ps, cs[1..], i + 1), RankOf(ps, cs, i));
      DigitParts(cs[0], t, low, ps[i]);
      assert rank / t == cs[0] && rank % t == low;
      assert cs == [cs[0]] + cs[1..];
    }
  }

  lemma {:induction false} RankFrom(ps: seq<nat>, cs: seq<nat>, i: nat)
    requires AllPositive(ps) && |cs| == |ps| && i <= |ps|
    ensures RowMajor(ps, cs) == RowMajor(ps[..i], cs[..i]) * Tail(ps, i) + RankOf(ps, cs[i..], i)
    decreases |ps| - i
  {
    if i < |ps| {
      RankFrom(ps, cs, i + 1);
      assert ps[..i + 1][..i] == ps[..i] && cs[..i + 1][..i] == cs[..i] && cs[i..][1..] == cs[i + 1..];
      OneDigit(RowMajor(ps[..i], cs[..i]), ps[i], cs[i], Tail(ps, i + 1), RankOf(ps, cs[i + 1..], i + 1));
    } else {
      assert ps[..i] == ps && cs[..i] == cs && RankOf(ps, cs[i..], i) == 0;
    }
  }

  lemma {:induction false} OneDigit(high: int, p: nat, c: nat, t: nat, low: nat)
    ensures (high * p + c) * t + low == high * (p * t) + (c * t + low)
  {
  }

  /** Ranks are numbered row by row. */
  lemma {:induction false} RankIsRowMajor(ps: seq<nat>, cs: seq<nat>)
    requires AllPositive(ps) && |cs| == |ps|
    ensures RankOf(ps, cs, 0) == RowMajor(ps, cs)
  {
    RankFrom(ps, cs, 0);
    assert ps[..0] == [] && cs[..0] == [] && cs[0..] == cs;
    assert RowMajor(ps[..0], cs[..0]) == 0;
  }

  /** ompi_datatype_create_darray.c, lines 186 to 195: the coordinates of a rank. With the two round trips, ranks and
      coordinates are in one-to-one correspondence. */
  method GridCoords(size: nat, rank: nat, ps: seq<nat>) returns (cs: seq<nat>)
    requires AllPositive(ps) && size == Tail(ps, 0) && rank < size
    ensures cs == CoordsOf(ps, rank, 0)
    ensures InProcessGrid(ps, cs, 0) && RankOf(ps, cs, 0) == rank == RowMajor(ps, cs)
  {
    var tmp, procs := rank, size;
    cs := [];
    for i := 0 to |ps|
      invariant procs == Tail(ps, i) && cs + CoordsOf(ps, tmp, i) == CoordsOf(ps, rank, 0)
    {
      ghost var before := cs;
      QuotientOf(ps[i], Tail(ps, i + 1));
      procs := procs / ps[i];
      cs := cs + [tmp / procs];
      Associates(before, [tmp / procs], CoordsOf(ps, tmp % procs, i + 1));
      tmp := tmp % procs;
    }
    assert cs + [] == cs;
    RankRoundTrip(ps, rank, 0);
    RankIsRowMajor(ps, cs);
  }

  lemma {:induction false} QuotientOf(a: nat, b: nat)
    requires a > 0
    ensures (a * b) / a == b
  {
    DivRange(a * b, a, b);
    assert b * a == a * b;
  }

  // ---------------------------------------------------------------------------
  // The arguments, and the partition
  // ---------------------------------------------------------------------------

  datatype Kind = DistributeBlock | DistributeCyclic | DistributeNone

  datatype Args = Args(gsizes: seq<nat>, kinds: seq<Kind>, dargs: seq<int>, psizes: seq<nat>, order: Order)

  /** What MPI demands of the arguments (section 4.1.4 of MPI-3.0); a dimension that is not
      distributed has one process. */
  predicate ArgsOk(a: Args) {
    && |a.gsizes| == |a.kinds| == |a.dargs| == |a.psizes| && AllPositive(a.psizes)
    && forall i :: 0 <= i < |a.gsizes| ==>
         && (a.dargs[i] == DFLT_DARG || a.dargs[i] > 0)
         && (a.kinds[i] == DistributeNone ==> a.psizes[i] == 1)
         && (a.kinds[i] == DistributeBlock && a.dargs[i] != DFLT_DARG ==> a.dargs[i] * a.psizes[i] >= a.gsizes[i])
  }

  /** One dimension in argument order, as the switch in the loop treats it. */
  function DimAt(a: Args, cs: seq<nat>, i: nat): (d: Dim)
    requires ArgsOk(a) && InProcessGrid(a.psizes, cs, 0) && i < |a.gsizes|
    ensures DimOk(d) && d.size == a.gsizes[i] && d.coord == cs[i] && d.procs == a.psizes[i]
  {
    assert cs[i] < a.psizes[0 + i];
    match a.kinds[i]
    case DistributeBlock => Dim(a.gsizes[i], Block, a.dargs[i], a.psizes[i], cs[i])
    case DistributeCyclic => Dim(a.gsizes[i], Cyclic, a.dargs[i], a.psizes[i], cs[i])
    case DistributeNone =>
      if a.order == Order.C then Dim(a.gsizes[i], Block, DFLT_DARG, a.psizes[i], cs[i])
      else Dim(a.gsizes[i], Block, DFLT_DARG, 1, 0)
  }

  function DimsOf(a: Args, cs: seq<nat>): (ds: seq<Dim>)
    requires ArgsOk(a) && InProcessGrid(a.psizes, cs, 0)
    ensures |ds| == |a.gsizes| && DimsOk(ds)
  {
    var n := |a.gsizes|;
    seq(n, p requires 0 <= p < n => DimAt(a, cs, At(n, a.order, p)))
  }

  /** The positions of the elements a process owns, in the order its datatype lists them. */
  function PositionsOf(a: Args, rank: nat): seq<int>
    requires ArgsOk(a) && rank < Tail(a.psizes, 0)
  {
    RankRoundTrip(a.psizes, rank, 0);
    Grid(DimsOf(a, CoordsOf(a.psizes, rank, 0)))
  }

  lemma {:induction false} SameDigits(f: (nat, nat) -> nat, g: (nat, nat) -> nat, sizes: seq<nat>, k: nat, x: nat)
    requires k <= |sizes| && forall d: nat, i: nat :: d < k ==> f(d, i) == g(d, i)
    ensures DigitMap(f, sizes, k, x) == DigitMap(g, sizes, k, x)
  {
    if k > 0 {
      var span := Prod(sizes, k - 1);
      SameDigits(f, g, sizes, k - 1, if span == 0 then 0 else x % span);
    }
  }

  /** Owners do not depend on who asks. */
  lemma {:induction false} SameOwners(ds: seq<Dim>, es: seq<Dim>, x: nat)
    requires DimsOk(ds) && DimsOk(es) && |ds| == |es| && Sizes(ds) == Sizes(es)
    requires forall p :: 0 <= p < |ds| ==> es[p] == ds[p].(coord := es[p].coord)
    ensures DigitOwners(ds, x) == DigitOwners(es, x)
  {
    forall d: nat, i: nat | d < |ds|
      ensures OwnerFn(ds)(d, i) == OwnerFn(es)(d, i)
    {
      assert BlockSize(ds[d]) == BlockSize(es[d]);
    }
    SameDigits(OwnerFn(ds), OwnerFn(es), Sizes(ds), |ds|, x);
  }

  lemma {:induction false} DigitsBounded(f: (nat, nat) -> nat, sizes: seq<nat>, bounds: seq<nat>, k: nat, x: nat)
    requires k <= |sizes| && k <= |bounds| && x < Prod(sizes, k)
    requires forall d: nat, i: nat :: d < k && i < sizes[d] ==> f(d, i) < bounds[d]
    ensures forall p :: 0 <= p < k ==> DigitMap(f, sizes, k, x)[p] < bounds[p]
  {
    if k > 0 {
      var span := Prod(sizes, k - 1);
      DigitOk(span, sizes[k - 1], x);
      DigitsBounded(f, sizes, bounds, k - 1, x % span);
      assert f(k - 1, x / span) < bounds[k - 1];
    }
  }

  lemma {:induction false} OwnersInGrid(ds: seq<Dim>, x: nat)
    requires DimsOk(ds) && x < Prod(Sizes(ds), |ds|)
    ensures forall p :: 0 <= p < |ds| ==> DigitOwners(ds, x)[p] < ds[p].procs
  {
    var bounds := seq(|ds|, i requires 0 <= i < |ds| => ds[i].procs);
    forall d: nat, i: nat | d < |ds| && i < Sizes(ds)[d]
      ensures OwnerFn(ds)(d, i) < bounds[d]
    {
      OwnerInGrid(ds[d], i);
    }
    DigitsBounded(OwnerFn(ds), Sizes(ds), bounds, |ds|, x);
  }

  /** The coordinates in argument order and from the fastest dimension are each other's mirror. */
  lemma {:induction false} Reversal(a: Args, mine: seq<nat>, digits: seq<nat>)
    requires ArgsOk(a) && InProcessGrid(a.psizes, mine, 0) && |digits| == |a.gsizes|
    ensures Coords(DimsOf(a, mine)) == digits <==> mine == FastFirst(digits, a.order)
  {
    var (n, cs, ds) := (|a.gsizes|, FastFirst(digits, a.order), DimsOf(a, mine));
    var coords := Coords(ds);
    forall p | 0 <= p < n
      ensures coords[p] == mine[At(n, a.order, p)] && cs[At(n, a.order, p)] == digits[p]
    {
      assert ds[p] == DimAt(a, mine, At(n, a.order, p));
    }
    if mine == cs {
      assert coords == digits;
    }
    if coords == digits {
      forall j | 0 <= j < n
        ensures mine[j] == cs[j]
      {
        var p := At(n, a.order, j);
        assert coords[p] == mine[At(n, a.order, p)] && At(n, a.order, p) == j;
      }
    }
  }

  /** The number of elements of the global array. */
  function GlobalSize(a: Args): nat {
    Prod(FastFirst(a.gsizes, a.order), |a.gsizes|)
  }

  lemma {:induction false} SizesOfDims(a: Args, cs: seq<nat>)
    requires ArgsOk(a) && InProcessGrid(a.psizes, cs, 0)
    ensures Sizes(DimsOf(a, cs)) == FastFirst(a.gsizes, a.order)
  {
    var (n, ds) := (|a.gsizes|, DimsOf(a, cs));
    forall p | 0 <= p < n
      ensures Sizes(ds)[p] == FastFirst(a.gsizes, a.order)[p]
    {
      assert ds[p] == DimAt(a, cs, At(n, a.order, p));
    }
  }

  /** The owners of the digits of `x`, from the fastest dimension. */
  function OwnersOf(a: Args, x: nat): (r: seq<nat>)
    requires ArgsOk(a)
    ensures |r| == |a.gsizes|
  {
    RankRoundTrip(a.psizes, 0, 0);
    DigitOwners(DimsOf(a, CoordsOf(a.psizes, 0, 0)), x)
  }

  lemma {:induction false} SameDims(a: Args, cs: seq<nat>, es: seq<nat>, x: nat)
    requires ArgsOk(a) && InProcessGrid(a.psizes, cs, 0) && InProcessGrid(a.psizes, es, 0)
    ensures DigitOwners(DimsOf(a, cs), x) == DigitOwners(DimsOf(a, es), x)
  {
    SizesOfDims(a, cs);
    SizesOfDims(a, es);
    var (ds, fs, n) := (DimsOf(a, cs), DimsOf(a, es), |a.gsizes|);
    forall p | 0 <= p < n
      ensures fs[p] == ds[p].(coord := fs[p].coord)
    {
      assert ds[p] == DimAt(a, cs, At(n, a.order, p)) && fs[p] == DimAt(a, es, At(n, a.order, p));
    }
    SameOwners(ds, fs, x);
  }

  lemma {:induction false} OwnsByDigits(a: Args, x: nat, rank: nat)
    requires ArgsOk(a) && x < GlobalSize(a) && rank < Tail(a.psizes, 0)
    ensures x in PositionsOf(a, rank) <==> CoordsOf(a.psizes, rank, 0) == FastFirst(OwnersOf(a, x), a.order)
  {
    RankRoundTrip(a.psizes, 0, 0);
    RankRoundTrip(a.psizes, rank, 0);
    var mine := CoordsOf(a.psizes, rank, 0);
    SizesOfDims(a, mine);
    GridAt(DimsOf(a, mine), x);
    SameDims(a, CoordsOf(a.psizes, 0, 0), mine, x);
    Reversal(a, mine, OwnersOf(a, x));
  }

  lemma {:induction false} OwnersAreCoords(a: Args, x: nat)
    requires ArgsOk(a) && x < GlobalSize(a)
    ensures InProcessGrid(a.psizes, FastFirst(OwnersOf(a, x), a.order), 0)
  {
    var n := |a.gsizes|;
    RankRoundTrip(a.psizes, 0, 0);
    var zero := DimsOf(a, CoordsOf(a.psizes, 0, 0));
    SizesOfDims(a, CoordsOf(a.psizes, 0, 0));
    OwnersInGrid(zero, x);
    var cs := FastFirst(OwnersOf(a, x), a.order);
    forall j | 0 <= j < n
      ensures cs[j] < a.psizes[0 + j]
    {
      var p := At(n, a.order, j);
      assert cs[j] == OwnersOf(a, x)[p] && zero[p].procs == a.psizes[j];
    }
  }

  /** The ranks partition the global array: every position belongs to exactly one of them, and
      to that one once. */
  lemma {:induction false} Partition(a: Args, x: nat) returns (owner: nat)
    requires ArgsOk(a) && x < GlobalSize(a)
    ensures owner < Tail(a.psizes, 0) && NoRepeats(PositionsOf(a, owner))
    ensures forall rank :: 0 <= rank < Tail(a.psizes, 0) ==> (x in PositionsOf(a, rank) <==> rank == owner)
  {
    OwnersAreCoords(a, x);
    var cs := FastFirst(OwnersOf(a, x), a.order);
    CoordsRoundTrip(a.psizes, cs, 0);
    owner := RankOf(a.psizes, cs, 0);
    RankRoundTrip(a.psizes, owner, 0);
    GridInside(DimsOf(a, CoordsOf(a.psizes, owner, 0)));
    forall rank: nat | rank < Tail(a.psizes, 0)
      ensures x in PositionsOf(a, rank) <==> rank == owner
    {
      OwnsByDigits(a, x, rank);
      RankRoundTrip(a.psizes, rank, 0);
    }
  }

  /** Nothing outside the global array is in any rank's list. */
  lemma {:induction false} PositionsInside(a: Args, rank: nat)
    requires ArgsOk(a) && rank < Tail(a.psizes, 0)
    ensures forall x :: x in PositionsOf(a, rank) ==> 0 <= x < GlobalSize(a)
  {
    RankRoundTrip(a.psizes, rank, 0);
    var mine := CoordsOf(a.psizes, rank, 0);
    GridInside(DimsOf(a, mine));
    SizesOfDims(a, mine);
    forall x | x in PositionsOf(a, rank)
      ensures 0 <= x < GlobalSize(a)
    {
      var i :| 0 <= i < |PositionsOf(a, rank)| && PositionsOf(a, rank)[i] == x;
    }
  }
}
