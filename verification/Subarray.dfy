/** Multi-dimensional boxes of a linear array, and the subarray constructor. Dimensions are
    numbered from the fastest running one. */
module Subarray {
  import opened TypeMap
  import opened Constructors

  /** The number of elements the first `k` dimensions span. */
  function Prod(sizes: seq<nat>, k: nat): nat
    requires k <= |sizes|
  {
    if k == 0 then 1 else Prod(sizes, k - 1) * sizes[k - 1]
  }

  predicate Dims(sizes: seq<nat>, subs: seq<nat>, starts: seq<int>, k: nat) {
    k <= |sizes| && k <= |subs| && k <= |starts|
  }

  // ---------------------------------------------------------------------------
  // The reference: multi-indices of the box, and where each lies in the array
  // ---------------------------------------------------------------------------

  /** A multi-index has one coordinate a dimension. */
  type Index = seq<nat>

  function WithLast(vs: seq<Index>, j: nat): (r: seq<Index>)
    ensures |r| == |vs|
  {
    seq(|vs|, i requires 0 <= i < |vs| => vs[i] + [j])
  }

  /** The indices of the first `k` dimensions with a last coordinate from `from` on. */
  function IndicesFrom(subs: seq<nat>, k: nat, from: nat): seq<Index>
    requires 0 < k <= |subs| && from <= subs[k - 1]
    decreases k, 0, subs[k - 1] - from
  {
    if from == subs[k - 1] then []
    else WithLast(Indices(subs, k - 1), from) + IndicesFrom(subs, k, from + 1)
  }

  /** All multi-indices of the box, the first coordinate running fastest. */
  function Indices(subs: seq<nat>, k: nat): seq<Index>
    requires k <= |subs|
    decreases k, 1
  {
    if k == 0 then [[]] else IndicesFrom(subs, k, 0)
  }

  predicate InBox(v: Index, subs: seq<nat>, k: nat)
    requires k <= |subs|
  {
    |v| == k && forall i :: 0 <= i < k ==> v[i] < subs[i]
  }

  /** The position of the element at `starts + v` in the linear array. */
  function Linear(sizes: seq<nat>, starts: seq<int>, v: Index, k: nat): int
    requires k <= |sizes| && k <= |starts| && k <= |v|
  {
    if k == 0 then 0 else Linear(sizes, starts, v, k - 1) + (starts[k - 1] + v[k - 1]) * Prod(sizes, k - 1)
  }

  ghost predicate NoRepeats<T>(xs: seq<T>) {
    forall i, j :: 0 <= i < j < |xs| ==> xs[i] != xs[j]
  }

  lemma {:induction false} IndicesFromExactly(subs: seq<nat>, k: nat, from: nat)
    requires 0 < k <= |subs| && from <= subs[k - 1]
    ensures forall v :: v in IndicesFrom(subs, k, from) <==> InBox(v, subs, k) && v[k - 1] >= from
    ensures NoRepeats(IndicesFrom(subs, k, from))
    decreases k, 0, subs[k - 1] - from
  {
    if from < subs[k - 1] {
      IndicesExactly(subs, k - 1);
      IndicesFromExactly(subs, k, from + 1);
      var (inner, here, later) := (Indices(subs, k - 1), WithLast(Indices(subs, k - 1), from), IndicesFrom(subs, k, from + 1));
      forall v
        ensures v in here <==> InBox(v, subs, k) && v[k - 1] == from
      {
        if v in here {
          var i :| 0 <= i < |here| && here[i] == v;
          assert inner[i] in inner && v == inner[i] + [from];
        }
        if InBox(v, subs, k) && v[k - 1] == from {
          assert InBox(v[..k - 1], subs, k - 1);
          var i :| 0 <= i < |inner| && inner[i] == v[..k - 1];
          assert here[i] == v[..k - 1] + [from] == v;
        }
      }
      var all: seq<Index> := here + later;
      forall i, j | 0 <= i < j < |all|
        ensures all[i] != all[j]
      {
        if j < |here| {
          assert inner[i] in inner && inner[j] in inner;
          assert here[i][..k - 1] == inner[i] && here[j][..k - 1] == inner[j];
        } else if i < |here| {
          assert here[i] in here && later[j - |here|] in later;
        }
      }
    }
  }

  /** Every multi-index of the box occurs, exactly once. */
  lemma {:induction false} IndicesExactly(subs: seq<nat>, k: nat)
    requires k <= |subs|
    ensures forall v :: v in Indices(subs, k) <==> InBox(v, subs, k)
    ensures NoRepeats(Indices(subs, k))
    decreases k, 1
  {
    if k > 0 {
      IndicesFromExactly(subs, k, 0);
    }
  }

  predicate Inside(sizes: seq<nat>, subs: seq<nat>, starts: seq<int>, k: nat)
    requires Dims(sizes, subs, starts, k)
  {
    forall i :: 0 <= i < k ==> 0 <= starts[i] && starts[i] + subs[i] <= sizes[i]
  }

  lemma {:induction false} Gap(x: int, y: int, p: nat)
    requires x < y
    ensures x * p + p <= y * p
  {
    assert (y - x - 1) * p >= 0;
    assert (y - x - 1) * p == y * p - x * p - p;
  }

  lemma {:induction false} DigitBound(low: int, p: nat, digit: int, size: nat)
    requires 0 <= low < p && 0 <= digit < size
    ensures 0 <= low + digit * p < p * size
  {
    Gap(digit, size, p);
  }

  lemma {:induction false} DigitsUnique(a: int, b: int, p: nat, x: int, y: int)
    requires 0 <= a < p && 0 <= b < p && a + x * p == b + y * p
    ensures a == b && x == y
  {
    if x < y {
      Gap(x, y, p);
    } else if x > y {
      Gap(y, x, p);
    }
  }

  predicate Below(v: Index, subs: seq<nat>, k: nat) {
    k <= |v| && k <= |subs| && forall i :: 0 <= i < k ==> v[i] < subs[i]
  }

  lemma {:induction false} LinearRange(sizes: seq<nat>, subs: seq<nat>, starts: seq<int>, v: Index, k: nat)
    requires Dims(sizes, subs, starts, k) && Inside(sizes, subs, starts, k) && Below(v, subs, k)
    ensures 0 <= Linear(sizes, starts, v, k) < Prod(sizes, k)
  {
    if k > 0 {
      LinearRange(sizes, subs, starts, v, k - 1);
      DigitBound(Linear(sizes, starts, v, k - 1), Prod(sizes, k - 1), starts[k - 1] + v[k - 1], sizes[k - 1]);
    }
  }

  /** Inside the array, different multi-indices have different positions. */
  lemma {:induction false} LinearInjective(sizes: seq<nat>, subs: seq<nat>, starts: seq<int>, v: Index, w: Index, k: nat)
    requires Dims(sizes, subs, starts, k) && Inside(sizes, subs, starts, k) && Below(v, subs, k) && Below(w, subs, k)
    requires Linear(sizes, starts, v, k) == Linear(sizes, starts, w, k)
    ensures v[..k] == w[..k]
  {
    if k > 0 {
      LinearRange(sizes, subs, starts, v, k - 1);
      LinearRange(sizes, subs, starts, w, k - 1);
      DigitsUnique(Linear(sizes, starts, v, k - 1), Linear(sizes, starts, w, k - 1), Prod(sizes, k - 1),
                   starts[k - 1] + v[k - 1], starts[k - 1] + w[k - 1]);
      LinearInjective(sizes, subs, starts, v, w, k - 1);
      assert v[..k] == v[..k - 1] + [v[k - 1]] && w[..k] == w[..k - 1] + [w[k - 1]];
    }
  }

  function Positions(sizes: seq<nat>, starts: seq<int>, vs: seq<Index>, k: nat): (r: seq<int>)
    requires k <= |sizes| && k <= |starts| && forall i :: 0 <= i < |vs| ==> k <= |vs[i]|
    ensures |r| == |vs|
  {
    seq(|vs|, i requires 0 <= i < |vs| => Linear(sizes, starts, vs[i], k))
  }

  // ---------------------------------------------------------------------------
  // The same list, built one dimension at a time
  // ---------------------------------------------------------------------------

  /** Displacements relative to the first element of the box. */
  function Rel(sizes: seq<nat>, subs: seq<nat>, e: int, k: nat): seq<int>
    requires k <= |sizes| && k <= |subs|
  {
    if k == 0 then [0] else Sums(Run(subs[k - 1], 0, Prod(sizes, k - 1) * e), Rel(sizes, subs, e, k - 1))
  }

  /** The position of the first element of the box. */
  function Origin(sizes: seq<nat>, starts: seq<int>, k: nat): int
    requires k <= |sizes| && k <= |starts|
  {
    if k == 0 then 0 else Origin(sizes, starts, k - 1) + starts[k - 1] * Prod(sizes, k - 1)
  }

  lemma {:induction false} PlusConcat(d: int, a: seq<int>, b: seq<int>)
    ensures Plus(d, a + b) == Plus(d, a) + Plus(d, b)
  {
  }

  lemma {:induction false} PlusPlus(a: int, b: int, xs: seq<int>)
    ensures Plus(a, Plus(b, xs)) == Plus(a + b, xs)
  {
  }

  lemma {:induction false} PlusSums(d: int, outer: seq<int>, inner: seq<int>)
    ensures Plus(d, Sums(outer, inner)) == Sums(outer, Plus(d, inner))
  {
    if outer != [] {
      PlusSums(d, outer[1..], inner);
      PlusConcat(d, Plus(outer[0], inner), Sums(outer[1..], inner));
      PlusPlus(d, outer[0], inner);
      PlusPlus(outer[0], d, inner);
    }
  }

  /** All indices have a length, so positions are defined. */
  lemma {:induction false} IndicesLength(subs: seq<nat>, k: nat)
    requires k <= |subs|
    ensures forall i :: 0 <= i < |Indices(subs, k)| ==> |Indices(subs, k)[i]| == k
  {
    IndicesExactly(subs, k);
    forall i | 0 <= i < |Indices(subs, k)|
      ensures |Indices(subs, k)[i]| == k
    {
      assert Indices(subs, k)[i] in Indices(subs, k);
    }
  }

  lemma {:induction false} IndicesFromLength(subs: seq<nat>, k: nat, from: nat)
    requires 0 < k <= |subs| && from <= subs[k - 1]
    ensures forall i :: 0 <= i < |IndicesFrom(subs, k, from)| ==> |IndicesFrom(subs, k, from)[i]| == k
  {
    IndicesFromExactly(subs, k, from);
    forall i | 0 <= i < |IndicesFrom(subs, k, from)|
      ensures |IndicesFrom(subs, k, from)[i]| == k
    {
      assert IndicesFrom(subs, k, from)[i] in IndicesFrom(subs, k, from);
    }
  }

  /** The positions of the box in the order of its multi-indices. */
  function BoxPositions(sizes: seq<nat>, subs: seq<nat>, starts: seq<int>, k: nat): seq<int>
    requires Dims(sizes, subs, starts, k)
  {
    IndicesLength(subs, k);
    Positions(sizes, starts, Indices(subs, k), k)
  }

  lemma {:induction false} LinearPrefix(sizes: seq<nat>, starts: seq<int>, v: Index, j: nat, k: nat)
    requires k <= |sizes| && k <= |starts| && k <= |v|
    ensures Linear(sizes, starts, v + [j], k) == Linear(sizes, starts, v, k)
  {
    if k > 0 {
      LinearPrefix(sizes, starts, v, j, k - 1);
    }
  }

  lemma {:induction false} ScaledConcat(a: seq<int>, b: seq<int>, e: int)
    ensures Scaled(a + b, e) == Scaled(a, e) + Scaled(b, e)
  {
  }

  lemma {:induction false} PositionsConcat(sizes: seq<nat>, starts: seq<int>, a: seq<Index>, b: seq<Index>, k: nat)
    requires k <= |sizes| && k <= |starts|
    requires forall i :: 0 <= i < |a| ==> k <= |a[i]|
    requires forall i :: 0 <= i < |b| ==> k <= |b[i]|
    ensures Positions(sizes, starts, a + b, k) == Positions(sizes, starts, a, k) + Positions(sizes, starts, b, k)
  {
  }

  /** Fixing the last coordinate shifts the positions of the inner box. */
  lemma {:induction false} PositionsWithLast(sizes: seq<nat>, subs: seq<nat>, starts: seq<int>, k: nat, j: nat, e: int)
    requires k > 0 && Dims(sizes, subs, starts, k)
    ensures var here := WithLast(Indices(subs, k - 1), j);
            && (forall i :: 0 <= i < |here| ==> |here[i]| == k)
            && Scaled(Positions(sizes, starts, here, k), e) ==
               Plus((starts[k - 1] + j) * (Prod(sizes, k - 1) * e), Scaled(BoxPositions(sizes, subs, starts, k - 1), e))
  {
    IndicesLength(subs, k - 1);
    var inner := Indices(subs, k - 1);
    var here := WithLast(inner, j);
    var (left, right) := (Scaled(Positions(sizes, starts, here, k), e),
                          Plus((starts[k - 1] + j) * (Prod(sizes, k - 1) * e), Scaled(BoxPositions(sizes, subs, starts, k - 1), e)));
    forall i | 0 <= i < |here|
      ensures left[i] == right[i]
    {
      LinearPrefix(sizes, starts, inner[i], j, k - 1);
      Distribute3(Linear(sizes, starts, inner[i], k - 1), starts[k - 1] + j, Prod(sizes, k - 1), e);
    }
  }

  lemma {:induction false} Distribute3(a: int, b: int, c: int, e: int)
    ensures (a + b * c) * e == b * (c * e) + a * e
  {
  }

  lemma {:induction false} PositionsFrom(sizes: seq<nat>, subs: seq<nat>, starts: seq<int>, k: nat, from: nat, e: int)
    requires k > 0 && Dims(sizes, subs, starts, k) && from <= subs[k - 1]
    ensures (forall i :: 0 <= i < |IndicesFrom(subs, k, from)| ==> |IndicesFrom(subs, k, from)[i]| == k)
    ensures Scaled(Positions(sizes, starts, IndicesFrom(subs, k, from), k), e) ==
            Sums(Run(subs[k - 1] - from, (starts[k - 1] + from) * (Prod(sizes, k - 1) * e), Prod(sizes, k - 1) * e),
                 Scaled(BoxPositions(sizes, subs, starts, k - 1), e))
    decreases subs[k - 1] - from
  {
    IndicesFromLength(subs, k, from);
    if from < subs[k - 1] {
      PositionsFrom(sizes, subs, starts, k, from + 1, e);
      PositionsWithLast(sizes, subs, starts, k, from, e);
      var (here, later) := (WithLast(Indices(subs, k - 1), from), IndicesFrom(subs, k, from + 1));
      PositionsConcat(sizes, starts, here, later, k);
      ScaledConcat(Positions(sizes, starts, here, k), Positions(sizes, starts, later, k), e);
      var (d, s) := ((starts[k - 1] + from) * (Prod(sizes, k - 1) * e), Prod(sizes, k - 1) * e);
      assert (starts[k - 1] + from + 1) * s == d + s;
      assert Run(subs[k - 1] - from, d, s)[1..] == Run(subs[k - 1] - from - 1, d + s, s);
    }
  }

  lemma {:induction false} SumsPlus(d: int, outer: seq<int>, inner: seq<int>)
    ensures Sums(Plus(d, outer), inner) == Plus(d, Sums(outer, inner))
  {
    if outer != [] {
      SumsPlus(d, outer[1..], inner);
      assert Plus(d, outer)[1..] == Plus(d, outer[1..]);
      PlusConcat(d, Plus(outer[0], inner), Sums(outer[1..], inner));
      PlusPlus(d, outer[0], inner);
    }
  }

  /** Built one dimension at a time and moved to the first element, the list is the positions
      of the box, in order. */
  lemma {:induction false} RelIsBox(sizes: seq<nat>, subs: seq<nat>, starts: seq<int>, e: int, k: nat)
    requires Dims(sizes, subs, starts, k)
    ensures Plus(Origin(sizes, starts, k) * e, Rel(sizes, subs, e, k)) == Scaled(BoxPositions(sizes, subs, starts, k), e)
  {
    if k == 0 {
      assert Indices(subs, 0) == [[]];
      assert Scaled(BoxPositions(sizes, subs, starts, 0), e) == [0];
    } else {
      RelIsBox(sizes, subs, starts, e, k - 1);
      PositionsFrom(sizes, subs, starts, k, 0, e);
      var s := Prod(sizes, k - 1) * e;
      var (n, d, o) := (subs[k - 1], starts[k - 1] * s, Origin(sizes, starts, k - 1) * e);
      var rel := Rel(sizes, subs, e, k - 1);
      PlusSums(o, Run(n, d, s), rel);
      PlusRun(d, n, 0, s);
      SumsPlus(d, Run(n, 0, s), rel);
      PlusPlus(o, d, Sums(Run(n, 0, s), rel));
      assert Origin(sizes, starts, k) * e == o + d by {
        Distribute3(Origin(sizes, starts, k - 1), starts[k - 1], Prod(sizes, k - 1), e);
      }
    }
  }

  // ---------------------------------------------------------------------------
  // The constructor
  // ---------------------------------------------------------------------------

  const DATATYPE_NULL := DT(Plain, [], 0, 0, false, false, 1)

  /** A struct of a lower mark at 0, `last` at `disp` and an upper mark at `top`: the elements
      move, and the bounds are the marks unless the type brings marks of its own. */
  lemma {:induction false} Framed(lens: seq<nat>, disps: seq<int>, types: seq<nat>, table: seq<DT>, last: DT, disp: int, top: int, r: DT)
    requires lens == [1, 1, 1] && disps == [0, disp, top] && types == [0, 1, 2] && table == [MPI_LB, last, MPI_UB]
    requires Ok(last) && last.kind == Plain && StructArgs(lens, disps, types, table) && r == AddEach(lens, disps, types, table, 3)
    ensures r.elems == Shift(last.elems, disp)
    ensures !last.userLb ==> r.lb == 0
    ensures !last.userUb ==> r.ub == top
    ensures r.userLb && r.userUb
  {
    EachOfThree(lens, disps, types, table, MPI_LB, last, MPI_UB);
    FramedBy(last, disp, top);
  }

  lemma {:induction false} FramedBy(last: DT, disp: int, top: int)
    requires Ok(last) && last.kind == Plain
    ensures var r := Add(Add(Add(FRESH, MPI_LB, 1, 0, Extent(MPI_LB)), last, 1, disp, Extent(last)), MPI_UB, 1, top, Extent(MPI_UB));
            && r.elems == Shift(last.elems, disp) && r.userLb && r.userUb
            && (!last.userLb ==> r.lb == 0) && (!last.userUb ==> r.ub == top)
  {
    var first := Add(FRESH, MPI_LB, 1, 0, Extent(MPI_LB));
    assert first == FRESH.(lb := 0, userLb := true);
    assert Run(1, disp, Extent(last)) == [disp];
    PlaceOne(last.elems, disp);
    assert Add(first, last, 1, disp, Extent(last)).elems == [] + Shift(last.elems, disp);
  }

  method Frame(last: DT, disp: int, top: int) returns (r: DT)
    requires Ok(last) && last.kind == Plain
    ensures Ok(r) && r.kind == Plain && r.elems == Shift(last.elems, disp)
    ensures !last.userLb ==> r.lb == 0
    ensures !last.userUb ==> r.ub == top
  {
    var lens: seq<nat>, disps, types: seq<nat>, table := [1, 1, 1], [0, disp, top], [0, 1, 2], [MPI_LB, last, MPI_UB];
    r := CreateStruct(lens, disps, types, table);
    NoMerges(lens, disps, types, table, r);
    Framed(lens, disps, types, table, last, disp, top, r);
  }

  datatype Order = C | Fortran

  /** C arrays run fastest in the last dimension. */
  function FastFirst<T>(xs: seq<T>, order: Order): (r: seq<T>)
    ensures |r| == |xs|
  {
    if order == Fortran then xs else seq(|xs|, i requires 0 <= i < |xs| => xs[|xs| - 1 - i])
  }

  /** Where dimension `p`, counted from the fastest, is in the arguments. */
  function At(n: nat, order: Order, p: nat): int {
    if order == Fortran then p else n - 1 - p
  }

  lemma {:induction false} NotMinusOne(e: int, size: nat)
    requires e != -1
    ensures size * e != -1 && e * size != -1
  {
    if e == 0 {
    } else if size == 0 {
    } else if e > 0 {
      assert size * e > 0;
    } else {
      assert size * e <= e;
    }
  }

  /** One more dimension: copies of the type so far at the distance the inner dimensions span. */
  lemma {:induction false} OneDimension(m: seq<Entry>, sizes: seq<nat>, subs: seq<nat>, e: int, k: nat, inner: int)
    requires k < |sizes| && k < |subs|
    ensures Place(Place(m, Rel(sizes, subs, e, k)), Strided(subs[k], 1, Prod(sizes, k) * e, inner)) ==
            Place(m, Rel(sizes, subs, e, k + 1))
  {
    assert Run(1, 0, inner) == [0];
    SumsOne(Run(subs[k], 0, Prod(sizes, k) * e));
    PlaceNest(m, Rel(sizes, subs, e, k), Run(subs[k], 0, Prod(sizes, k) * e));
  }

  lemma {:induction false} FirstTwo(sizes: seq<nat>, subs: seq<nat>, e: int)
    requires |sizes| >= 2 && |subs| >= 2
    ensures Strided(subs[1], subs[0], e * sizes[0], e) == Rel(sizes, subs, e, 2)
  {
    FirstOne(sizes, subs, e);
    assert Prod(sizes, 1) == sizes[0] by {
      assert Prod(sizes, 0) == 1;
    }
    assert Rel(sizes, subs, e, 2) == Sums(Run(subs[1], 0, sizes[0] * e), Run(subs[0], 0, e));
  }

  lemma {:induction false} FirstOne(sizes: seq<nat>, subs: seq<nat>, e: int)
    requires |sizes| >= 1 && |subs| >= 1
    ensures Rel(sizes, subs, e, 1) == Run(subs[0], 0, e)
  {
    assert Prod(sizes, 0) == 1 && 1 * e == e;
    SumsOne(Run(subs[0], 0, e));
  }

  /** The vector for the two fastest dimensions. */
  method FirstPlane(count: nat, bLength: nat, stride: nat, old_: DT, ghost fs: seq<nat>, ghost fb: seq<nat>) returns (r: DT)
    requires Ok(old_) && old_.kind == Plain
    requires |fs| >= 2 && |fb| >= 2 && fb[0] == bLength && fb[1] == count && fs[0] == stride
    ensures Ok(r) && r.kind == Plain
    ensures (r.userLb ==> old_.userLb) && (r.userUb ==> old_.userUb)
    ensures Extent(old_) != -1 ==> r.elems == Place(old_.elems, Rel(fs, fb, Extent(old_), 2))
  {
    FirstTwo(fs, fb, Extent(old_));
    if Extent(old_) != -1 {
      NotMinusOne(Extent(old_), stride);
    }
    r := CreateVector(count, bLength, stride, old_);
  }

  /** The hvector for one more dimension. */
  method NextDimension(count: nat, size: nat, last: DT, old_: DT, ghost fs: seq<nat>, ghost fb: seq<nat>, ghost p: nat)
    returns (r: DT)
    requires Ok(last) && last.kind == Plain && p < |fs| && p < |fb| && count == fb[p] && size == Prod(fs, p)
    ensures Ok(r) && r.kind == Plain
    ensures (r.userLb ==> last.userLb) && (r.userUb ==> last.userUb)
    ensures Extent(old_) != -1 && last.elems == Place(old_.elems, Rel(fs, fb, Extent(old_), p)) ==>
              r.elems == Place(old_.elems, Rel(fs, fb, Extent(old_), p + 1))
  {
    if Extent(old_) != -1 {
      NotMinusOne(Extent(old_), size);
      OneDimension(old_.elems, fs, fb, Extent(old_), p, Extent(last));
    }
    r := CreateHvector(count, 1, size * Extent(old_), last);
  }

  /** ompi_datatype_create_subarray.c, lines 81 and 82. */
  method Widen(size: nat, displ: int, extra: nat, start: int, ghost fs: seq<nat>, ghost ft: seq<int>, ghost p: nat)
    returns (newSize: nat, newDispl: int)
    requires p < |fs| && p < |ft| && extra == fs[p] && start == ft[p]
    requires size == Prod(fs, p) && displ == Origin(fs, ft, p)
    ensures newSize == Prod(fs, p + 1) && newDispl == Origin(fs, ft, p + 1)
  {
    newDispl := displ + start * size;
    newSize := size * extra;
  }

  lemma {:induction false} FirstSizes(fs: seq<nat>, ft: seq<int>)
    requires |fs| >= 2 && |ft| >= 2
    ensures Prod(fs, 2) == fs[0] * fs[1]
    ensures Origin(fs, ft, 2) == ft[0] + ft[1] * fs[0]
  {
    assert Prod(fs, 0) == 1 && Prod(fs, 1) == fs[0];
    assert Origin(fs, ft, 0) == 0 && Origin(fs, ft, 1) == ft[0];
  }

  /** The loop of ompi_datatype_create_subarray: the type of the box relative to its first
      element, the size of the array and the position of that element. */
  method BoxType(sizes: seq<nat>, subs: seq<nat>, starts: seq<int>, order: Order, old_: DT)
    returns (last: DT, size: nat, displ: int)
    requires Ok(old_) && old_.kind == Plain
    requires |sizes| == |subs| == |starts| >= 2
    ensures Ok(last) && last.kind == Plain
    ensures (last.userLb ==> old_.userLb) && (last.userUb ==> old_.userUb)
    ensures size == Prod(FastFirst(sizes, order), |sizes|)
    ensures displ == Origin(FastFirst(sizes, order), FastFirst(starts, order), |sizes|)
    ensures Extent(old_) != -1 ==>
              last.elems == Place(old_.elems, Rel(FastFirst(sizes, order), FastFirst(subs, order), Extent(old_), |sizes|))
  {
    var extent := Extent(old_);
    ghost var (fs, fb, ft) := (FastFirst(sizes, order), FastFirst(subs, order), FastFirst(starts, order));
    var n := |sizes|;
    var i, step, endLoop := 0, 1, n;
    if order == C {
      i, step, endLoop := n - 1, -1, -1;
    }
    last := FirstPlane(subs[i + step], subs[i], sizes[i], old_, fs, fb);
    size := sizes[i] * sizes[i + step];
    displ := starts[i] + starts[i + step] * sizes[i];
    FirstSizes(fs, ft);
    i := i + 2 * step;
    ghost var p := 2;
    while i != endLoop
      invariant 2 <= p <= n && i == At(n, order, p)
      invariant Ok(last) && last.kind == Plain
      invariant (last.userLb ==> old_.userLb) && (last.userUb ==> old_.userUb)
      invariant size == Prod(fs, p) && displ == Origin(fs, ft, p)
      invariant extent != -1 ==> last.elems == Place(old_.elems, Rel(fs, fb, extent, p))
      decreases n - p
    {
      last := NextDimension(subs[i], size, last, old_, fs, fb, p);
      size, displ := Widen(size, displ, sizes[i], starts[i], fs, ft, p);
      i := i + step;
      p := p + 1;
    }
    assert p == n;
  }

  /** The subarray type: the old type at the position of every multi-index of the box, the
      fastest dimension innermost; the bounds are those of the whole array. */
  method CreateSubarray(sizes: seq<nat>, subs: seq<nat>, starts: seq<int>, order: Order, old_: DT) returns (r: DT)
    requires Ok(old_) && old_.kind == Plain
    requires |sizes| == |subs| == |starts|
    ensures |sizes| == 0 ==> r == DATATYPE_NULL
    ensures |sizes| > 0 && Extent(old_) != -1 ==>
              r.elems == Place(old_.elems, Scaled(BoxPositions(FastFirst(sizes, order), FastFirst(subs, order),
                                                               FastFirst(starts, order), |sizes|), Extent(old_)))
    ensures |sizes| > 0 && !old_.userLb ==> r.lb == 0
    ensures |sizes| > 0 && !old_.userUb ==> r.ub == Prod(FastFirst(sizes, order), |sizes|) * Extent(old_)
  {
    var n, extent := |sizes|, Extent(old_);
    if n == 0 {
      return DATATYPE_NULL;
    }
    ghost var (fs, fb, ft) := (FastFirst(sizes, order), FastFirst(subs, order), FastFirst(starts, order));
    var last, size: nat, displ;
    if n < 2 {
      last := CreateContiguous(subs[0], old_);
      size, displ := sizes[0], starts[0];
      FirstOne(fs, fb, extent);
      assert Prod(fs, 0) == 1 && Prod(fs, 1) == size && Origin(fs, ft, 0) == 0 && Origin(fs, ft, 1) == displ;
    } else {
      last, size, displ := BoxType(sizes, subs, starts, order, old_);
    }
    r := Frame(last, displ * extent, size * extent);
    RelIsBox(fs, fb, ft, extent, n);
    ShiftPlace(old_.elems, Rel(fs, fb, extent, n), displ * extent);
  }

  /** What the positions of a box inside the array amount to: one for every multi-index, all
      different, all within the array. */
  lemma {:induction false} BoxWithoutOverlap(sizes: seq<nat>, subs: seq<nat>, starts: seq<int>, k: nat)
    requires Dims(sizes, subs, starts, k) && Inside(sizes, subs, starts, k)
    ensures NoRepeats(BoxPositions(sizes, subs, starts, k))
    ensures forall x :: x in BoxPositions(sizes, subs, starts, k) <==>
                        exists v :: InBox(v, subs, k) && x == Linear(sizes, starts, v, k)
    ensures forall x :: x in BoxPositions(sizes, subs, starts, k) ==> 0 <= x < Prod(sizes, k)
  {
    IndicesExactly(subs, k);
    IndicesLength(subs, k);
    var (vs, xs) := (Indices(subs, k), BoxPositions(sizes, subs, starts, k));
    forall i | 0 <= i < |xs|
      ensures InBox(vs[i], subs, k) && 0 <= xs[i] < Prod(sizes, k)
    {
      assert vs[i] in vs;
      LinearRange(sizes, subs, starts, vs[i], k);
    }
    forall i, j | 0 <= i < j < |xs|
      ensures xs[i] != xs[j]
    {
      assert vs[i] == vs[i][..k] && vs[j] == vs[j][..k];
      if xs[i] == xs[j] {
        LinearInjective(sizes, subs, starts, vs[i], vs[j], k);
      }
    }
    forall v | InBox(v, subs, k)
      ensures Linear(sizes, starts, v, k) in xs
    {
      var i :| 0 <= i < |vs| && vs[i] == v;
      assert xs[i] == Linear(sizes, starts, v, k);
    }
  }

  // ---------------------------------------------------------------------------
  // The positions, stated on the arguments
  // ---------------------------------------------------------------------------

  /** The position of an element in an array laid out row by row: the last index runs fastest. */
  function RowMajor(sizes: seq<nat>, at: seq<int>): int
    requires |sizes| == |at|
  {
    if at == [] then 0
    else
      var n := |at| - 1;
      RowMajor(sizes[..n], at[..n]) * sizes[n] + at[n]
  }

  /** Column by column: the first index runs fastest. */
  function ColumnMajor(sizes: seq<nat>, at: seq<int>): int
    requires |sizes| == |at|
  {
    if at == [] then 0 else at[0] + sizes[0] * ColumnMajor(sizes[1..], at[1..])
  }

  lemma {:induction false} ProdPeel(sizes: seq<nat>, k: nat)
    requires 0 < k <= |sizes|
    ensures Prod(sizes, k) == sizes[0] * Prod(sizes[1..], k - 1)
  {
    if k > 1 {
      ProdPeel(sizes, k - 1);
      assert sizes[0] * Prod(sizes[1..], k - 2) * sizes[k - 1] == sizes[0] * (Prod(sizes[1..], k - 2) * sizes[k - 1]);
    } else {
      assert Prod(sizes, 0) == 1 && Prod(sizes[1..], 0) == 1;
    }
  }

  lemma {:induction false} Factored(s: int, before: int, digit: int, p: int, first: int)
    ensures first + s * before + digit * (s * p) == first + s * (before + digit * p)
  {
    assert digit * (s * p) == s * (digit * p);
    assert s * (before + digit * p) == s * before + s * (digit * p);
  }

  lemma {:induction false} LinearPeel(sizes: seq<nat>, starts: seq<int>, v: Index, k: nat)
    requires 0 < k <= |sizes| && k <= |starts| && k <= |v|
    ensures Linear(sizes, starts, v, k) == starts[0] + v[0] + sizes[0] * Linear(sizes[1..], starts[1..], v[1..], k - 1)
  {
    if k > 1 {
      LinearPeel(sizes, starts, v, k - 1);
      ProdPeel(sizes, k - 1);
      var (before, digit, p) := (Linear(sizes[1..], starts[1..], v[1..], k - 2), starts[k - 1] + v[k - 1], Prod(sizes[1..], k - 2));
      assert digit == starts[1..][k - 2] + v[1..][k - 2];
      Factored(sizes[0], before, digit, p, starts[0] + v[0]);
      assert Linear(sizes[1..], starts[1..], v[1..], k - 1) == before + digit * p;
    } else {
      assert Linear(sizes, starts, v, 0) == 0 && Linear(sizes[1..], starts[1..], v[1..], 0) == 0 && Prod(sizes, 0) == 1;
    }
  }

  /** The index that the multi-index `v` of the box stands for in the whole array. */
  function Moved(starts: seq<int>, v: Index): (at: seq<int>)
    requires |starts| == |v|
    ensures |at| == |v|
  {
    seq(|v|, i requires 0 <= i < |v| => starts[i] + v[i])
  }

  lemma {:induction false} LinearColumns(sizes: seq<nat>, starts: seq<int>, v: Index)
    requires |sizes| == |starts| == |v|
    ensures Linear(sizes, starts, v, |v|) == ColumnMajor(sizes, Moved(starts, v))
    decreases |v|
  {
    if v != [] {
      LinearPeel(sizes, starts, v, |v|);
      LinearColumns(sizes[1..], starts[1..], v[1..]);
      assert Moved(starts, v)[1..] == Moved(starts[1..], v[1..]);
    }
  }

  lemma {:induction false} ColumnsAreRows(sizes: seq<nat>, at: seq<int>)
    requires |sizes| == |at|
    ensures ColumnMajor(FastFirst(sizes, C), FastFirst(at, C)) == RowMajor(sizes, at)
    decreases |at|
  {
    if at != [] {
      var n := |at| - 1;
      ColumnsAreRows(sizes[..n], at[..n]);
      assert FastFirst(at, C)[1..] == FastFirst(at[..n], C) && FastFirst(sizes, C)[1..] == FastFirst(sizes[..n], C);
    }
  }

  /** Where the element at index `at`, one entry a dimension in the order of the arguments, is in the array. */
  function PositionOf(sizes: seq<nat>, at: seq<int>, order: Order): int
    requires |sizes| == |at|
  {
    if order == C then RowMajor(sizes, at) else ColumnMajor(sizes, at)
  }

  lemma {:induction false} LinearOnArguments(sizes: seq<nat>, starts: seq<int>, v: Index, order: Order)
    requires |sizes| == |starts| == |v|
    ensures Linear(FastFirst(sizes, order), FastFirst(starts, order), FastFirst(v, order), |v|) == PositionOf(sizes, Moved(starts, v), order)
  {
    LinearColumns(FastFirst(sizes, order), FastFirst(starts, order), FastFirst(v, order));
    if order == C {
      ColumnsAreRows(sizes, Moved(starts, v));
      assert Moved(FastFirst(starts, C), FastFirst(v, C)) == FastFirst(Moved(starts, v), C);
    }
  }

  /** The index lies in the box. */
  predicate BoxHas(subs: seq<nat>, starts: seq<int>, at: seq<int>) {
    |at| == |subs| == |starts| && forall i :: 0 <= i < |at| ==> starts[i] <= at[i] < starts[i] + subs[i]
  }

  /** The positions selected are those of the elements whose index lies in the box, in row order for
      C arrays and in column order for Fortran ones, and they come in increasing order. */
  lemma {:induction false} BoxOnArguments(sizes: seq<nat>, subs: seq<nat>, starts: seq<int>, order: Order, x: int)
    requires |sizes| == |subs| == |starts| && Inside(sizes, subs, starts, |sizes|)
    ensures x in BoxPositions(FastFirst(sizes, order), FastFirst(subs, order), FastFirst(starts, order), |sizes|)
            <==> exists at :: BoxHas(subs, starts, at) && x == PositionOf(sizes, at, order)
    ensures Rising(BoxPositions(FastFirst(sizes, order), FastFirst(subs, order), FastFirst(starts, order), |sizes|))
  {
    var (fs, fb, ft, n) := (FastFirst(sizes, order), FastFirst(subs, order), FastFirst(starts, order), |sizes|);
    BoxWithoutOverlap(fs, fb, ft, n);
    BoxRising(fs, fb, ft, n);
    if v :| InBox(v, fb, n) && x == Linear(fs, ft, v, n) {
      ToArguments(sizes, subs, starts, order, v);
    }
    if at :| BoxHas(subs, starts, at) && x == PositionOf(sizes, at, order) {
      FromArguments(sizes, subs, starts, order, at);
    }
  }

  lemma {:induction false} ToArguments(sizes: seq<nat>, subs: seq<nat>, starts: seq<int>, order: Order, v: Index)
    requires |sizes| == |subs| == |starts| && InBox(v, FastFirst(subs, order), |sizes|)
    ensures exists at :: BoxHas(subs, starts, at)
                         && PositionOf(sizes, at, order) == Linear(FastFirst(sizes, order), FastFirst(starts, order), v, |sizes|)
  {
    var w := FastFirst(v, order);
    assert FastFirst(w, order) == v;
    LinearOnArguments(sizes, starts, w, order);
    assert BoxHas(subs, starts, Moved(starts, w));
  }

  lemma {:induction false} FromArguments(sizes: seq<nat>, subs: seq<nat>, starts: seq<int>, order: Order, at: seq<int>)
    requires |sizes| == |subs| == |starts| && BoxHas(subs, starts, at)
    ensures exists v :: InBox(v, FastFirst(subs, order), |sizes|)
                        && PositionOf(sizes, at, order) == Linear(FastFirst(sizes, order), FastFirst(starts, order), v, |sizes|)
  {
    var w: Index := seq(|at|, i requires 0 <= i < |at| => at[i] - starts[i]);
    assert Moved(starts, w) == at;
    LinearOnArguments(sizes, starts, w, order);
    assert InBox(FastFirst(w, order), FastFirst(subs, order), |sizes|);
  }

  ghost predicate Rising(xs: seq<int>) {
    forall i, j :: 0 <= i < j < |xs| ==> xs[i] < xs[j]
  }

  lemma {:induction false} BoxRising(sizes: seq<nat>, subs: seq<nat>, starts: seq<int>, k: nat)
    requires Dims(sizes, subs, starts, k) && Inside(sizes, subs, starts, k)
    ensures Rising(BoxPositions(sizes, subs, starts, k))
    decreases k, 1
  {
    if k > 0 {
      FromRising(sizes, subs, starts, k, 0);
    } else {
      assert Indices(subs, 0) == [[]];
    }
  }

  lemma {:induction false} FromRising(sizes: seq<nat>, subs: seq<nat>, starts: seq<int>, k: nat, from: nat)
    requires k > 0 && Dims(sizes, subs, starts, k) && Inside(sizes, subs, starts, k) && from <= subs[k - 1]
    ensures (forall i :: 0 <= i < |IndicesFrom(subs, k, from)| ==> |IndicesFrom(subs, k, from)[i]| == k)
    ensures Rising(Positions(sizes, starts, IndicesFrom(subs, k, from), k))
    ensures AllFrom(Positions(sizes, starts, IndicesFrom(subs, k, from), k), (starts[k - 1] + from) * Prod(sizes, k - 1))
    decreases k, 0, subs[k - 1] - from
  {
    IndicesFromLength(subs, k, from);
    if from < subs[k - 1] {
      FromRising(sizes, subs, starts, k, from + 1);
      RowRising(sizes, subs, starts, k, from);
      var (here, later) := (WithLast(Indices(subs, k - 1), from), IndicesFrom(subs, k, from + 1));
      PositionsConcat(sizes, starts, here, later, k);
      var (d, p) := (starts[k - 1] + from, Prod(sizes, k - 1));
      assert (d + 1) * p == d * p + p;
    }
  }

  ghost predicate AllFrom(xs: seq<int>, lo: int) {
    forall i :: 0 <= i < |xs| ==> lo <= xs[i]
  }

  lemma {:induction false} RowRising(sizes: seq<nat>, subs: seq<nat>, starts: seq<int>, k: nat, j: nat)
    requires k > 0 && Dims(sizes, subs, starts, k) && Inside(sizes, subs, starts, k)
    ensures var here := WithLast(Indices(subs, k - 1), j);
            && (forall i :: 0 <= i < |here| ==> |here[i]| == k)
            && var xs := Positions(sizes, starts, here, k);
               var lo := (starts[k - 1] + j) * Prod(sizes, k - 1);
               Rising(xs) && forall i :: 0 <= i < |xs| ==> lo <= xs[i] < lo + Prod(sizes, k - 1)
    decreases k, -1
  {
    BoxRising(sizes, subs, starts, k - 1);
    BoxWithoutOverlap(sizes, subs, starts, k - 1);
    IndicesLength(subs, k - 1);
    var (inner, box) := (Indices(subs, k - 1), BoxPositions(sizes, subs, starts, k - 1));
    var here := WithLast(inner, j);
    var xs := Positions(sizes, starts, here, k);
    forall i | 0 <= i < |xs|
      ensures xs[i] == box[i] + (starts[k - 1] + j) * Prod(sizes, k - 1) && 0 <= box[i] < Prod(sizes, k - 1)
    {
      LinearPrefix(sizes, starts, inner[i], j, k - 1);
      assert box[i] in box;
    }
  }
}
