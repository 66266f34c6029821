/** Datatypes as type maps with bounds, the one operation that builds them (adding copies of a
    type to another), and the algebra of displacement lists. */
module TypeMap {

  /** One basic element of a type map at a byte displacement. */
  datatype Entry = Entry(basic: nat, disp: int)

  /** MPI_LB and MPI_UB have no elements: adding them moves a bound. */
  datatype Kind = Plain | LowerMark | UpperMark

  datatype DT = DT(kind: Kind, elems: seq<Entry>, lb: int, ub: int, userLb: bool, userUb: bool, align: nat)

  const LONG_MAX := 0x7fff_ffff_ffff_ffff
  const LONG_MIN := -0x8000_0000_0000_0000

  /** What ompi_datatype_create returns. */
  const FRESH := DT(Plain, [], LONG_MAX, LONG_MIN, false, false, 1)
  const MPI_LB := DT(LowerMark, [], 0, 0, false, false, 1)
  const MPI_UB := DT(UpperMark, [], 0, 0, false, false, 1)

  function Extent(t: DT): int {
    t.ub - t.lb
  }

  function Min(a: int, b: int): int {
    if a < b then a else b
  }

  function Max(a: int, b: int): int {
    if a < b then b else a
  }

  // ---------------------------------------------------------------------------
  // Displacement lists
  // ---------------------------------------------------------------------------

  function Shift(m: seq<Entry>, d: int): (r: seq<Entry>)
    ensures |r| == |m|
  {
    seq(|m|, i requires 0 <= i < |m| => m[i].(disp := m[i].disp + d))
  }

  /** A copy of `m` at each displacement, in order. */
  function Place(m: seq<Entry>, ds: seq<int>): seq<Entry> {
    if ds == [] then [] else Shift(m, ds[0]) + Place(m, ds[1..])
  }

  /** `n` displacements from `d` in steps of `e`. */
  function Run(n: nat, d: int, e: int): (r: seq<int>)
    ensures |r| == n
  {
    if n == 0 then [] else [d] + Run(n - 1, d + e, e)
  }

  function Plus(d: int, xs: seq<int>): (r: seq<int>)
    ensures |r| == |xs|
  {
    seq(|xs|, i requires 0 <= i < |xs| => d + xs[i])
  }

  /** Every sum, the second list running fastest. */
  function Sums(outer: seq<int>, inner: seq<int>): seq<int> {
    if outer == [] then [] else Plus(outer[0], inner) + Sums(outer[1..], inner)
  }

  lemma {:induction false} PlaceConcat(m: seq<Entry>, a: seq<int>, b: seq<int>)
    ensures Place(m, a + b) == Place(m, a) + Place(m, b)
  {
    if a == [] {
      assert a + b == b;
    } else {
      PlaceConcat(m, a[1..], b);
      assert (a + b)[1..] == a[1..] + b;
      Associates(Shift(m, a[0]), Place(m, a[1..]), Place(m, b));
    }
  }

  lemma {:induction false} ShiftConcat(a: seq<Entry>, b: seq<Entry>, d: int)
    ensures Shift(a + b, d) == Shift(a, d) + Shift(b, d)
  {
  }

  lemma {:induction false} ShiftPlace(m: seq<Entry>, a: seq<int>, d: int)
    ensures Shift(Place(m, a), d) == Place(m, Plus(d, a))
  {
    if a != [] {
      ShiftPlace(m, a[1..], d);
      ShiftConcat(Shift(m, a[0]), Place(m, a[1..]), d);
      assert Shift(Shift(m, a[0]), d) == Shift(m, d + a[0]);
      assert Plus(d, a)[1..] == Plus(d, a[1..]);
    }
  }

  /** Copies of copies are copies at the sums of the displacements. */
  lemma {:induction false} PlaceNest(m: seq<Entry>, inner: seq<int>, outer: seq<int>)
    ensures Place(Place(m, inner), outer) == Place(m, Sums(outer, inner))
  {
    if outer != [] {
      PlaceNest(m, inner, outer[1..]);
      ShiftPlace(m, inner, outer[0]);
      PlaceConcat(m, Plus(outer[0], inner), Sums(outer[1..], inner));
    }
  }

  lemma {:induction false} PlaceNothing(ds: seq<int>)
    ensures Place([], ds) == []
  {
    if ds != [] {
      PlaceNothing(ds[1..]);
    }
  }

  lemma {:induction false} PlaceLength(m: seq<Entry>, ds: seq<int>)
    ensures |Place(m, ds)| == |m| * |ds|
  {
    if ds != [] {
      PlaceLength(m, ds[1..]);
      assert |m| * |ds| == |m| + |m| * |ds[1..]|;
    }
  }

  lemma {:induction false} Associates<T>(a: seq<T>, b: seq<T>, c: seq<T>)
    ensures a + (b + c) == (a + b) + c
  {
  }

  lemma {:induction false} RunConcat(n: nat, k: nat, d: int, e: int)
    ensures Run(n, d, e) + Run(k, d + n * e, e) == Run(n + k, d, e)
  {
    if n == 0 {
      assert [] + Run(k, d, e) == Run(k, d, e);
    } else {
      RunConcat(n - 1, k, d + e, e);
      assert d + n * e == d + e + (n - 1) * e;
      Associates([d], Run(n - 1, d + e, e), Run(k, d + n * e, e));
    }
  }

  lemma {:induction false} RunAt(n: nat, d: int, e: int, i: nat)
    requires i < n
    ensures Run(n, d, e)[i] == d + i * e
  {
    if i > 0 {
      RunAt(n - 1, d + e, e, i - 1);
      assert d + e + (i - 1) * e == d + i * e;
    }
  }

  lemma PlaceOne(m: seq<Entry>, d: int)
    ensures Place(m, [d]) == Shift(m, d)
  {
    assert [d][1..] == [];
    assert Place(m, []) == [];
  }

  /** Different displacement lists of the same length place a type that is not empty
      differently. */
  lemma {:induction false} PlaceDiffers(m: seq<Entry>, a: seq<int>, b: seq<int>, k: nat)
    requires m != [] && |a| == |b| && k < |a| && a[k] != b[k]
    ensures Place(m, a) != Place(m, b)
  {
    if k == 0 {
      assert Place(m, a)[0] == m[0].(disp := m[0].disp + a[0]);
      assert Place(m, b)[0] == m[0].(disp := m[0].disp + b[0]);
    } else {
      PlaceDiffers(m, a[1..], b[1..], k - 1);
      assert Place(m, a)[|m|..] == Place(m, a[1..]);
      assert Place(m, b)[|m|..] == Place(m, b[1..]);
    }
  }

  lemma {:induction false} ShiftSame(a: seq<Entry>, b: seq<Entry>, d: int)
    requires |a| == |b|
    ensures Shift(a, d) == Shift(b, d) <==> a == b
  {
    if Shift(a, d) == Shift(b, d) {
      forall i | 0 <= i < |a|
        ensures a[i] == b[i]
      {
        assert Shift(a, d)[i] == Shift(b, d)[i];
      }
    }
  }

  /** Two types placed at two lists that begin alike: same result exactly when both agree. */
  lemma {:induction false} PlaceBoth(m: seq<Entry>, a: seq<int>, n: seq<Entry>, b: seq<int>)
    requires |m| == |n| && |a| == |b| && (a != [] ==> a[0] == b[0])
    ensures Place(m, a) == Place(n, b) <==> b == [] || (m == n && (n == [] || a == b))
  {
    if b == [] {
    } else if m != n {
      ShiftSame(m, n, a[0]);
      assert Place(m, a)[..|m|] == Shift(m, a[0]) && Place(n, b)[..|n|] == Shift(n, b[0]);
    } else if n == [] {
      PlaceNothing(a);
      PlaceNothing(b);
    } else if a != b {
      var k :| 0 <= k < |a| && a[k] != b[k];
      PlaceDiffers(n, a, b, k);
    }
  }

  // ---------------------------------------------------------------------------
  // opal_datatype_add
  // ---------------------------------------------------------------------------

  /** C's remainder, which takes the sign of the dividend. */
  function CRem(a: int, b: nat): int
    requires b > 0
  {
    if a >= 0 then a % b else -((-a) % b)
  }

  function Upper(base: DT, child: DT, hi: int, lb: int, align: nat): int
    requires align > 0
  {
    var ub :=
      if base.userUb != child.userUb then (if base.userUb then base.ub else hi)
      else Max(base.ub, hi);
    if base.userUb || child.userUb then ub
    else
      var epsilon := CRem(ub - lb, align);
      if epsilon == 0 then ub else ub + (align - epsilon)
  }

  predicate Ok(t: DT) {
    t.align > 0 && (t.kind != Plain ==> t.elems == [])
  }

  /** Adds `count` copies of `child`, the first at `disp`, one every `extent` bytes; an extent
      of -1 stands for the child's own. */
  function Add(base: DT, child: DT, count: nat, disp: int, extent: int): (r: DT)
    requires Ok(base) && Ok(child) && base.kind == Plain
    ensures Ok(r) && r.kind == Plain
  {
    if count == 0 then base
    else
      var e := if extent == -1 then Extent(child) else extent;
      match child.kind
      case LowerMark => base.(lb := if base.userLb then Min(base.lb, disp) else disp, userLb := true)
      case UpperMark => base.(ub := if base.userUb then Max(base.ub, disp) else disp, userUb := true)
      case Plain =>
        var last := disp + e * (count - 1);
        var lo := Min(disp, last) + child.lb;
        var hi := Max(disp, last) + child.ub;
        var lb :=
          if base.userLb != child.userLb then (if base.userLb then base.lb else lo)
          else Min(base.lb, lo);
        var align := Max(base.align, child.align);
        base.(elems := base.elems + Place(child.elems, Run(count, disp, e)),
              lb := lb, ub := Upper(base, child, hi, lb, align),
              userLb := base.userLb || child.userLb, userUb := base.userUb || child.userUb, align := align)
  }

  /** The elements an addition appends, for any extent but the special one. */
  lemma AddElems(base: DT, child: DT, count: nat, disp: int, extent: int)
    requires Ok(base) && Ok(child) && base.kind == Plain
    requires extent != -1 || Extent(child) == -1 || count <= 1 || child.elems == []
    ensures Add(base, child, count, disp, extent).elems == base.elems + Place(child.elems, Run(count, disp, extent))
  {
    PlaceNothing(Run(count, disp, extent));
    PlaceNothing(Run(count, disp, Extent(child)));
    if count == 1 {
      assert Run(1, disp, extent) == [disp] == Run(1, disp, Extent(child));
    }
    assert base.elems + [] == base.elems;
  }

  /** A single copy is placed the same for every extent. */
  lemma {:induction false} AddOnce(base: DT, child: DT, disp: int, e: int, f: int)
    requires Ok(base) && Ok(child) && base.kind == Plain
    ensures Add(base, child, 1, disp, e) == Add(base, child, 1, disp, f)
  {
    assert forall x :: Run(1, disp, x) == [disp];
  }

  lemma {:induction false} ProductOrder(p: int, q: int, a: nat)
    ensures p <= q ==> p * a <= q * a
  {
  }

  lemma {:induction false} AddMod(x: nat, a: nat)
    requires a > 0
    ensures (x + a) % a == x % a
  {
    var (p, q) := ((x + a) / a, x / a);
    assert x == q * a + x % a && x + a == p * a + (x + a) % a;
    ProductOrder(p, q + 1, a);
    ProductOrder(q + 2, p, a);
    ProductOrder(p + 1, q + 1, a);
    assert (q + 1) * a == q * a + a && (p + 1) * a == p * a + a && (q + 2) * a == q * a + 2 * a;
  }

  predicate Multiple(x: nat, a: nat)
    requires a > 0
  {
    x == 0 || (x >= a && Multiple(x - a, a))
  }

  lemma {:induction false} OneMultiple(x: nat, y: nat, a: nat)
    requires a > 0 && Multiple(x, a) && Multiple(y, a) && x < y + a && y < x + a
    ensures x == y
    decreases x
  {
    if x > 0 && y > 0 {
      OneMultiple(x - a, y - a, a);
    }
  }

  /** `ub` is `hi` raised to the next multiple of `a` above `lb`. */
  predicate Raised(lb: int, hi: int, a: nat, ub: int)
    requires a > 0
  {
    lb <= hi <= ub < hi + a && Multiple(ub - lb, a)
  }

  lemma {:induction false} RemainderRaises(x: nat, a: nat)
    requires a > 0
    ensures Raised(0, x, a, if x % a == 0 then x else x + (a - x % a))
    decreases x
  {
    if x >= a {
      AddMod(x - a, a);
      RemainderRaises(x - a, a);
    } else if x > 0 {
      assert x % a == x;
    }
  }

  lemma {:induction false} RaisedTwice(lb: int, b: int, hi: int, hi2: int, a: nat, first: int, twice: int, once: int)
    requires a > 0 && hi <= hi2 && Raised(lb, Max(b, hi), a, first) && Raised(lb, Max(first, hi2), a, twice)
    requires Raised(lb, Max(b, hi2), a, once)
    ensures twice == once
  {
    if hi2 <= first {
      OneMultiple(twice - lb, first - lb, a);
      OneMultiple(once - lb, first - lb, a);
    } else {
      OneMultiple(twice - lb, once - lb, a);
    }
  }

  function LowerOf(base: DT, child: DT, lo: int): int {
    if base.userLb != child.userLb then (if base.userLb then base.lb else lo) else Min(base.lb, lo)
  }

  function UpperOf(base: DT, child: DT, hi: int): int {
    if base.userUb != child.userUb then (if base.userUb then base.ub else hi) else Max(base.ub, hi)
  }

  /** What an addition of copies does to the bounds when the first copy begins at `lo`, the last
      one ends at `hi`, and nothing is rounded down. */
  ghost predicate Bounded(base: DT, child: DT, lo: int, hi: int, r: DT) {
    match r.kind
    case LowerMark | UpperMark => false
    case Plain =>
    && r.align == Max(base.align, child.align) && r.align > 0
    && r.lb == LowerOf(base, child, lo)
    && r.userLb == (base.userLb || child.userLb) && r.userUb == (base.userUb || child.userUb)
    && (r.userUb ==> r.ub == UpperOf(base, child, hi))
    && (!r.userUb ==> Raised(r.lb, Max(base.ub, hi), r.align, r.ub))
  }

  /** May copies whose end is `hi` be rounded from the lower bound? Not if the user put it above
      them. */
  predicate Spans(base: DT, child: DT, hi: int) {
    !base.userLb || child.userLb || base.userUb || child.userUb || base.lb <= hi
  }

  lemma {:induction false} UpperRaised(base: DT, child: DT, hi: int, lb: int, align: nat)
    requires align > 0
    ensures base.userUb || child.userUb ==> Upper(base, child, hi, lb, align) == UpperOf(base, child, hi)
    ensures !base.userUb && !child.userUb && lb <= hi ==> Raised(lb, Max(base.ub, hi), align, Upper(base, child, hi, lb, align))
  {
    if !base.userUb && !child.userUb && lb <= hi {
      RemainderRaises(Max(base.ub, hi) - lb, align);
    }
  }

  lemma {:induction false} AddBounds(base: DT, child: DT, count: nat, disp: int, hi: int)
    requires Ok(base) && Ok(child) && base.kind == child.kind == Plain && count > 0 && Extent(child) >= 0
    requires hi == disp + Extent(child) * (count - 1) + child.ub && Spans(base, child, hi)
    ensures Bounded(base, child, disp + child.lb, hi, Add(base, child, count, disp, Extent(child)))
  {
    ProductOrder(0, count - 1, Extent(child));
    var r := Add(base, child, count, disp, Extent(child));
    assert r.lb == LowerOf(base, child, disp + child.lb);
    UpperRaised(base, child, hi, r.lb, r.align);
  }

  lemma {:induction false} TwiceBounds(base: DT, child: DT, first: DT, twice: DT, once: DT, lo: int, lo2: int, hi: int, hi2: int)
    requires Bounded(base, child, lo, hi, first) && Bounded(first, child, lo2, hi2, twice) && Bounded(base, child, lo, hi2, once)
    requires lo <= lo2 && hi <= hi2
    ensures twice == once.(elems := twice.elems)
  {
    if !once.userUb {
      RaisedTwice(once.lb, base.ub, hi, hi2, once.align, first.ub, twice.ub, once.ub);
    }
  }

  lemma {:induction false} AddElemsTwice(base: DT, child: DT, n: nat, k: nat, d: int)
    requires Ok(base) && Ok(child) && base.kind == Plain
    ensures var e := Extent(child);
            Add(Add(base, child, n, d, e), child, k, d + n * e, e).elems == Add(base, child, n + k, d, e).elems
  {
    var e := Extent(child);
    AddElems(base, child, n, d, e);
    AddElems(Add(base, child, n, d, e), child, k, d + n * e, e);
    AddElems(base, child, n + k, d, e);
    RunConcat(n, k, d, e);
    PlaceConcat(child.elems, Run(n, d, e), Run(k, d + n * e, e));
    Associates(base.elems, Place(child.elems, Run(n, d, e)), Place(child.elems, Run(k, d + n * e, e)));
  }

  lemma {:induction false} LastOfTwo(n: nat, k: nat, d: int, e: nat)
    requires n > 0
    ensures d + n * e + e * (k - 1) == d + e * (n + k - 1)
    ensures d <= d + n * e && d <= d + e * (n - 1) <= d + e * (n + k - 1)
  {
    ProductOrder(0, n, e);
    ProductOrder(0, n - 1, e);
    ProductOrder(n - 1, n + k - 1, e);
  }

  /** May copies of the type be added in two portions as well as in one? Its extent is not
      negative, and a mark has none. */
  predicate Additive(child: DT) {
    Extent(child) >= 0 && (child.kind != Plain ==> Extent(child) == 0)
  }

  lemma {:induction false} TwiceOf(base: DT, child: DT, n: nat, k: nat, d: int, next: int)
    requires Ok(base) && Ok(child) && base.kind == child.kind == Plain && Additive(child) && Spans(base, child, d + child.ub) && n > 0 && k > 0
    requires next == d + n * Extent(child)
    ensures var e := Extent(child);
            var (twice, once) := (Add(Add(base, child, n, d, e), child, k, next, e), Add(base, child, n + k, d, e));
            twice == once.(elems := twice.elems)
  {
    var e := Extent(child);
    var (hi, hi2) := (d + e * (n - 1) + child.ub, d + e * (n + k - 1) + child.ub);
    LastOfTwo(n, k, d, e);
    FromBounds(base, child, n, k, d, next, hi, hi2);
  }

  lemma {:induction false} FromBounds(base: DT, child: DT, n: nat, k: nat, d: int, next: int, hi: int, hi2: int)
    requires Ok(base) && Ok(child) && base.kind == child.kind == Plain && Extent(child) >= 0 && Spans(base, child, hi) && n > 0 && k > 0
    requires hi == d + Extent(child) * (n - 1) + child.ub && hi2 == next + Extent(child) * (k - 1) + child.ub
    requires hi2 == d + Extent(child) * (n + k - 1) + child.ub && d <= next && hi <= hi2
    ensures var e := Extent(child);
            var (twice, once) := (Add(Add(base, child, n, d, e), child, k, next, e), Add(base, child, n + k, d, e));
            twice == once.(elems := twice.elems)
  {
    var e := Extent(child);
    var first := Add(base, child, n, d, e);
    AddBounds(base, child, n, d, hi);
    AddBounds(first, child, k, next, hi2);
    AddBounds(base, child, n + k, d, hi2);
    TwiceBounds(base, child, first, Add(first, child, k, next, e), Add(base, child, n + k, d, e),
                d + child.lb, next + child.lb, hi, hi2);
  }

  /** Adding `n` copies and then `k` more behind them is adding `n + k`, bounds included. */
  lemma {:induction false} AddTwice(base: DT, child: DT, n: nat, k: nat, d: int)
    requires Ok(base) && Ok(child) && base.kind == Plain && Additive(child)
    requires child.kind == Plain ==> Spans(base, child, d + child.ub)
    ensures var e := Extent(child);
            Add(Add(base, child, n, d, e), child, k, d + n * e, e) == Add(base, child, n + k, d, e)
  {
    var e := Extent(child);
    if n == 0 {
      assert d + 0 * e == d;
    } else if k > 0 && child.kind == Plain {
      AddElemsTwice(base, child, n, k, d);
      TwiceOf(base, child, n, k, d, d + n * e);
    } else if k > 0 {
      MarkTwice(base, child, n, k, d);
    }
  }

  lemma {:induction false} MarkTwice(base: DT, child: DT, n: nat, k: nat, d: int)
    requires Ok(base) && Ok(child) && base.kind == Plain && Extent(child) == 0 && child.kind != Plain && n > 0 && k > 0
    ensures Add(Add(base, child, n, d, 0), child, k, d, 0) == Add(base, child, n + k, d, 0)
  {
  }

  /** The ends of two portions and of both together, for any extent. */
  lemma {:induction false} EndsOfTwo(n: nat, k: nat, d: int, e: int, next: int)
    requires n > 0 && k > 0 && next == d + n * e
    ensures next + e * (k - 1) == d + e * (n + k - 1)
    ensures if e >= 0 then d <= d + e * (n - 1) <= next <= d + e * (n + k - 1)
            else d >= d + e * (n - 1) >= next >= d + e * (n + k - 1)
  {
    if e >= 0 {
      ProductOrder(0, n - 1, e);
      ProductOrder(n - 1, n, e);
      ProductOrder(0, k - 1, e);
    } else {
      ProductOrder(0, n - 1, -e);
      ProductOrder(n - 1, n, -e);
      ProductOrder(0, k - 1, -e);
      Negated(n - 1, e);
      Negated(n, e);
      Negated(k - 1, e);
    }
    LastPlace(n, k, d, e);
  }

  lemma {:induction false} Negated(p: int, e: int)
    ensures p * -e == -(e * p) && p * e == e * p
  {
  }

  lemma {:induction false} LastPlace(n: int, k: int, d: int, e: int)
    ensures d + n * e + e * (k - 1) == d + e * (n + k - 1)
  {
  }

  /** The upper bound after an addition: `hi` raised to the next multiple above `lb`, by C's remainder. */
  function Rounded(lb: int, hi: int, align: nat): (r: int)
    requires align > 0
    ensures r >= hi
  {
    var epsilon := CRem(hi - lb, align);
    if epsilon == 0 then hi else hi + (align - epsilon)
  }

  /** Rounding what is rounded already changes nothing exactly when it does not lie above the end. */
  lemma {:induction false} RoundedTwiceIff(lb: int, m: int, hi: int, first: int, align: nat)
    requires align > 0 && m <= first && lb <= Max(m, hi)
    ensures Rounded(lb, Max(first, hi), align) == Rounded(lb, Max(m, hi), align) <==> first <= Rounded(lb, Max(m, hi), align)
  {
    var (twice, once) := (Rounded(lb, Max(first, hi), align), Rounded(lb, Max(m, hi), align));
    RemainderRaises(Max(first, hi) - lb, align);
    RemainderRaises(Max(m, hi) - lb, align);
    if first <= once {
      OneMultiple(twice - lb, once - lb, align);
    }
  }

  /** The bounds of an addition, for any extent: `lo` and `hi` are the lowest and the highest place of
      the copies. */
  ghost predicate BoundedBy(base: DT, child: DT, lo: int, hi: int, r: DT) {
    match (lo, hi)
    case (low, high) =>
    && r.kind == Plain && r.align == Max(base.align, child.align) && r.align > 0
    && r.lb == LowerOf(base, child, low)
    && r.userLb == (base.userLb || child.userLb) && r.userUb == (base.userUb || child.userUb)
    && r.ub == if r.userUb then UpperOf(base, child, high) else Rounded(r.lb, Max(base.ub, high), r.align)
  }

  lemma {:induction false} AddBoundedBy(base: DT, child: DT, count: nat, disp: int, last: int)
    requires Ok(base) && Ok(child) && base.kind == child.kind == Plain && count > 0 && last == disp + Extent(child) * (count - 1)
    ensures BoundedBy(base, child, Min(disp, last) + child.lb, Max(disp, last) + child.ub, Add(base, child, count, disp, Extent(child)))
  {
  }

  lemma {:induction false} BoundsTwiceIff(base: DT, child: DT, first: DT, twice: DT, once: DT, lo: int, hi: int, lo2: int, hi2: int, all: int, top: int)
    requires BoundedBy(base, child, lo, hi, first) && BoundedBy(first, child, lo2, hi2, twice) && BoundedBy(base, child, all, top, once)
    requires all == Min(lo, lo2) && top == Max(hi, hi2) && (once.userUb || once.lb <= Max(base.ub, top))
    ensures twice == once.(elems := twice.elems) <==> once.userUb || first.ub <= once.ub
  {
    assert twice.lb == once.lb && twice.align == once.align && twice.userUb == once.userUb && twice.userLb == once.userLb;
    if !once.userUb {
      RoundedTwiceIff(once.lb, Max(base.ub, hi), hi2, first.ub, once.align);
    }
  }

  /** One merge, for any extent: adding `n` and then `k` copies behind them gives the type of adding all at
      once exactly when a user-set upper bound stops the rounding, or what the first copies are
      rounded to does not lie above the end of all. */
  lemma {:induction false} MergeIff(base: DT, child: DT, n: nat, k: nat, d: int)
    requires Ok(base) && Ok(child) && base.kind == child.kind == Plain && n > 0 && k > 0
    requires var (e, once) := (Extent(child), Add(base, child, n + k, d, Extent(child)));
             once.userUb || once.lb <= Max(base.ub, Max(d, d + e * (n + k - 1)) + child.ub)
    ensures var e := Extent(child);
            var (first, once) := (Add(base, child, n, d, e), Add(base, child, n + k, d, e));
            Add(first, child, k, d + n * e, e) == once <==> once.userUb || first.ub <= once.ub
  {
    var e := Extent(child);
    MergeIffAt(base, child, n, k, d, d + e * (n - 1), d + n * e, d + e * (n + k - 1));
  }

  lemma {:induction false} MergeIffAt(base: DT, child: DT, n: nat, k: nat, d: int, last: int, next: int, end: int)
    requires Ok(base) && Ok(child) && base.kind == child.kind == Plain && n > 0 && k > 0
    requires last == d + Extent(child) * (n - 1) && next == d + n * Extent(child) && end == d + Extent(child) * (n + k - 1)
    requires var once := Add(base, child, n + k, d, Extent(child));
             once.userUb || once.lb <= Max(base.ub, Max(d, end) + child.ub)
    ensures var e := Extent(child);
            var (first, once) := (Add(base, child, n, d, e), Add(base, child, n + k, d, e));
            Add(first, child, k, next, e) == once <==> once.userUb || first.ub <= once.ub
  {
    var e := Extent(child);
    var first := Add(base, child, n, d, e);
    EndsOfTwo(n, k, d, e, next);
    AddBoundedBy(base, child, n, d, last);
    AddBoundedBy(first, child, k, next, end);
    AddBoundedBy(base, child, n + k, d, end);
    BoundsTwiceIff(base, child, first, Add(first, child, k, next, e), Add(base, child, n + k, d, e),
                   Min(d, last) + child.lb, Max(d, last) + child.ub, Min(next, end) + child.lb, Max(next, end) + child.ub,
                   Min(d, end) + child.lb, Max(d, end) + child.ub);
    AddElemsTwice(base, child, n, k, d);
  }
}
