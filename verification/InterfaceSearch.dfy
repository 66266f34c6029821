/** The exhaustive search for the best pairing of local and peer interfaces, and the choice of
    a connection from its result. */
module InterfaceSearch {

  /** A square matrix of connection qualities; 0 is CQ_NO_CONNECTION. */
  type Matrix = m: seq<seq<nat>> | Square(m)

  predicate Square(m: seq<seq<nat>>) {
    forall i :: 0 <= i < |m| ==> |m[i]| == |m|
  }

  // ---------------------------------------------------------------------------
  // Permutations, written as the search writes them: values 1 to n
  // ---------------------------------------------------------------------------

  predicate Injective(p: seq<int>) {
    forall i, j :: 0 <= i < j < |p| && p[i] == p[j] ==> p[i] == 0
  }

  predicate Occurs(p: seq<int>, v: int) {
    exists i :: 0 <= i < |p| && p[i] == v
  }

  /** Every value from 1 to |p| occurs, once, and nothing else does. */
  predicate Permutation(p: seq<int>) {
    && Injective(p)
    && (forall i :: 0 <= i < |p| ==> 1 <= p[i] <= |p|)
    && (forall v :: 1 <= v <= |p| ==> Occurs(p, v))
  }

  function Zeros(s: seq<int>): nat {
    if s == [] then 0 else (if s[0] == 0 then 1 else 0) + Zeros(s[1..])
  }

  /** The work array at a level of the recursion: values 1 to `level`, each once, 0 elsewhere. */
  predicate Partial(s: seq<int>, level: nat) {
    && level <= |s| && Zeros(s) == |s| - level
    && Injective(s)
    && (forall i :: 0 <= i < |s| ==> 0 <= s[i] <= level)
    && (forall v :: 1 <= v <= level ==> Occurs(s, v))
  }

  predicate Extends(p: seq<int>, s: seq<int>) {
    |p| == |s| && forall i :: 0 <= i < |s| && s[i] != 0 ==> p[i] == s[i]
  }

  lemma {:induction false} ZerosUpdate(s: seq<int>, i: nat, v: int)
    requires i < |s| && s[i] == 0 && v != 0
    ensures Zeros(s[i := v]) == Zeros(s) - 1
  {
    if i > 0 {
      ZerosUpdate(s[1..], i - 1, v);
      assert s[i := v][1..] == s[1..][i - 1 := v];
    } else {
      assert s[i := v][1..] == s[1..];
    }
  }

  lemma {:induction false} NoZeros(s: seq<int>)
    ensures Zeros(s) == 0 <==> (forall i :: 0 <= i < |s| ==> s[i] != 0)
    ensures Zeros(s) == |s| <==> (forall i :: 0 <= i < |s| ==> s[i] == 0)
    ensures Zeros(s) <= |s|
  {
    if s != [] {
      NoZeros(s[1..]);
      assert forall i :: 0 < i < |s| ==> s[i] == s[1..][i - 1];
    }
  }

  lemma {:induction false} PartialStep(s: seq<int>, level: nat, i: nat)
    requires Partial(s, level) && i < |s| && s[i] == 0
    ensures level < |s| && Partial(s[i := level + 1], level + 1)
  {
    ZerosUpdate(s, i, level + 1);
    NoZeros(s[i := level + 1]);
    var t := s[i := level + 1];
    forall v | 1 <= v <= level + 1
      ensures Occurs(t, v)
    {
      if v == level + 1 {
        assert t[i] == v;
      } else {
        assert Occurs(s, v);
        var j :| 0 <= j < |s| && s[j] == v;
        assert t[j] == v;
      }
    }
  }

  // ---------------------------------------------------------------------------
  // The arrays the recursion evaluates, in order
  // ---------------------------------------------------------------------------

  function Visits(s: seq<int>, level: nat): seq<seq<int>>
    requires level <= |s|
    decreases |s| - level, |s| + 1
  {
    if level == |s| then [s] else Branches(s, level, 0)
  }

  function Branches(s: seq<int>, level: nat, i: nat): seq<seq<int>>
    requires level < |s| && i <= |s|
    decreases |s| - level, |s| - i
  {
    if i == |s| then []
    else (if s[i] == 0 then Visits(s[i := level + 1], level + 1) else []) + Branches(s, level, i + 1)
  }

  ghost predicate Distinct<T>(xs: seq<T>) {
    forall i, j :: 0 <= i < j < |xs| ==> xs[i] != xs[j]
  }

  lemma {:induction false} DistinctConcat<T>(xs: seq<T>, ys: seq<T>)
    requires Distinct(xs) && Distinct(ys) && forall x :: x in xs ==> x !in ys
    ensures Distinct(xs + ys)
  {
    forall i, j | 0 <= i < j < |xs + ys|
      ensures (xs + ys)[i] != (xs + ys)[j]
    {
      if i < |xs| <= j {
        assert xs[i] in xs && ys[j - |xs|] in ys;
      }
    }
  }

  /** The permutations that extend `s` and put `level + 1` at `i` or later. */
  ghost predicate From(p: seq<int>, s: seq<int>, level: nat, i: nat) {
    Permutation(p) && Extends(p, s) && exists j :: i <= j < |p| && p[j] == level + 1
  }

  lemma {:induction false} VisitsExactly(s: seq<int>, level: nat)
    requires Partial(s, level)
    ensures forall p :: p in Visits(s, level) <==> Permutation(p) && Extends(p, s)
    ensures Distinct(Visits(s, level))
    decreases |s| - level, |s| + 1
  {
    NoZeros(s);
    if level == |s| {
      forall p | Permutation(p) && Extends(p, s)
        ensures p == s
      {
      }
    } else {
      BranchesExactly(s, level, 0);
      forall p | Permutation(p) && Extends(p, s)
        ensures From(p, s, level, 0)
      {
        assert Occurs(p, level + 1);
      }
    }
  }

  lemma {:induction false} BranchesExactly(s: seq<int>, level: nat, i: nat)
    requires Partial(s, level) && level < |s| && i <= |s|
    ensures forall p :: p in Branches(s, level, i) <==> From(p, s, level, i)
    ensures Distinct(Branches(s, level, i))
    decreases |s| - level, |s| - i
  {
    if i < |s| {
      BranchesExactly(s, level, i + 1);
      var later := Branches(s, level, i + 1);
      if s[i] == 0 {
        PartialStep(s, level, i);
        var t := s[i := level + 1];
        VisitsExactly(t, level + 1);
        var here := Visits(t, level + 1);
        forall p
          ensures p in here <==> From(p, s, level, i) && p[i] == level + 1
          ensures p in later <==> From(p, s, level, i) && p[i] != level + 1
        {
          SplitAt(p, s, level, i);
        }
        assert Branches(s, level, i) == here + later;
        DistinctConcat(here, later);
      } else {
        forall p
          ensures From(p, s, level, i) <==> From(p, s, level, i + 1)
        {
          SplitAt(p, s, level, i);
        }
        assert Branches(s, level, i) == [] + later;
      }
    }
  }

  lemma {:induction false} SplitAt(p: seq<int>, s: seq<int>, level: nat, i: nat)
    requires Partial(s, level) && level < |s| && i < |s|
    ensures s[i] == 0 ==>
              (From(p, s, level, i) && p[i] == level + 1 <==> Permutation(p) && Extends(p, s[i := level + 1]))
    ensures From(p, s, level, i + 1) <==> From(p, s, level, i) && p[i] != level + 1
    ensures s[i] != 0 ==> (From(p, s, level, i) ==> p[i] != level + 1)
  {
  }

  /** Value `v` is placed further to the front in `p` than in `q`, and the smaller values alike. */
  ghost predicate EarlierAt(p: seq<int>, q: seq<int>, v: int) {
    && |p| == |q| && (forall k :: 0 <= k < |p| && (1 <= p[k] < v || 1 <= q[k] < v) ==> p[k] == q[k])
    && exists a, b :: 0 <= a < b < |p| && p[a] == v && q[b] == v
  }

  ghost predicate Earlier(p: seq<int>, q: seq<int>) {
    exists v :: 1 <= v <= |p| && EarlierAt(p, q, v)
  }

  ghost predicate InOrder(ps: seq<seq<int>>) {
    forall i, j :: 0 <= i < j < |ps| ==> Earlier(ps[i], ps[j])
  }

  lemma {:induction false} OrderConcat(ps: seq<seq<int>>, qs: seq<seq<int>>)
    requires InOrder(ps) && InOrder(qs) && forall p, q :: p in ps && q in qs ==> Earlier(p, q)
    ensures InOrder(ps + qs)
  {
    var all := ps + qs;
    forall i, j | 0 <= i < j < |all|
      ensures Earlier(all[i], all[j])
    {
      assert i < |ps| ==> all[i] in ps;
      assert j >= |ps| ==> all[j] in qs;
    }
  }

  /** Two arrays that extend `s` and place the next value differently. */
  lemma {:induction false} SideEarlier(p: seq<int>, q: seq<int>, s: seq<int>, level: nat, i: nat)
    requires Partial(s, level) && level < |s| && i < |s|
    requires From(p, s, level, i) && p[i] == level + 1 && From(q, s, level, i + 1)
    ensures Earlier(p, q)
  {
    forall k | 0 <= k < |p| && (1 <= p[k] < level + 1 || 1 <= q[k] < level + 1)
      ensures p[k] == q[k]
    {
      assert Occurs(s, p[k]) || Occurs(s, q[k]);
    }
    assert EarlierAt(p, q, level + 1);
  }

  /** The arrays are visited in the order of the place of 1, then of the place of 2, and so on. */
  lemma {:induction false} VisitsInOrder(s: seq<int>, level: nat)
    requires Partial(s, level)
    ensures InOrder(Visits(s, level))
    decreases |s| - level, |s| + 1
  {
    if level < |s| {
      BranchesInOrder(s, level, 0);
    }
  }

  lemma {:induction false} BranchesInOrder(s: seq<int>, level: nat, i: nat)
    requires Partial(s, level) && level < |s| && i <= |s|
    ensures InOrder(Branches(s, level, i))
    decreases |s| - level, |s| - i
  {
    if i < |s| {
      BranchesInOrder(s, level, i + 1);
      var later := Branches(s, level, i + 1);
      if s[i] == 0 {
        PartialStep(s, level, i);
        var t := s[i := level + 1];
        VisitsInOrder(t, level + 1);
        SidesInOrder(s, level, i);
        OrderConcat(Visits(t, level + 1), later);
      } else {
        assert [] + later == later;
      }
    }
  }

  lemma {:induction false} SidesInOrder(s: seq<int>, level: nat, i: nat)
    requires Partial(s, level) && level < |s| && i < |s| && s[i] == 0
    ensures forall p, q :: p in Visits(s[i := level + 1], level + 1) && q in Branches(s, level, i + 1) ==> Earlier(p, q)
  {
    PartialStep(s, level, i);
    VisitsExactly(s[i := level + 1], level + 1);
    BranchesExactly(s, level, i + 1);
    forall p, q | p in Visits(s[i := level + 1], level + 1) && q in Branches(s, level, i + 1)
      ensures Earlier(p, q)
    {
      SplitAt(p, s, level, i);
      SideEarlier(p, q, s, level, i);
    }
  }

  // ---------------------------------------------------------------------------
  // The quality of an assignment
  // ---------------------------------------------------------------------------

  function Quality(w: Matrix, p: seq<int>, i: nat): nat
    requires |p| == |w| && i < |p| && 1 <= p[i] <= |p|
  {
    w[i][p[i] - 1]
  }

  predicate InRange(p: seq<int>) {
    forall i :: 0 <= i < |p| ==> 1 <= p[i] <= |p|
  }

  /** Pairs that can connect, and the sum of their qualities, among the first `k`. */
  function Cardinality(w: Matrix, p: seq<int>, k: nat): nat
    requires |p| == |w| && InRange(p) && k <= |p|
  {
    if k == 0 then 0 else Cardinality(w, p, k - 1) + (if Quality(w, p, k - 1) > 0 then 1 else 0)
  }

  function Weight(w: Matrix, p: seq<int>, k: nat): nat
    requires |p| == |w| && InRange(p) && k <= |p|
  {
    if k == 0 then 0 else Weight(w, p, k - 1) + Quality(w, p, k - 1)
  }

  /** The pairs that can connect. */
  ghost function Connected(w: Matrix, p: seq<int>, k: nat): set<nat>
    requires |p| == |w| && InRange(p) && k <= |p|
  {
    set i: nat | i < k && Quality(w, p, i) > 0
  }

  /** The sum of the qualities as a set: as many members for every pair as its quality. */
  ghost function Units(w: Matrix, p: seq<int>, k: nat): set<(nat, nat)>
    requires |p| == |w| && InRange(p) && k <= |p|
  {
    set i: nat, u: nat | i < k && u < Quality(w, p, i) :: (i, u)
  }

  ghost function Row(i: nat, n: nat): set<(nat, nat)> {
    set u: nat | u < n :: (i, u)
  }

  lemma {:induction false} RowCount(i: nat, n: nat)
    ensures |Row(i, n)| == n
  {
    if n == 0 {
      assert Row(i, n) == {};
    } else {
      RowCount(i, n - 1);
      assert Row(i, n) == Row(i, n - 1) + {(i, n - 1)};
    }
  }

  lemma {:induction false} WeightCounts(w: Matrix, p: seq<int>, k: nat)
    requires |p| == |w| && InRange(p) && k <= |p|
    ensures |Units(w, p, k)| == Weight(w, p, k)
  {
    if k == 0 {
      assert Units(w, p, k) == {};
    } else {
      WeightCounts(w, p, k - 1);
      RowCount(k - 1, Quality(w, p, k - 1));
      assert Units(w, p, k) == Units(w, p, k - 1) + Row(k - 1, Quality(w, p, k - 1));
    }
  }

  lemma {:induction false} CardinalityCounts(w: Matrix, p: seq<int>, k: nat)
    requires |p| == |w| && InRange(p) && k <= |p|
    ensures |Connected(w, p, k)| == Cardinality(w, p, k)
  {
    if k == 0 {
      assert Connected(w, p, k) == {};
    } else {
      CardinalityCounts(w, p, k - 1);
      var last := if Quality(w, p, k - 1) > 0 then {k - 1} else {};
      assert Connected(w, p, k) == Connected(w, p, k - 1) + last;
    }
  }

  function Raised(w: Matrix, i: nat, j: nat, d: nat): Matrix
    requires i < |w| && j < |w|
  {
    var row: seq<nat> := seq(|w|, k requires 0 <= k < |w| => if k == j then w[i][k] + d else w[i][k]);
    w[i := row]
  }

  /** Every quality counts in full, wherever it is: a matrix of zeros has the total 0, and a larger quality of a
      pair that is used makes the total as much larger, while the others do not count. */
  lemma {:induction false} WeightRaised(w: Matrix, p: seq<int>, i: nat, j: nat, d: nat)
    requires |p| == |w| && InRange(p) && i < |w| && j < |w|
    ensures Weight(Raised(w, i, j, d), p, |p|) == Weight(w, p, |p|) + if p[i] == j + 1 then d else 0
    ensures (forall k :: 0 <= k < |p| ==> Quality(w, p, k) == 0) ==> Weight(w, p, |p|) == 0
  {
    RaisedSoFar(w, p, i, j, d, |p|);
    if forall k :: 0 <= k < |p| ==> Quality(w, p, k) == 0 {
      WeightCounts(w, p, |p|);
      assert Units(w, p, |p|) == {};
    }
  }

  lemma {:induction false} RaisedSoFar(w: Matrix, p: seq<int>, i: nat, j: nat, d: nat, k: nat)
    requires |p| == |w| && InRange(p) && i < |w| && j < |w| && k <= |p|
    ensures Weight(Raised(w, i, j, d), p, k) == Weight(w, p, k) + if i < k && p[i] == j + 1 then d else 0
  {
    if k > 0 {
      RaisedSoFar(w, p, i, j, d, k - 1);
    }
  }

  /** best_assignment, max_assignment_cardinality and max_assignment_weight. */
  datatype Best = Best(assignment: seq<int>, cardinality: int, weight: int)

  predicate Beats(c: int, v: int, b: Best) {
    c > b.cardinality || (c == b.cardinality && v > b.weight)
  }

  function Improve(w: Matrix, b: Best, p: seq<int>): Best
    requires |p| == |w| && InRange(p)
  {
    var (c, v) := (Cardinality(w, p, |p|), Weight(w, p, |p|));
    if Beats(c, v, b) then Best(seq(|p|, i requires 0 <= i < |p| => p[i] - 1), c, v) else b
  }

  ghost predicate AllInRange(w: Matrix, ps: seq<seq<int>>) {
    forall k :: 0 <= k < |ps| ==> |ps[k]| == |w| && InRange(ps[k])
  }

  function Fold(w: Matrix, b: Best, ps: seq<seq<int>>): Best
    requires AllInRange(w, ps)
    decreases |ps|
  {
    if ps == [] then b else Fold(w, Improve(w, b, ps[0]), ps[1..])
  }

  lemma {:induction false} FoldConcat(w: Matrix, b: Best, ps: seq<seq<int>>, qs: seq<seq<int>>)
    requires AllInRange(w, ps) && AllInRange(w, qs)
    ensures AllInRange(w, ps + qs) && Fold(w, b, ps + qs) == Fold(w, Fold(w, b, ps), qs)
    decreases |ps|
  {
    if ps == [] {
      assert ps + qs == qs;
    } else {
      FoldConcat(w, Improve(w, b, ps[0]), ps[1..], qs);
      assert (ps + qs)[1..] == ps[1..] + qs;
    }
  }

  /** `b` is the quality of `p`, as the search records it. */
  ghost predicate Records(w: Matrix, b: Best, p: seq<int>) {
    && |p| == |w| && InRange(p) && |b.assignment| == |p|
    && (forall i :: 0 <= i < |p| ==> b.assignment[i] == p[i] - 1)
    && b.cardinality == |Connected(w, p, |p|)| && b.weight == |Units(w, p, |p|)|
  }

  /** `p` connects no more pairs than `b`, and if as many, then not better. */
  ghost predicate NotBeaten(w: Matrix, b: Best, p: seq<int>) {
    && |p| == |w| && InRange(p)
    && (|Connected(w, p, |p|)| < b.cardinality
        || (|Connected(w, p, |p|)| == b.cardinality && |Units(w, p, |p|)| <= b.weight))
  }

  lemma {:induction false} ImproveIsBest(w: Matrix, b: Best, p: seq<int>)
    requires |p| == |w| && InRange(p)
    ensures Records(w, Improve(w, b, p), p) || Improve(w, b, p) == b
    ensures NotBeaten(w, Improve(w, b, p), p) && AtLeast(Improve(w, b, p), b)
  {
    CardinalityCounts(w, p, |p|);
    WeightCounts(w, p, |p|);
  }

  lemma {:induction false} StaysUnbeaten(w: Matrix, b: Best, p: seq<int>, better: Best)
    requires NotBeaten(w, b, p) && AtLeast(better, b)
    ensures NotBeaten(w, better, p)
  {
  }

  ghost predicate AtLeast(b: Best, a: Best) {
    b == a || Beats(b.cardinality, b.weight, a)
  }

  ghost predicate Below(w: Matrix, b: Best, p: seq<int>) {
    && |p| == |w| && InRange(p)
    && (|Connected(w, p, |p|)| < b.cardinality
        || (|Connected(w, p, |p|)| == b.cardinality && |Units(w, p, |p|)| < b.weight))
  }

  /** `b` is the quality of `ps[k]`, and all before it are worse. */
  ghost predicate RecordsFirst(w: Matrix, b: Best, ps: seq<seq<int>>, k: nat) {
    k < |ps| && Records(w, b, ps[k]) && forall j :: 0 <= j < k ==> Below(w, b, ps[j])
  }

  lemma {:induction false} RecordsLater(w: Matrix, b: Best, ps: seq<seq<int>>, k: nat)
    requires ps != [] && RecordsFirst(w, b, ps[1..], k) && Below(w, b, ps[0])
    ensures RecordsFirst(w, b, ps, k + 1)
  {
    forall j | 0 <= j < k + 1
      ensures Below(w, b, ps[j])
    {
      assert j > 0 ==> ps[j] == ps[1..][j - 1];
    }
  }

  /** Folding keeps the first of the best: the start, or one of `ps`, beaten by none. */
  lemma {:induction false} FoldIsBest(w: Matrix, b: Best, ps: seq<seq<int>>)
    requires AllInRange(w, ps)
    ensures Fold(w, b, ps) == b || exists k: nat :: RecordsFirst(w, Fold(w, b, ps), ps, k)
    ensures forall k :: 0 <= k < |ps| ==> NotBeaten(w, Fold(w, b, ps), ps[k])
    ensures AtLeast(Fold(w, b, ps), b)
    decreases |ps|
  {
    if ps != [] {
      var next := Improve(w, b, ps[0]);
      FoldIsBest(w, next, ps[1..]);
      var end := Fold(w, b, ps);
      ImproveIsBest(w, b, ps[0]);
      if end == next {
        assert next != b ==> RecordsFirst(w, end, ps, 0);
      } else {
        var k: nat :| RecordsFirst(w, end, ps[1..], k);
        RecordsLater(w, end, ps, k);
      }
      forall k | 0 <= k < |ps|
        ensures NotBeaten(w, end, ps[k])
      {
        if k > 0 {
          assert ps[k] == ps[1..][k - 1];
        } else {
          StaysUnbeaten(w, next, ps[0], end);
        }
      }
    }
  }

  class Search {
    const weights: Matrix
    /** The work array `a`. */
    const a: array<int>
    var best: Best
    /** The assignments evaluated so far. */
    ghost var evaluated: seq<seq<int>>

    constructor (weights: Matrix)
      ensures fresh(a) && a.Length == |weights| && this.weights == weights && evaluated == []
      ensures best == Best([], -1, -1)
      ensures forall i :: 0 <= i < a.Length ==> a[i] == 0
    {
      this.weights := weights;
      a := new int[|weights|](_ => 0);
      best := Best([], -1, -1);
      evaluated := [];
    }

    /** evaluate_assignment */
    method EvaluateAssignment()
      requires a.Length == |weights| && InRange(a[..])
      modifies this`best, this`evaluated
      ensures best == Improve(weights, old(best), a[..]) && evaluated == old(evaluated) + [a[..]]
      ensures Records(weights, best, a[..]) || best == old(best)
      ensures NotBeaten(weights, best, a[..]) && AtLeast(best, old(best))
    {
      var p := a[..];
      var cardinality, weight := 0, 0;
      for i := 0 to a.Length
        invariant cardinality == Cardinality(weights, p, i) && weight == Weight(weights, p, i)
      {
        assert 1 <= p[i] <= |p|;
        if 0 < weights[i][a[i] - 1] {
          cardinality := cardinality + 1;
          weight := weight + weights[i][a[i] - 1];
        }
      }
      if cardinality > best.cardinality || (cardinality == best.cardinality && weight > best.weight) {
        best := Best(seq(a.Length, i requires 0 <= i < a.Length reads a => a[i] - 1), cardinality, weight);
        assert best.assignment == seq(|p|, i requires 0 <= i < |p| => p[i] - 1);
      }
      evaluated := evaluated + [a[..]];
      ImproveIsBest(weights, old(best), p);
    }

    /** visit: marks position `k` with the next level, visits everything below, unmarks it. */
    method Visit(k: nat, above: int)
      requires a.Length == |weights| && k < a.Length && a[k] == 0 && -1 <= above
      requires Partial(a[..][k := above + 1], above + 1)
      modifies a, this`best, this`evaluated
      ensures a[..] == old(a[..])
      ensures evaluated == old(evaluated) + Visits(old(a[..])[k := above + 1], above + 1)
      ensures AllInRange(weights, Visits(old(a[..])[k := above + 1], above + 1))
      ensures best == Fold(weights, old(best), Visits(old(a[..])[k := above + 1], above + 1))
      decreases a.Length - above, 0
    {
      var level: nat := above + 1;
      ghost var start := a[..];
      a[k] := level;
      ghost var s := start[k := level];
      assert a[..] == s;
      InRangeVisits(weights, s, level);
      if level == a.Length {
        NoZeros(s);
        EvaluateAssignment();
        assert Visits(s, level) == [s];
      } else {
        var i := 0;
        while i < a.Length
          invariant i <= a.Length && a[..] == s
          invariant evaluated + Branches(s, level, i) == old(evaluated) + Visits(s, level)
          invariant AllInRange(weights, Branches(s, level, i))
          invariant Fold(weights, best, Branches(s, level, i)) == Fold(weights, old(best), Visits(s, level))
        {
          TryPosition(i, level);
          i := i + 1;
        }
        assert Branches(s, level, i) == [];
      }
      a[k] := 0;
      assert a[..] == start;
    }

    /** One turn of the loop in visit. */
    method TryPosition(i: nat, level: nat)
      requires a.Length == |weights| && Partial(a[..], level) && level < a.Length && i < a.Length
      requires AllInRange(weights, Branches(a[..], level, i))
      modifies a, this`best, this`evaluated
      ensures a[..] == old(a[..])
      ensures evaluated + Branches(a[..], level, i + 1) == old(evaluated) + Branches(a[..], level, i)
      ensures AllInRange(weights, Branches(a[..], level, i + 1))
      ensures Fold(weights, best, Branches(a[..], level, i + 1)) == Fold(weights, old(best), Branches(a[..], level, i))
      decreases a.Length - level, 1
    {
      ghost var s := a[..];
      ghost var later := Branches(s, level, i + 1);
      if a[i] == 0 {
        PartialStep(s, level, i);
        ghost var here := Visits(s[i := level + 1], level + 1);
        assert Branches(s, level, i) == here + later;
        InRangeSplit(weights, here, later);
        FoldConcat(weights, best, here, later);
        Visit(i, level);
        assert evaluated + later == old(evaluated) + (here + later);
      } else {
        assert Branches(s, level, i) == [] + later == later;
      }
    }

    /** The root call: position 0 at level -1, so that nothing is marked. */
    method FindBest()
      requires a.Length == |weights| > 0 && best == Best([], -1, -1) && evaluated == []
      requires forall i :: 0 <= i < a.Length ==> a[i] == 0
      modifies a, this`best, this`evaluated
      ensures forall i :: 0 <= i < a.Length ==> a[i] == 0
      ensures forall p :: p in evaluated <==> Permutation(p) && |p| == |weights|
      ensures Distinct(evaluated)
      ensures best == TheBest(weights)
      ensures exists p :: Permutation(p) && Records(weights, best, p)
      ensures forall p :: Permutation(p) && |p| == |weights| ==> NotBeaten(weights, best, p)
    {
      ghost var s := a[..];
      assert s == Unassigned(|weights|);
      NoZeros(s);
      assert s[0 := 0] == s;
      Visit(0, -1);
      WholeSearch(weights, s);
      assert evaluated == Visits(s, 0);
    }
  }

  function Unassigned(n: nat): seq<int> {
    seq(n, _ => 0)
  }

  /** What the search finds, as a function of the qualities: the first, in the order of the visits,
      of the assignments that no other beats. */
  function TheBest(w: Matrix): Best {
    NoZeros(Unassigned(|w|));
    InRangeVisits(w, Unassigned(|w|), 0);
    Fold(w, Best([], -1, -1), Visits(Unassigned(|w|), 0))
  }

  function Upwards(p: seq<int>): seq<int> {
    seq(|p|, i requires 0 <= i < |p| => p[i] + 1)
  }

  /** That assignment, as a permutation. */
  function Assigned(w: Matrix): (p: seq<int>)
    ensures Permutation(p) && |p| == |w|
  {
    AssignedIsBest(w);
    Upwards(TheBest(w).assignment)
  }

  ghost predicate Recorded(w: Matrix, b: Best) {
    exists p :: Permutation(p) && Records(w, b, p)
  }

  lemma {:induction false} BestRecorded(w: Matrix)
    ensures Recorded(w, TheBest(w))
  {
    NoZeros(Unassigned(|w|));
    WholeSearch(w, Unassigned(|w|));
  }

  lemma {:induction false} RecordedOne(w: Matrix, b: Best)
    requires Recorded(w, b)
    ensures Permutation(Upwards(b.assignment)) && Records(w, b, Upwards(b.assignment))
  {
    var q :| Permutation(q) && Records(w, b, q);
    assert Upwards(b.assignment) == q;
  }

  lemma {:induction false} AssignedIsBest(w: Matrix)
    ensures var p := Upwards(TheBest(w).assignment);
            Permutation(p) && |p| == |w| && Records(w, TheBest(w), p)
  {
    BestRecorded(w);
    RecordedOne(w, TheBest(w));
  }

  lemma {:induction false} AssignedUnbeaten(w: Matrix, q: seq<int>)
    requires Permutation(q) && |q| == |w|
    ensures Unbeaten(w, Assigned(w), q)
  {
    NoZeros(Unassigned(|w|));
    WholeSearch(w, Unassigned(|w|));
    AssignedIsBest(w);
    assert NotBeaten(w, TheBest(w), q);
  }

  /** Of several best assignments the search finds the one it visits first. */
  lemma {:induction false} AssignedFirst(w: Matrix, q: seq<int>)
    requires Permutation(q) && |q| == |w| && q != Assigned(w) && Unbeaten(w, q, Assigned(w))
    ensures Earlier(Assigned(w), q)
  {
    var s := Unassigned(|w|);
    NoZeros(s);
    WholeSearch(w, s);
    AssignedIsBest(w);
    VisitsInOrder(s, 0);
    BestFirst(w, Visits(s, 0), TheBest(w), Assigned(w), q);
  }

  lemma {:induction false} BestFirst(w: Matrix, all: seq<seq<int>>, end: Best, p: seq<int>, q: seq<int>)
    requires AllInRange(w, all) && InOrder(all) && end == Fold(w, Best([], -1, -1), all)
    requires Records(w, end, p) && q in all && q != p && Unbeaten(w, q, p)
    ensures Earlier(p, q)
  {
    FoldIsBest(w, Best([], -1, -1), all);
    assert end != Best([], -1, -1);
    var k: nat :| RecordsFirst(w, end, all, k);
    OneRecorded(w, end, p, all[k]);
    NotBelow(w, end, p, q);
    var j :| 0 <= j < |all| && all[j] == q;
  }

  lemma {:induction false} OneRecorded(w: Matrix, b: Best, p: seq<int>, q: seq<int>)
    requires Records(w, b, p) && Records(w, b, q)
    ensures p == q
  {
  }

  lemma {:induction false} NotBelow(w: Matrix, b: Best, p: seq<int>, q: seq<int>)
    requires Records(w, b, p) && Unbeaten(w, q, p)
    ensures !Below(w, b, q)
  {
  }

  lemma {:induction false} IdentityPermutes(n: nat)
    ensures Permutation(seq(n, i => i + 1))
  {
    var p := seq(n, i => i + 1);
    forall v | 1 <= v <= n
      ensures Occurs(p, v)
    {
      assert p[v - 1] == v;
    }
  }

  /** From an empty work array the recursion evaluates every permutation, once, and what it
      records is one of them that none of them beats. */
  lemma {:induction false} WholeSearch(w: Matrix, s: seq<int>)
    requires |s| == |w| && Partial(s, 0)
    ensures AllInRange(w, Visits(s, 0)) && Distinct(Visits(s, 0))
    ensures forall p :: p in Visits(s, 0) <==> Permutation(p) && |p| == |w|
    ensures exists p :: Permutation(p) && Records(w, Fold(w, Best([], -1, -1), Visits(s, 0)), p)
    ensures forall p :: Permutation(p) && |p| == |w| ==> NotBeaten(w, Fold(w, Best([], -1, -1), Visits(s, 0)), p)
  {
    NoZeros(s);
    VisitsExactly(s, 0);
    InRangeVisits(w, s, 0);
    var all := Visits(s, 0);
    var end := Fold(w, Best([], -1, -1), all);
    FoldIsBest(w, Best([], -1, -1), all);
    forall p | Permutation(p) && |p| == |w|
      ensures NotBeaten(w, end, p)
    {
      assert p in all;
      var k :| 0 <= k < |all| && all[k] == p;
      assert NotBeaten(w, end, all[k]);
    }
    IdentityPermutes(|w|);
    var some := seq(|w|, i => i + 1);
    assert NotBeaten(w, end, some);
    var k: nat :| RecordsFirst(w, end, all, k);
    assert all[k] in all;
  }

  lemma InRangeSplit(w: Matrix, ps: seq<seq<int>>, qs: seq<seq<int>>)
    requires AllInRange(w, ps + qs)
    ensures AllInRange(w, ps) && AllInRange(w, qs)
  {
    forall k | 0 <= k < |qs|
      ensures |qs[k]| == |w| && InRange(qs[k])
    {
      assert qs[k] == (ps + qs)[|ps| + k];
    }
    assert forall k :: 0 <= k < |ps| ==> ps[k] == (ps + qs)[k];
  }

  lemma InRangeVisits(w: Matrix, s: seq<int>, level: nat)
    requires Partial(s, level) && |s| == |w|
    ensures AllInRange(w, Visits(s, level))
  {
    VisitsExactly(s, level);
    forall k | 0 <= k < |Visits(s, level)|
      ensures |Visits(s, level)[k]| == |w| && InRange(Visits(s, level)[k])
    {
      assert Visits(s, level)[k] in Visits(s, level);
    }
  }

  // ---------------------------------------------------------------------------
  // Choosing one connection
  // ---------------------------------------------------------------------------

  const MAX_PERMUTATION_INTERFACES := 8

  datatype Choice = Unreachable | Chosen(local: nat, peer: nat)

  /** Only the first `locals` rows and `peers` columns can hold a connection. */
  predicate Padded(w: Matrix, locals: nat, peers: nat) {
    && |w| == (if locals > peers then locals else peers)
    && forall i, j :: 0 <= i < |w| && 0 <= j < |w| && w[i][j] > 0 ==> i < locals && j < peers
  }

  /** Local interface `i` can use its partner `j`. */
  predicate Usable(w: Matrix, inuse: seq<nat>, i: nat, j: nat) {
    i < |w| && j < |w| && w[i][j] > 0 && j < |inuse| && inuse[j] == 0
  }

  /** btl_tcp2_proc.c, lines 597 to 610: the first local interface whose partner in the best assignment is not
      in use. The bound check of the source admits one index too many; the quality 0 there stops
      it before the peer table is read. */
  method ChooseAssigned(w: Matrix, best: seq<int>, ghost locals: nat, peers: nat, inuse: array<nat>) returns (c: Choice)
    requires Padded(w, locals, peers) && inuse.Length == peers
    requires |best| == |w| && forall i :: 0 <= i < |best| ==> 0 <= best[i] < |w|
    modifies inuse
    ensures c.Unreachable? ==> inuse[..] == old(inuse[..]) && forall i :: 0 <= i < |w| ==> !Usable(w, old(inuse[..]), i, best[i])
    ensures c.Chosen? ==>
              && c.local < |w| && c.peer == best[c.local] && Usable(w, old(inuse[..]), c.local, c.peer)
              && (forall i :: 0 <= i < c.local ==> !Usable(w, old(inuse[..]), i, best[i]))
              && inuse[..] == old(inuse[..])[c.peer := 1]
  {
    var i := 0;
    while i < |w|
      invariant i <= |w| && inuse[..] == old(inuse[..])
      invariant forall k :: 0 <= k < i ==> !Usable(w, old(inuse[..]), k, best[k])
    {
      var j := best[i];
      if !(j > peers || w[i][j] == 0 || inuse[j] != 0) {
        inuse[j] := inuse[j] + 1;
        return Chosen(i, j);
      }
      i := i + 1;
    }
    return Unreachable;
  }

  /** btl_tcp2_proc.c, lines 612 to 637: beyond MAX_PERMUTATION_INTERFACES, the first of the best pairs whose
      peer is not in use. */
  method ChooseGreedily(w: Matrix, locals: nat, peers: nat, inuse: array<nat>) returns (c: Choice)
    requires Padded(w, locals, peers) && inuse.Length == peers
    modifies inuse
    ensures c.Unreachable? ==> inuse[..] == old(inuse[..]) && forall i: nat, j: nat :: !Usable(w, old(inuse[..]), i, j)
    ensures c.Chosen? ==>
              && Usable(w, old(inuse[..]), c.local, c.peer)
              && (forall i: nat, j: nat :: Usable(w, old(inuse[..]), i, j) ==> w[i][j] <= w[c.local][c.peer])
              && (forall i: nat, j: nat :: Usable(w, old(inuse[..]), i, j) && (i < c.local || (i == c.local && j < c.peer)) ==>
                    w[i][j] < w[c.local][c.peer])
              && inuse[..] == old(inuse[..])[c.peer := 1]
  {
    var max, iMax, jMax := 0, 0, 0;
    for i := 0 to locals
      invariant inuse[..] == old(inuse[..])
      invariant max > 0 ==> Usable(w, inuse[..], iMax, jMax) && w[iMax][jMax] == max
      invariant forall k: nat, l: nat :: Usable(w, inuse[..], k, l) && (k < iMax || (k == iMax && l < jMax)) ==> w[k][l] < max
      invariant forall k: nat, j: nat :: k < i && Usable(w, inuse[..], k, j) ==> w[k][j] <= max
    {
      for j := 0 to peers
        invariant inuse[..] == old(inuse[..])
        invariant max > 0 ==> Usable(w, inuse[..], iMax, jMax) && w[iMax][jMax] == max
        invariant forall k: nat, l: nat :: Usable(w, inuse[..], k, l) && (k < iMax || (k == iMax && l < jMax)) ==> w[k][l] < max
        invariant forall k: nat, l: nat :: k < i && Usable(w, inuse[..], k, l) ==> w[k][l] <= max
        invariant forall l: nat :: l < j && Usable(w, inuse[..], i, l) ==> w[i][l] <= max
      {
        if inuse[j] == 0 {
          if w[i][j] > max {
            max, iMax, jMax := w[i][j], i, j;
          }
        }
      }
    }
    assert forall k: nat, l: nat :: Usable(w, inuse[..], k, l) ==> k < locals;
    if max == 0 {
      return Unreachable;
    }
    inuse[jMax] := inuse[jMax] + 1;
    return Chosen(iMax, jMax);
  }

  /** The first local interface whose partner is usable, from `i` on. */
  function FirstUsable(w: Matrix, inuse: seq<nat>, p: seq<int>, i: nat): Choice
    requires |p| == |w| && InRange(p) && i <= |p|
    decreases |p| - i
  {
    if i == |p| then Unreachable
    else if Usable(w, inuse, i, p[i] - 1) then Chosen(i, p[i] - 1)
    else FirstUsable(w, inuse, p, i + 1)
  }

  lemma {:induction false} FirstUsableChosen(w: Matrix, inuse: seq<nat>, p: seq<int>, i: nat)
    requires |p| == |w| && InRange(p) && i <= |p|
    ensures FirstUsable(w, inuse, p, i).Chosen? <==> exists k :: i <= k < |w| && Usable(w, inuse, k, p[k] - 1)
    decreases |p| - i
  {
    if i < |p| && !Usable(w, inuse, i, p[i] - 1) {
      FirstUsableChosen(w, inuse, p, i + 1);
    }
  }

  lemma {:induction false} FirstUsableIs(w: Matrix, inuse: seq<nat>, p: seq<int>, i: nat, c: Choice)
    requires |p| == |w| && InRange(p) && i <= |p|
    requires c.Unreachable? ==> forall k :: i <= k < |p| ==> !Usable(w, inuse, k, p[k] - 1)
    requires c.Chosen? ==> i <= c.local < |p| && c.peer == p[c.local] - 1 && Usable(w, inuse, c.local, c.peer)
    requires c.Chosen? ==> forall k :: i <= k < c.local ==> !Usable(w, inuse, k, p[k] - 1)
    ensures FirstUsable(w, inuse, p, i) == c
    decreases |p| - i
  {
    if i < |p| && !Usable(w, inuse, i, p[i] - 1) {
      FirstUsableIs(w, inuse, p, i + 1, c);
    }
  }

  function Busy(inuse: seq<nat>): set<nat> {
    set j: nat | j < |inuse| && inuse[j] != 0
  }

  /** The peers that the first `k` pairs of an assignment connect to. */
  function Partners(w: Matrix, p: seq<int>, k: nat): set<nat>
    requires |p| == |w| && InRange(p) && k <= |p|
  {
    set i: nat | i < k && Quality(w, p, i) > 0 :: (p[i] - 1) as nat
  }

  lemma {:induction false} PartnersCount(w: Matrix, p: seq<int>, k: nat)
    requires |p| == |w| && InRange(p) && Injective(p) && k <= |p|
    ensures |Partners(w, p, k)| == Cardinality(w, p, k)
  {
    if k > 0 {
      PartnersCount(w, p, k - 1);
      NextPartner(w, p, k);
    }
  }

  lemma {:induction false} NextPartner(w: Matrix, p: seq<int>, k: nat)
    requires |p| == |w| && InRange(p) && Injective(p) && 0 < k <= |p|
    ensures |Partners(w, p, k)| == |Partners(w, p, k - 1)| + (if Quality(w, p, k - 1) > 0 then 1 else 0)
  {
    var (before, last) := (Partners(w, p, k - 1), p[k - 1] - 1);
    if Quality(w, p, k - 1) > 0 {
      NewPartner(w, p, k);
      Adjoined(before, last, Partners(w, p, k));
    } else {
      assert Partners(w, p, k) == before;
    }
  }

  lemma {:induction false} NewPartner(w: Matrix, p: seq<int>, k: nat)
    requires |p| == |w| && InRange(p) && Injective(p) && 0 < k <= |p| && Quality(w, p, k - 1) > 0
    ensures p[k - 1] - 1 !in Partners(w, p, k - 1)
    ensures Partners(w, p, k) == Partners(w, p, k - 1) + {p[k - 1] - 1}
  {
  }

  lemma {:induction false} Adjoined(a: set<nat>, x: nat, b: set<nat>)
    requires x !in a && b == a + {x}
    ensures |b| == |a| + 1
  {
  }

  lemma {:induction false} FewerOrAsMany<T>(a: set<T>, b: set<T>)
    requires a <= b
    ensures |a| <= |b|
  {
    assert b == a + (b - a);
  }

  /** A usable pair is chosen unless every peer that the assignment connects to is in use; so
      one is found whenever fewer peers are in use than some assignment connects. */
  lemma {:induction false} EnoughPeers(w: Matrix, locals: nat, inuse: seq<nat>, q: seq<int>)
    requires Padded(w, locals, |inuse|) && Permutation(q) && |q| == |w| && |Connected(w, q, |q|)| > |Busy(inuse)|
    ensures exists i :: 0 <= i < |w| && Usable(w, inuse, i, Assigned(w)[i] - 1)
  {
    var p := Assigned(w);
    AssignedUnbeaten(w, q);
    PartnersCount(w, p, |p|);
    CardinalityCounts(w, p, |p|);
    if !(exists i :: 0 <= i < |w| && Usable(w, inuse, i, p[i] - 1)) {
      forall j | j in Partners(w, p, |p|)
        ensures j in Busy(inuse)
      {
        var i: nat :| i < |p| && Quality(w, p, i) > 0 && p[i] - 1 == j;
        assert !Usable(w, inuse, i, p[i] - 1);
      }
      FewerOrAsMany(Partners(w, p, |p|), Busy(inuse));
    }
  }

  /** The branch for few interfaces. */
  method SearchAndChoose(w: Matrix, ghost locals: nat, peers: nat, inuse: array<nat>) returns (c: Choice)
    requires Padded(w, locals, peers) && inuse.Length == peers && |w| > 0
    modifies inuse
    ensures c == FirstUsable(w, old(inuse[..]), Assigned(w), 0)
    ensures c.Chosen? ==> Usable(w, old(inuse[..]), c.local, c.peer) && inuse[..] == old(inuse[..])[c.peer := 1]
    ensures c.Unreachable? ==> inuse[..] == old(inuse[..])
  {
    ghost var before := inuse[..];
    var search := new Search(w);
    search.FindBest();
    AssignedIsBest(w);
    c := ChooseAssigned(w, search.best.assignment, locals, peers, inuse);
    FirstUsableIs(w, before, Assigned(w), 0, c);
  }

  /** The second half of mca_btl_tcp2_proc_insert. With few interfaces the first usable pair of
      the assignment that the search finds is chosen, so one is chosen if and only if that
      assignment has one; with many it is the best free pair, if there is any. */
  method Insert(w: Matrix, locals: nat, peers: nat, inuse: array<nat>) returns (c: Choice)
    requires Padded(w, locals, peers) && inuse.Length == peers && locals > 0
    modifies inuse
    ensures c.Chosen? ==> Usable(w, old(inuse[..]), c.local, c.peer) && inuse[..] == old(inuse[..])[c.peer := 1]
    ensures c.Unreachable? ==> inuse[..] == old(inuse[..])
    ensures |w| <= MAX_PERMUTATION_INTERFACES ==> c == FirstUsable(w, old(inuse[..]), Assigned(w), 0)
    ensures forall q :: Permutation(q) && |q| == |w| ==> Unbeaten(w, Assigned(w), q)
    ensures |w| <= MAX_PERMUTATION_INTERFACES ==>
              (c.Chosen? <==> exists i :: 0 <= i < |w| && Usable(w, old(inuse[..]), i, Assigned(w)[i] - 1))
    ensures |w| > MAX_PERMUTATION_INTERFACES ==> (c.Chosen? <==> exists i: nat, j: nat :: Usable(w, old(inuse[..]), i, j))
    ensures |w| > MAX_PERMUTATION_INTERFACES ==> forall i: nat, j: nat :: Usable(w, old(inuse[..]), i, j) ==>
              c.Chosen? && w[i][j] <= w[c.local][c.peer]
    ensures forall q :: Permutation(q) && |q| == |w| && |Connected(w, q, |q|)| > |Busy(old(inuse[..]))| ==> c.Chosen?
  {
    ghost var before := inuse[..];
    if |w| <= MAX_PERMUTATION_INTERFACES {
      c := SearchAndChoose(w, locals, peers, inuse);
      FirstUsableChosen(w, before, Assigned(w), 0);
    } else {
      c := ChooseGreedily(w, locals, peers, inuse);
    }
    forall q | Permutation(q) && |q| == |w|
      ensures Unbeaten(w, Assigned(w), q)
    {
      AssignedUnbeaten(w, q);
    }
    forall q | Permutation(q) && |q| == |w| && |Connected(w, q, |q|)| > |Busy(before)|
      ensures c.Chosen?
    {
      EnoughPeers(w, locals, before, q);
    }
  }

  /** `q` does not beat `p`: it connects fewer pairs, or as many of no better quality. */
  ghost predicate Unbeaten(w: Matrix, p: seq<int>, q: seq<int>) {
    && |p| == |q| == |w| && InRange(p) && InRange(q)
    && var (c, d) := (|Connected(w, p, |p|)|, |Connected(w, q, |q|)|);
       d < c || (d == c && |Units(w, q, |q|)| <= |Units(w, p, |p|)|)
  }

  /** The search does not look at which peers are in use, so a usable pair can be missed: one
      local interface, two peers, the better one in use. */
  lemma {:induction false} FreePeerMissed()
    ensures var w: Matrix := [[4, 1], [0, 0]];
            FirstUsable(w, [1, 0], Assigned(w), 0) == Unreachable && Usable(w, [1, 0], 0, 1)
  {
    var w: Matrix := [[4, 1], [0, 0]];
    var (p, q) := (Assigned(w), [1, 2]);
    assert q[0] == 1 && q[1] == 2;
    assert Occurs(q, 1) && Occurs(q, 2);
    assert Permutation(q);
    AssignedUnbeaten(w, q);
    Totals(w, p);
    Totals(w, q);
    assert p[0] == 1;
    FirstUsableIs(w, [1, 0], p, 0, Unreachable);
  }

  lemma Totals(w: Matrix, p: seq<int>)
    requires |p| == |w| == 2 && InRange(p)
    ensures |Units(w, p, 2)| == Quality(w, p, 0) + Quality(w, p, 1)
    ensures |Connected(w, p, 2)| == (if Quality(w, p, 0) > 0 then 1 else 0) + (if Quality(w, p, 1) > 0 then 1 else 0)
  {
    WeightCounts(w, p, 2);
    CardinalityCounts(w, p, 2);
    assert Weight(w, p, 1) == Weight(w, p, 0) + Quality(w, p, 0);
    assert Cardinality(w, p, 1) == Cardinality(w, p, 0) + (if Quality(w, p, 0) > 0 then 1 else 0);
  }
}
