/** The tracker of received sequence numbers: a sorted list of ranges with a moving cursor, used
    as a set of 32-bit numbers. */
module SeqTracker {

  const MODULUS := 0x1_0000_0000

  type Id = x: int | 0 <= x < MODULUS

  datatype Range = Range(low: Id, high: Id)

  /** uint32_t arithmetic wraps. */
  function Inc(x: Id): Id {
    if x == MODULUS - 1 then 0 else x + 1
  }

  function Dec(x: Id): Id {
    if x == 0 then MODULUS - 1 else x - 1
  }

  predicate In(r: Range, x: int) {
    r.low <= x <= r.high
  }

  predicate Covers(rs: seq<Range>, x: int) {
    exists k :: 0 <= k < |rs| && In(rs[k], x)
  }

  /** Non-empty ranges, in order, disjoint and not touching. */
  predicate Apart(rs: seq<Range>) {
    && (forall k :: 0 <= k < |rs| ==> rs[k].low <= rs[k].high)
    && (forall i, j :: 0 <= i < j < |rs| ==> rs[i].high + 1 < rs[j].low)
  }

  /** The sequence numbers a list of ranges stands for. */
  ghost function Members(rs: seq<Range>): set<int> {
    set x: int | 0 <= x < MODULUS && Covers(rs, x)
  }

  /** Where the wrap-around of `high + 1` or `low - 1` at the cursor makes an insertion go
      wrong: 0 next to a range that ends at the largest number, or the largest number next to a
      range that begins at 0. */
  predicate Wraps(rs: seq<Range>, current: nat, id: Id) {
    && current < |rs|
    && var c := rs[current];
       || (id == 0 && c.high == MODULUS - 1 && c.low > 0)
       || (id == MODULUS - 1 && c.low == 0 && c.high < MODULUS - 2)
  }

  /** Some range from position `i` to before `j` has `x`. */
  predicate Within(rs: seq<Range>, i: nat, j: nat, x: int)
    requires i <= j <= |rs|
  {
    exists k :: i <= k < j && In(rs[k], x)
  }

  function Splice(rs: seq<Range>, i: nat, j: nat, r: Range): seq<Range>
    requires i <= j <= |rs|
  {
    rs[..i] + [r] + rs[j..]
  }

  lemma SpliceAt(rs: seq<Range>, i: nat, j: nat, r: Range, k: nat)
    requires i <= j <= |rs| && k < |Splice(rs, i, j, r)|
    ensures Splice(rs, i, j, r)[k] == if k < i then rs[k] else if k == i then r else rs[k + j - i - 1]
  {
  }

  lemma {:induction false} SpliceCovers(rs: seq<Range>, i: nat, j: nat, r: Range, x: int)
    requires i <= j <= |rs|
    ensures Covers(Splice(rs, i, j, r), x) <==> Within(rs, 0, i, x) || In(r, x) || Within(rs, j, |rs|, x)
  {
    var out := Splice(rs, i, j, r);
    if Covers(out, x) {
      var k :| 0 <= k < |out| && In(out[k], x);
      SpliceAt(rs, i, j, r, k);
    }
    if k :| 0 <= k < i && In(rs[k], x) {
      SpliceAt(rs, i, j, r, k);
    }
    if In(r, x) {
      SpliceAt(rs, i, j, r, i);
    }
    if k :| j <= k < |rs| && In(rs[k], x) {
      SpliceAt(rs, i, j, r, k - j + i + 1);
    }
  }

  lemma {:induction false} CoversSplit(rs: seq<Range>, i: nat, j: nat, x: int)
    requires i <= j <= |rs|
    ensures Covers(rs, x) <==> Within(rs, 0, i, x) || Within(rs, i, j, x) || Within(rs, j, |rs|, x)
  {
    if k :| 0 <= k < |rs| && In(rs[k], x) {
      assert if k < i then Within(rs, 0, i, x) else if k < j then Within(rs, i, j, x) else Within(rs, j, |rs|, x);
    }
  }

  lemma {:induction false} SpliceApart(rs: seq<Range>, i: nat, j: nat, r: Range)
    requires Apart(rs) && i <= j <= |rs| && Fits(rs, i, j, r)
    ensures Apart(Splice(rs, i, j, r))
  {
    var out := Splice(rs, i, j, r);
    forall k | 0 <= k < |out|
      ensures out[k].low <= out[k].high
    {
      SpliceAt(rs, i, j, r, k);
    }
    forall k, l | 0 <= k < l < |out|
      ensures out[k].high + 1 < out[l].low
    {
      SpliceAt(rs, i, j, r, k);
      SpliceAt(rs, i, j, r, l);
    }
  }

  /** `r` is not empty and does not touch what is left and right of the replaced ranges. */
  predicate Fits(rs: seq<Range>, i: nat, j: nat, r: Range)
    requires i <= j <= |rs|
  {
    && r.low <= r.high
    && (i > 0 ==> rs[i - 1].high + 1 < r.low)
    && (j < |rs| ==> r.high + 1 < rs[j].low)
  }

  /** `r` has the numbers of the replaced ranges, and `id`. */
  ghost predicate Joins(rs: seq<Range>, i: nat, j: nat, r: Range, id: Id)
    requires i <= j <= |rs|
  {
    forall x: int :: In(r, x) <==> x == id || Within(rs, i, j, x)
  }

  /** The replacements the tracker makes: nothing, one range or two become one. */
  lemma {:induction false} JoinsNone(rs: seq<Range>, i: nat, id: Id)
    requires i <= |rs|
    ensures Joins(rs, i, i, Range(id, id), id)
  {
  }

  lemma {:induction false} JoinsOne(rs: seq<Range>, i: nat, r: Range, id: Id)
    requires i < |rs| && rs[i].low <= rs[i].high
    requires (r == Range(rs[i].low, id) && id == rs[i].high + 1) || (r == Range(id, rs[i].high) && id == rs[i].low - 1)
    ensures Joins(rs, i, i + 1, r, id)
  {
    forall x: int
      ensures In(r, x) <==> x == id || Within(rs, i, i + 1, x)
    {
      assert Within(rs, i, i + 1, x) <==> In(rs[i], x);
    }
  }

  lemma {:induction false} JoinsTwo(rs: seq<Range>, i: nat, id: Id)
    requires i + 1 < |rs| && rs[i].low <= rs[i].high && rs[i + 1].low <= rs[i + 1].high
    requires id == rs[i].high + 1 && rs[i + 1].low == id + 1
    ensures Joins(rs, i, i + 2, Range(rs[i].low, rs[i + 1].high), id)
  {
    var (r, j) := (Range(rs[i].low, rs[i + 1].high), i + 2);
    forall x: int
      ensures In(r, x) <==> x == id || Within(rs, i, j, x)
    {
      assert Within(rs, i, j, x) <==> In(rs[i], x) || In(rs[i + 1], x);
    }
  }

  /** Such a replacement adds exactly `id`. */
  lemma {:induction false} SpliceAdds(rs: seq<Range>, i: nat, j: nat, r: Range, id: Id)
    requires Apart(rs) && i <= j <= |rs| && Fits(rs, i, j, r) && Joins(rs, i, j, r, id)
    ensures Apart(Splice(rs, i, j, r))
    ensures Members(Splice(rs, i, j, r)) == Members(rs) + {id}
  {
    SpliceApart(rs, i, j, r);
    forall x | 0 <= x < MODULUS
      ensures Covers(Splice(rs, i, j, r), x) <==> x == id || Covers(rs, x)
    {
      SpliceCovers(rs, i, j, r, x);
      CoversSplit(rs, i, j, x);
    }
  }

  /** What such an insertion leaves: the range at the cursor turned inside out. */
  function Broken(rs: seq<Range>, current: nat, id: Id): seq<Range>
    requires current < |rs|
  {
    rs[current := if id == 0 then Range(rs[current].low, 0) else Range(id, rs[current].high)]
  }

  class Tracker {
    /** seq_ids */
    var ranges: seq<Range>
    /** seq_ids_current; the length of the list stands for the sentinel. */
    var current: nat

    predicate Valid()
      reads this
    {
      && Apart(ranges)
      && current <= |ranges| && (current == |ranges| <==> ranges == [])
    }

    constructor ()
      ensures Valid() && ranges == []
    {
      ranges, current := [], 0;
    }

    /** The list is circular: behind the last and before the first range is the sentinel. */
    function Prev(item: nat): nat
      reads this
      requires item < |ranges|
    {
      if item == 0 then |ranges| else item - 1
    }

    method CheckDuplicate(id: Id) returns (found: bool)
      requires Valid()
      modifies this`current
      ensures Valid() && found == (id in Members(ranges))
      ensures if found then In(ranges[current], id) else current == old(current)
    {
      var item: nat, direction := current, 0;
      while true
        invariant 0 <= item <= |ranges| && current == old(current) && direction in {-1, 0, 1}
        invariant direction == 0 ==> item == current
        invariant direction == 1 ==> 0 < item && ranges[item - 1].high < id
        invariant direction == -1 ==> 0 < |ranges| && (item == |ranges| || item + 1 < |ranges|)
        invariant direction == -1 ==> id < ranges[if item == |ranges| then 0 else item + 1].low
        decreases direction == 0, if direction == 1 then |ranges| - item else if item == |ranges| then 0 else item + 1
      {
        if item == |ranges| {
          return false;
        } else if ranges[item].high >= id && ranges[item].low <= id {
          current := item;
          assert Covers(ranges, id);
          return true;
        } else if id > ranges[item].high && direction != -1 {
          direction := 1;
          item := item + 1;
        } else if id < ranges[item].low && direction != 1 {
          direction := -1;
          item := Prev(item);
        } else {
          return false;
        }
      }
    }

    /** Replaces the ranges from `i` to before `j` by `r` and moves the cursor there. */
    method Put(i: nat, j: nat, r: Range, ghost id: Id)
      requires Valid() && i <= j <= |ranges|
      modifies this
      ensures ranges == Splice(old(ranges), i, j, r) && current == i
      ensures Fits(old(ranges), i, j, r) && Joins(old(ranges), i, j, r, id) ==> Added(old(ranges), id)
    {
      if Fits(ranges, i, j, r) && Joins(ranges, i, j, r, id) {
        SpliceAdds(ranges, i, j, r, id);
        SpliceAt(ranges, i, j, r, i);
      }
      ranges := Splice(ranges, i, j, r);
      current := i;
    }

    /** The tracker holds what it held before and `id`, where the cursor is. */
    ghost predicate Added(before: seq<Range>, id: Id)
      reads this
    {
      Valid() && Members(ranges) == Members(before) + {id} && current < |ranges| && In(ranges[current], id)
    }

    /** Between the ranges seen while walking and the current one, `id` has a place of its own
        or beside the current one. */
    ghost predicate Walked(item: nat, direction: int, id: Id)
      reads this
      requires item <= |ranges|
    {
      if direction == 0 then item == current
      else if direction == 1 then 0 < item && ranges[item - 1].high + 1 < id
      else
        && 0 < |ranges| && (item == |ranges| || item + 1 < |ranges|)
        && id + 1 < ranges[if item == |ranges| then 0 else item + 1].low
    }

    /** A new range of one number before position `i`. */
    method PutNew(i: nat, id: Id)
      requires Valid() && i <= |ranges| && Fits(ranges, i, i, Range(id, id))
      modifies this
      ensures Added(old(ranges), id)
    {
      JoinsNone(ranges, i, id);
      Put(i, i, Range(id, id), id);
    }

    /** ompi_seq_tracker.c, lines 117 to 129: `id` follows the range at `item`. */
    method ExtendHigh(item: nat, id: Id)
      requires Valid() && item < |ranges| && Inc(ranges[item].high) == id && !In(ranges[item], id)
      modifies this
      ensures if id != 0 then Added(old(ranges), id) else ranges == old(ranges)[item := Range(old(ranges)[item].low, 0)]
    {
      var next := item + 1;
      if next != |ranges| && ranges[next].low == Inc(id) {
        JoinsTwo(ranges, item, id);
        Put(item, item + 2, Range(ranges[item].low, ranges[next].high), id);
      } else {
        if id != 0 {
          JoinsOne(ranges, item, Range(ranges[item].low, id), id);
        }
        Put(item, item + 1, Range(ranges[item].low, id), id);
      }
    }

    /** ompi_seq_tracker.c, lines 131 to 143: `id` precedes the range at `item`. */
    method ExtendLow(item: nat, id: Id)
      requires Valid() && item < |ranges| && Dec(ranges[item].low) == id && !In(ranges[item], id)
      modifies this
      ensures if id != MODULUS - 1 then Added(old(ranges), id)
              else ranges == old(ranges)[item := Range(id, old(ranges)[item].high)]
    {
      var prev := Prev(item);
      if prev != |ranges| && ranges[prev].high == Dec(id) {
        JoinsTwo(ranges, prev, id);
        Put(item - 1, item + 1, Range(ranges[prev].low, ranges[item].high), id);
      } else {
        if id != MODULUS - 1 {
          JoinsOne(ranges, item, Range(id, ranges[item].high), id);
        }
        Put(item, item + 1, Range(id, ranges[item].high), id);
      }
    }

    /** Between the two walks of the loop: what is left to look at. */
    function Ahead(item: nat, direction: int): nat
      reads this
      requires item <= |ranges|
    {
      if direction == 0 then |ranges| + 2
      else if direction == 1 then |ranges| - item
      else if item == |ranges| then 0 else item + 1
    }

    ghost predicate Walking(item: nat, direction: int, id: Id)
      reads this
    {
      && Valid() && item <= |ranges| && direction in {-1, 0, 1} && Walked(item, direction, id)
      && (direction != 0 ==> !Wraps(ranges, current, id))
    }

    /** `id` lies beside or within the range at `item`, or has a place of its own next to it. */
    method Settle(item: nat, direction: int, id: Id) returns (done: bool)
      requires Walking(item, direction, id)
      modifies this
      ensures !done ==> ranges == old(ranges) && current == old(current)
      ensures !done ==> item < |ranges| && (id < ranges[item].low - 1 || id > ranges[item].high + 1)
      ensures !done ==> !Wraps(ranges, current, id)
      ensures done ==> if Wraps(old(ranges), old(current), id) then ranges == Broken(old(ranges), old(current), id)
                       else Added(old(ranges), id)
    {
      if item == |ranges| {
        PutNew(if direction == -1 then 0 else |ranges|, id);
        return true;
      } else if ranges[item].high >= id && ranges[item].low <= id {
        AlreadyThere(ranges, item, id);
        current := item;
        return true;
      } else if Inc(ranges[item].high) == id {
        ExtendHigh(item, id);
        return true;
      } else if Dec(ranges[item].low) == id {
        ExtendLow(item, id);
        return true;
      }
      return false;
    }

    method Insert(id: Id)
      requires Valid()
      modifies this
      ensures if Wraps(old(ranges), old(current), id) then ranges == Broken(old(ranges), old(current), id)
              else Added(old(ranges), id)
    {
      var item: nat, direction := current, 0;
      while true
        invariant Walking(item, direction, id) && ranges == old(ranges) && current == old(current)
        decreases Ahead(item, direction)
      {
        var done := Settle(item, direction, id);
        if done {
          return;
        }
        if id > ranges[item].high {
          if direction == -1 {
            PutNew(item + 1, id);
            return;
          }
          direction := 1;
          item := item + 1;
        } else {
          if direction == 1 {
            PutNew(item, id);
            return;
          }
          direction := -1;
          item := Prev(item);
        }
      }
    }

    /** ompi_seq_tracker_copy: appends the ranges of `src`, and its cursor. */
    method CopyFrom(src: Tracker)
      requires src != this && src.Valid()
      modifies this
      ensures ranges == old(ranges) + src.ranges
      ensures current == if src.ranges == [] then old(current) else |old(ranges)| + src.current
      ensures old(ranges) == [] && old(current) == 0 ==> Valid() && ranges == src.ranges && current == src.current
    {
      var item := 0;
      ghost var before := ranges;
      while item != |src.ranges|
        invariant item <= |src.ranges| && ranges == before + src.ranges[..item]
        invariant current == if item > src.current then |before| + src.current else old(current)
      {
        ranges := ranges + [src.ranges[item]];
        if src.current == item {
          current := |ranges| - 1;
        }
        item := item + 1;
      }
      assert src.ranges[..item] == src.ranges;
      assert [] + src.ranges == src.ranges;
    }
  }

  lemma AlreadyThere(rs: seq<Range>, item: nat, id: Id)
    requires item < |rs| && In(rs[item], id)
    ensures Members(rs) == Members(rs) + {id}
  {
    assert Covers(rs, id);
  }

  /** The wrap-around is a real defect: the numbers of the range at the cursor are forgotten and
      the list is no longer sorted ranges. With `Tracker.Insert` this makes `Wraps` the exact
      condition under which an insertion fails. */
  lemma WrapLosesRange(rs: seq<Range>, current: nat, id: Id)
    requires Apart(rs) && Wraps(rs, current, id)
    ensures !Apart(Broken(rs, current, id))
    ensures Members(Broken(rs, current, id)) == Members(rs) - (set x: int | 0 <= x < MODULUS && In(rs[current], x))
    ensures Members(Broken(rs, current, id)) != Members(rs) + {id}
  {
    var out := Broken(rs, current, id);
    assert out[current].low > out[current].high;
    forall x | 0 <= x < MODULUS
      ensures Covers(out, x) <==> Covers(rs, x) && !In(rs[current], x)
    {
      if k :| 0 <= k < |out| && In(out[k], x) {
        assert k != current && In(rs[k], x);
      }
      if k :| 0 <= k < |rs| && In(rs[k], x) && k != current {
        assert In(out[k], x);
      }
    }
    var kept := rs[current].low as int;
    assert In(rs[current], kept) && Covers(rs, kept) && kept in Members(rs);
    assert kept !in Members(out);
  }

  // ---------------------------------------------------------------------------
  // The list is determined by the set
  // ---------------------------------------------------------------------------

  lemma LowestMember(rs: seq<Range>, x: int)
    requires Apart(rs) && Covers(rs, x)
    ensures rs != [] && rs[0].low <= x
  {
  }

  /** A range of one list that meets a range of a sorted list with the same members lies inside
      it: the number behind a sorted range is missing. */
  lemma MeetsThenInside(rs: seq<Range>, k: nat, r: Range, x: int)
    requires Apart(rs) && k < |rs| && In(rs[k], x) && In(r, x)
    requires forall y: int :: In(r, y) ==> Covers(rs, y)
    ensures rs[k].low <= r.low && r.high <= rs[k].high
  {
    if r.high > rs[k].high {
      assert In(r, rs[k].high + 1);
    }
    if r.low < rs[k].low {
      assert In(r, rs[k].low - 1);
    }
  }

  /** Two sorted lists of the same numbers are the same list. */
  lemma {:induction false} ListIsUnique(a: seq<Range>, b: seq<Range>)
    requires Apart(a) && Apart(b)
    requires forall x: int :: Covers(a, x) <==> Covers(b, x)
    ensures a == b
  {
    if a == [] {
      assert b != [] ==> Covers(b, b[0].low);
    } else {
      assert Covers(a, a[0].low);
      assert b != [] && Covers(b, b[0].low);
      var x: int := a[0].low;
      assert In(b[0], x) by {
        LowestMember(b, x);
        LowestMember(a, b[0].low);
      }
      MeetsInside(a, b, x);
      MeetsInside(b, a, x);
      forall y: int
        ensures Covers(a[1..], y) <==> Covers(b[1..], y)
      {
        TailCovers(a, y);
        TailCovers(b, y);
      }
      ListIsUnique(a[1..], b[1..]);
    }
  }

  lemma MeetsInside(a: seq<Range>, b: seq<Range>, x: int)
    requires Apart(a) && a != [] && b != [] && In(a[0], x) && In(b[0], x)
    requires forall y: int :: Covers(b, y) ==> Covers(a, y)
    ensures a[0].low <= b[0].low && b[0].high <= a[0].high
  {
    forall y: int | In(b[0], y)
      ensures Covers(a, y)
    {
      assert Covers(b, y);
    }
    MeetsThenInside(a, 0, b[0], x);
  }

  lemma TailCovers(rs: seq<Range>, x: int)
    requires Apart(rs) && rs != []
    ensures Covers(rs[1..], x) <==> Covers(rs, x) && !In(rs[0], x)
  {
    if k :| 0 <= k < |rs| && In(rs[k], x) && k > 0 {
      assert In(rs[1..][k - 1], x);
    }
    if k :| 0 <= k < |rs[1..]| && In(rs[1..][k], x) {
      assert In(rs[k + 1], x);
    }
  }

  function Outside(rs: seq<Range>, r: Range): seq<Range> {
    if rs == [] then []
    else if r.low <= rs[0].low && rs[0].high <= r.high then Outside(rs[1..], r)
    else [rs[0]] + Outside(rs[1..], r)
  }

  lemma {:induction false} OutsideKeeps(rs: seq<Range>, r: Range)
    ensures forall q :: q in Outside(rs, r) <==> q in rs && !(r.low <= q.low && q.high <= r.high)
    ensures |Outside(rs, r)| <= |rs|
    ensures (exists q :: q in rs && r.low <= q.low && q.high <= r.high) ==> |Outside(rs, r)| < |rs|
  {
    if rs != [] {
      OutsideKeeps(rs[1..], r);
      assert forall q :: q in rs <==> q == rs[0] || q in rs[1..];
    }
  }

  lemma CoversByElement(rs: seq<Range>, x: int)
    ensures Covers(rs, x) <==> exists r :: r in rs && In(r, x)
  {
    if r :| r in rs && In(r, x) {
      var k :| 0 <= k < |rs| && rs[k] == r;
    }
  }

  /** No list of ranges, in any order and overlapping or not, that stands for the same numbers
      is shorter than the sorted one. */
  lemma {:induction false} ListIsShortest(a: seq<Range>, c: seq<Range>)
    requires Apart(a)
    requires forall x: int :: Covers(a, x) <==> Covers(c, x)
    ensures |a| <= |c|
  {
    if a != [] {
      var r := a[0];
      var rest := Outside(c, r);
      OutsideKeeps(c, r);
      assert Covers(a, r.low);
      CoversByElement(c, r.low);
      var q :| q in c && In(q, r.low);
      InsideFirst(a, c, q, r.low);
      forall x: int
        ensures Covers(a[1..], x) <==> Covers(rest, x)
      {
        TailCovers(a, x);
        CoversByElement(c, x);
        CoversByElement(rest, x);
        if p :| p in c && In(p, x) && In(r, x) {
          InsideFirst(a, c, p, x);
        }
        forall p | p in rest && In(p, x)
          ensures !In(r, x)
        {
          if In(r, x) {
            InsideFirst(a, c, p, x);
          }
        }
      }
      ListIsShortest(a[1..], rest);
    }
  }

  lemma InsideFirst(a: seq<Range>, c: seq<Range>, q: Range, x: int)
    requires Apart(a) && a != [] && q in c && In(q, x) && In(a[0], x)
    requires forall y: int :: Covers(c, y) ==> Covers(a, y)
    ensures a[0].low <= q.low && q.high <= a[0].high
  {
    forall y: int | In(q, y)
      ensures Covers(a, y)
    {
      CoversByElement(c, y);
    }
    MeetsThenInside(a, 0, q, x);
  }

  // ---------------------------------------------------------------------------
  // Whole runs
  // ---------------------------------------------------------------------------

  datatype Op = Inserted(id: Id) | Looked(id: Id)

  ghost function Ids(ops: seq<Op>): set<int> {
    set k | 0 <= k < |ops| && ops[k].Inserted? :: ops[k].id as int
  }

  /** Over any sequence of insertions and lookups of numbers below the largest, the tracker
      stands for exactly the numbers inserted, and every lookup says whether its number was. */
  method Replay(ops: seq<Op>) returns (t: Tracker, answers: seq<bool>)
    requires forall k :: 0 <= k < |ops| ==> ops[k].id < MODULUS - 1
    ensures t.Valid() && Members(t.ranges) == Ids(ops)
    ensures |answers| == |ops|
    ensures forall k :: 0 <= k < |ops| && ops[k].Looked? ==> answers[k] == (ops[k].id in Ids(ops[..k]))
  {
    t := new Tracker();
    answers := [];
    assert Members([]) == Ids(ops[..0]) == {};
    for i := 0 to |ops|
      invariant fresh(t) && t.Valid() && Members(t.ranges) == Ids(ops[..i]) && |answers| == i
      invariant forall k :: 0 <= k < i && ops[k].Looked? ==> answers[k] == (ops[k].id in Ids(ops[..k]))
    {
      IdsGrow(ops, i);
      if ops[i].Inserted? {
        NeverLargest(t.ranges, t.current, ops[..i], ops[i].id);
        t.Insert(ops[i].id);
        answers := answers + [true];
      } else {
        var found := t.CheckDuplicate(ops[i].id);
        answers := answers + [found];
      }
    }
    assert ops[..|ops|] == ops;
  }

  lemma IdsGrow(ops: seq<Op>, i: nat)
    requires i < |ops|
    ensures Ids(ops[..i + 1]) == Ids(ops[..i]) + (if ops[i].Inserted? then {ops[i].id as int} else {})
  {
    var next := ops[..i + 1];
    assert forall k :: 0 <= k < i ==> next[k] == ops[..i][k];
    assert next[i] == ops[i];
    forall x | x in Ids(ops[..i])
      ensures x in Ids(next)
    {
      var k :| 0 <= k < i && ops[..i][k].Inserted? && ops[..i][k].id == x;
      assert next[k].id == x;
    }
  }

  lemma NeverLargest(rs: seq<Range>, current: nat, ops: seq<Op>, id: Id)
    requires Apart(rs) && Members(rs) == Ids(ops) && id < MODULUS - 1
    requires forall k :: 0 <= k < |ops| ==> ops[k].id < MODULUS - 1
    ensures !Wraps(rs, current, id)
  {
    assert MODULUS - 1 !in Members(rs);
    assert current < |rs| ==> !In(rs[current], MODULUS - 1);
  }
}
