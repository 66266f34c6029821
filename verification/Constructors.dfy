/** The datatype constructors that merge neighbouring blocks: contiguous, vector, hvector,
    indexed, hindexed, indexed_block, hindexed_block and struct. */
module Constructors {
  import opened TypeMap

  /** The blocks of a constructor, each added by itself: `lens[i]` copies, the first at
      `disps[i]`, one every `e` bytes. */
  function Blocks(lens: seq<nat>, disps: seq<int>, e: int): seq<int>
    requires |lens| == |disps|
    decreases |lens|
  {
    if lens == [] then []
    else
      var k := |lens| - 1;
      Blocks(lens[..k], disps[..k], e) + Run(lens[k], disps[k], e)
  }

  function Scaled(disps: seq<int>, e: int): (r: seq<int>)
    ensures |r| == |disps|
  {
    seq(|disps|, i requires 0 <= i < |disps| => disps[i] * e)
  }

  function Repeat(n: nat, count: nat): (r: seq<nat>)
    ensures |r| == count
  {
    seq(count, _ => n)
  }

  lemma BlocksStep(lens: seq<nat>, disps: seq<int>, e: int, i: nat)
    requires |lens| == |disps| && i < |lens|
    ensures Blocks(lens[..i + 1], disps[..i + 1], e) == Blocks(lens[..i], disps[..i], e) + Run(lens[i], disps[i], e)
  {
    assert lens[..i + 1][..i] == lens[..i] && disps[..i + 1][..i] == disps[..i];
  }

  // ---------------------------------------------------------------------------
  // Contiguous, vector, hvector
  // ---------------------------------------------------------------------------

  method CreateContiguous(count: nat, old_: DT) returns (r: DT)
    requires Ok(old_) && old_.kind == Plain
    ensures Ok(r) && r.kind == Plain
    ensures r.elems == Place(old_.elems, Run(count, 0, Extent(old_)))
    ensures (r.userLb ==> old_.userLb) && (r.userUb ==> old_.userUb)
    ensures r == Add(FRESH, old_, count, 0, Extent(old_))
  {
    r := FRESH;
    assert Run(0, 0, Extent(old_)) == [];
    AddElems(r, old_, count, 0, Extent(old_));
    assert [] + Place(old_.elems, Run(count, 0, Extent(old_))) == Place(old_.elems, Run(count, 0, Extent(old_)));
    r := Add(r, old_, count, 0, Extent(old_));
  }

  /** `count` blocks of `bLength`, one every `stride` bytes. */
  function Strided(count: nat, bLength: nat, stride: int, e: int): seq<int> {
    Sums(Run(count, 0, stride), Run(bLength, 0, e))
  }

  lemma {:induction false} SumsOne(ds: seq<int>)
    ensures Sums(ds, [0]) == ds
  {
    if ds != [] {
      SumsOne(ds[1..]);
      assert Plus(ds[0], [0]) == [ds[0]];
      assert [ds[0]] + ds[1..] == ds;
    }
  }

  lemma {:induction false} PlusRun(d: int, n: nat, c: int, e: int)
    ensures Plus(d, Run(n, c, e)) == Run(n, d + c, e)
  {
    if n > 0 {
      PlusRun(d, n - 1, c + e, e);
      assert Plus(d, Run(n, c, e)) == [d + c] + Plus(d, Run(n - 1, c + e, e));
    }
  }

  lemma {:induction false} OneLess(count: nat, b: int)
    requires count > 0
    ensures count * b == b + (count - 1) * b
  {
  }

  /** Blocks as long as the stride run into each other. */
  lemma {:induction false} StridedContiguous(count: nat, bLength: nat, d: int, e: int, step: int)
    requires step == bLength * e
    ensures Sums(Run(count, d, step), Run(bLength, 0, e)) == Run(count * bLength, d, e)
    decreases count
  {
    if count > 0 {
      var (outer, inner, k) := (Run(count, d, step), Run(bLength, 0, e), (count - 1) * bLength);
      assert outer[0] == d && outer[1..] == Run(count - 1, d + step, step);
      assert Sums(outer, inner) == Plus(d, inner) + Sums(Run(count - 1, d + step, step), inner);
      StridedContiguous(count - 1, bLength, d + step, e, step);
      PlusRun(d, bLength, 0, e);
      RunConcat(bLength, k, d, e);
      OneLess(count, bLength);
    }
  }

  /** A block of the non-contiguous branch, as a type of its own. */
  function BlockType(old_: DT, bLength: nat): DT
    requires Ok(old_) && old_.kind == Plain
  {
    Add(FRESH, old_, bLength, 0, Extent(old_))
  }

  /** When the blocks come out where they should: always, unless the distance is -1 byte, which
      opal_datatype_add takes for "the extent of the type". */
  predicate StrideOk(old_: DT, count: nat, bLength: nat, stride: int)
    requires Ok(old_) && old_.kind == Plain
  {
    || stride != -1 || count <= 1 || bLength == 0 || old_.elems == []
    || Extent(old_) * bLength == -1
    || (bLength > 1 && Extent(BlockType(old_, bLength)) == -1)
  }

  /** The distance actually used. */
  function Used(t: DT, stride: int): int {
    if stride == -1 then Extent(t) else stride
  }

  lemma {:induction false} FreshAdd(t: DT, count: nat, stride: int)
    requires Ok(t) && t.kind == Plain
    ensures Add(FRESH, t, count, 0, stride).elems == Place(t.elems, Run(count, 0, Used(t, stride)))
  {
    assert [] + Place(t.elems, Run(count, 0, Used(t, stride))) == Place(t.elems, Run(count, 0, Used(t, stride)));
    assert Run(0, 0, Used(t, stride)) == [];
  }

  lemma {:induction false} NestedElems(old_: DT, count: nat, bLength: nat, stride: int)
    requires Ok(old_) && old_.kind == Plain
    ensures var t := BlockType(old_, bLength);
            Ok(t) && t.kind == Plain
            && Add(FRESH, t, count, 0, stride).elems == Place(old_.elems, Strided(count, bLength, Used(t, stride), Extent(old_)))
  {
    FreshAdd(old_, bLength, Extent(old_));
    FreshAdd(BlockType(old_, bLength), count, stride);
    PlaceNest(old_.elems, Run(bLength, 0, Extent(old_)), Run(count, 0, Used(BlockType(old_, bLength), stride)));
  }

  lemma {:induction false} SingleElems(old_: DT, count: nat, stride: int)
    requires Ok(old_) && old_.kind == Plain
    ensures Add(FRESH, old_, count, 0, stride).elems == Place(old_.elems, Strided(count, 1, Used(old_, stride), Extent(old_)))
  {
    FreshAdd(old_, count, stride);
    assert Run(1, 0, Extent(old_)) == [0];
    SumsOne(Run(count, 0, Used(old_, stride)));
  }

  lemma {:induction false} ContiguousElems(old_: DT, count: nat, bLength: nat, stride: int)
    requires Ok(old_) && old_.kind == Plain && (count == 1 || Extent(old_) * bLength == stride)
    ensures Add(FRESH, old_, count * bLength, 0, Extent(old_)).elems == Place(old_.elems, Strided(count, bLength, stride, Extent(old_)))
  {
    FreshAdd(old_, count * bLength, Extent(old_));
    OneRun(count, bLength, stride, Extent(old_));
  }

  lemma {:induction false} OneRun(count: nat, bLength: nat, stride: int, e: int)
    requires count == 1 || e * bLength == stride
    ensures Strided(count, bLength, stride, e) == Run(count * bLength, 0, e)
  {
    if count == 1 {
      var inner := Run(bLength, 0, e);
      assert Run(1, 0, stride) == [0];
      assert Plus(0, inner) == inner;
      assert Sums([0], inner) == Plus(0, inner) + Sums([0][1..], inner);
      assert 1 * bLength == bLength;
    } else {
      StridedContiguous(count, bLength, 0, e, stride);
    }
  }

  lemma {:induction false} SumsEmptyInner(outer: seq<int>)
    ensures Sums(outer, []) == []
  {
    if outer != [] {
      SumsEmptyInner(outer[1..]);
    }
  }

  lemma {:induction false} SumsLength(outer: seq<int>, inner: seq<int>)
    ensures |Sums(outer, inner)| == |outer| * |inner|
  {
    if outer != [] {
      SumsLength(outer[1..], inner);
      assert |outer| * |inner| == |inner| + |outer[1..]| * |inner|;
    }
  }

  lemma {:induction false} SecondBlock(count: nat, bLength: nat, stride: int, e: int)
    requires count > 1 && bLength > 0
    ensures bLength < |Strided(count, bLength, stride, e)| && Strided(count, bLength, stride, e)[bLength] == stride
  {
    var (outer, inner) := (Run(count, 0, stride), Run(bLength, 0, e));
    assert outer[1..] == Run(count - 1, stride, stride) && outer[1..][0] == stride;
    assert Sums(outer[1..], inner) == Plus(stride, inner) + Sums(outer[1..][1..], inner);
    assert Sums(outer, inner) == Plus(0, inner) + Sums(outer[1..], inner);
    assert inner[0] == 0;
  }

  /** Two distances give the same elements exactly when they are equal or there is no second
      copy of anything. */
  lemma {:induction false} StrideMatters(old_: DT, count: nat, bLength: nat, used: int, stride: int)
    ensures Place(old_.elems, Strided(count, bLength, used, Extent(old_))) == Place(old_.elems, Strided(count, bLength, stride, Extent(old_)))
            <==> used == stride || count <= 1 || bLength == 0 || old_.elems == []
  {
    var (m, e) := (old_.elems, Extent(old_));
    if m == [] {
      PlaceNothing(Strided(count, bLength, used, e));
      PlaceNothing(Strided(count, bLength, stride, e));
    } else if count <= 1 {
      assert Run(count, 0, used) == Run(count, 0, stride);
    } else if bLength == 0 {
      assert Run(0, 0, e) == [];
      SumsEmptyInner(Run(count, 0, used));
      SumsEmptyInner(Run(count, 0, stride));
    } else if used != stride {
      SecondBlock(count, bLength, used, e);
      SecondBlock(count, bLength, stride, e);
      SumsLength(Run(count, 0, used), Run(bLength, 0, e));
      SumsLength(Run(count, 0, stride), Run(bLength, 0, e));
      PlaceDiffers(m, Strided(count, bLength, used, e), Strided(count, bLength, stride, e), bLength);
    }
  }

  /** The bounds of `count` blocks of `bLength` copies, one every `stride` bytes, for a type whose bounds are
      longs and whose extent is not negative: from the first byte of the lowest block to the last
      one of the highest, rounded up by the alignment at most twice if the type has no upper bound of the user's. */
  predicate VectorBounds(old_: DT, count: nat, bLength: nat, stride: int, r: DT) {
    count > 0 && bLength > 0 && stride != -1 && Extent(old_) >= 0 && old_.align > 0 && old_.lb <= LONG_MAX && LONG_MIN <= old_.ub ==>
      var hi := old_.ub + Extent(old_) * (bLength - 1) + Max(0, stride * (count - 1));
      && r.lb == old_.lb + Min(0, stride * (count - 1))
      && (if old_.userUb then r.ub == hi else hi <= r.ub < hi + 2 * Max(1, old_.align))
  }

  /** Copies of one type, added to an empty one. */
  lemma {:induction false} FreshBounds(t: DT, n: nat, e: int)
    requires Ok(t) && t.kind == Plain && n > 0 && e != -1 && t.lb <= t.ub && t.lb <= LONG_MAX && LONG_MIN <= t.ub
    ensures var r := Add(FRESH, t, n, 0, e);
            && r.lb == t.lb + Min(0, e * (n - 1)) && r.userUb == t.userUb && r.userLb == t.userLb && r.align == Max(1, t.align)
            && var hi := t.ub + Max(0, e * (n - 1));
               if t.userUb then r.ub == hi else hi <= r.ub < hi + r.align
  {
    var (lb, hi) := (t.lb + Min(0, e * (n - 1)), t.ub + Max(0, e * (n - 1)));
    UpperRaised(FRESH, t, hi, lb, Max(1, t.align));
  }

  lemma {:induction false} SingleRunBounds(old_: DT, count: nat, bLength: nat, stride: int)
    requires Ok(old_) && old_.kind == Plain && (count == 1 || Extent(old_) * bLength == stride)
    ensures VectorBounds(old_, count, bLength, stride, Add(FRESH, old_, count * bLength, 0, Extent(old_)))
  {
    if count > 0 && bLength > 0 && Extent(old_) >= 0 && old_.lb <= LONG_MAX && LONG_MIN <= old_.ub {
      var (e, n) := (Extent(old_), count * bLength);
      PositiveProduct(count, bLength);
      FreshBounds(old_, n, e);
      LastCopy(count, bLength, e, stride);
      ProductOrder(0, n - 1, e);
      ProductOrder(0, bLength - 1, e);
      ProductOrder(0, bLength, e);
      if count > 1 {
        ProductOrder(0, count - 1, stride);
      }
    }
  }

  lemma {:induction false} PositiveProduct(a: nat, b: nat)
    requires a > 0 && b > 0
    ensures a * b > 0
  {
  }

  lemma {:induction false} LastCopy(count: nat, bLength: nat, e: int, stride: int)
    requires count == 1 || e * bLength == stride
    ensures e * (count * bLength - 1) == e * (bLength - 1) + stride * (count - 1)
  {
    if count != 1 {
      assert stride * (count - 1) == e * bLength * (count - 1) == e * (bLength * count - bLength);
    }
  }

  lemma {:induction false} BlockBounds(old_: DT, count: nat, bLength: nat, stride: int)
    requires Ok(old_) && old_.kind == Plain
    ensures VectorBounds(old_, count, bLength, stride, Add(FRESH, BlockType(old_, bLength), count, 0, stride))
  {
    if count > 0 && bLength > 0 && stride != -1 && Extent(old_) >= 0 && old_.lb <= LONG_MAX && LONG_MIN <= old_.ub {
      FreshBounds(old_, bLength, Extent(old_));
      ProductOrder(0, bLength - 1, Extent(old_));
      FreshBounds(BlockType(old_, bLength), count, stride);
    }
  }

  lemma {:induction false} SinglesBounds(old_: DT, count: nat, stride: int)
    requires Ok(old_) && old_.kind == Plain
    ensures VectorBounds(old_, count, 1, stride, Add(FRESH, old_, count, 0, stride))
  {
    if count > 0 && stride != -1 && Extent(old_) >= 0 && old_.lb <= LONG_MAX && LONG_MIN <= old_.ub {
      FreshBounds(old_, count, stride);
    }
  }

  method CreateVector(count: nat, bLength: nat, stride: int, old_: DT) returns (r: DT)
    requires Ok(old_) && old_.kind == Plain
    ensures Ok(r) && r.kind == Plain
    ensures r.elems == Place(old_.elems, Strided(count, bLength, Extent(old_) * stride, Extent(old_)))
            <==> StrideOk(old_, count, bLength, Extent(old_) * stride)
    ensures (r.userLb ==> old_.userLb) && (r.userUb ==> old_.userUb)
    ensures VectorBounds(old_, count, bLength, Extent(old_) * stride, r) && (count == 0 ==> r == FRESH)
  {
    var extent := Extent(old_);
    if count == 0 {
      assert Run(0, 0, extent * stride) == [];
      return FRESH;
    }
    r := FRESH;
    if bLength == stride || 1 >= count {
      ContiguousElems(old_, count, bLength, extent * stride);
      SingleRunBounds(old_, count, bLength, extent * stride);
      r := Add(r, old_, count * bLength, 0, extent);
    } else if bLength == 1 {
      SingleElems(old_, count, extent * stride);
      StrideMatters(old_, count, bLength, Used(old_, extent * stride), extent * stride);
      SinglesBounds(old_, count, extent * stride);
      r := Add(r, old_, count, 0, extent * stride);
    } else {
      NestedElems(old_, count, bLength, extent * stride);
      StrideMatters(old_, count, bLength, Used(BlockType(old_, bLength), extent * stride), extent * stride);
      BlockBounds(old_, count, bLength, extent * stride);
      r := Add(r, old_, bLength, 0, extent);
      var temp := r;
      r := Add(FRESH, temp, count, 0, extent * stride);
    }
  }

  /** A type made of copies of `t` alone rounds as `t` does, or is empty. */
  predicate RoundsLike(r: DT, t: DT) {
    (r.userUb == t.userUb && r.align == t.align) || (!r.userUb && r.align == 1)
  }

  /** What hvector makes of `count` blocks of `bLength` copies, one every `stride` bytes. */
  ghost predicate HvectorOf(old_: DT, count: nat, bLength: nat, stride: int, r: DT)
    requires Ok(old_) && old_.kind == Plain
  {
    && Ok(r) && r.kind == Plain && RoundsLike(r, old_) && (r.userLb ==> old_.userLb) && (r.userUb ==> old_.userUb)
    && (r.elems == Place(old_.elems, Strided(count, bLength, stride, Extent(old_))) <==> StrideOk(old_, count, bLength, stride))
    && (bLength == 1 ==> r == Add(FRESH, old_, count, 0, stride)) && VectorBounds(old_, count, bLength, stride, r)
  }

  lemma {:induction false} HvectorOneRun(old_: DT, count: nat, bLength: nat, stride: int)
    requires Ok(old_) && old_.kind == Plain && count > 0 && (Extent(old_) * bLength == stride || 1 >= count)
    ensures HvectorOf(old_, count, bLength, stride, Add(FRESH, old_, count * bLength, 0, Extent(old_)))
  {
    ContiguousElems(old_, count, bLength, stride);
    AddOnce(FRESH, old_, 0, Extent(old_), stride);
    SingleRunBounds(old_, count, bLength, stride);
  }

  lemma {:induction false} HvectorSingles(old_: DT, count: nat, stride: int)
    requires Ok(old_) && old_.kind == Plain && count > 1 && Extent(old_) != stride
    ensures HvectorOf(old_, count, 1, stride, Add(FRESH, old_, count, 0, stride))
  {
    SingleElems(old_, count, stride);
    StrideMatters(old_, count, 1, Used(old_, stride), stride);
    SinglesBounds(old_, count, stride);
  }

  lemma {:induction false} HvectorBlocks(old_: DT, count: nat, bLength: nat, stride: int)
    requires Ok(old_) && old_.kind == Plain && count > 1 && bLength != 1 && Extent(old_) * bLength != stride
    ensures HvectorOf(old_, count, bLength, stride, Add(FRESH, BlockType(old_, bLength), count, 0, stride))
  {
    NestedElems(old_, count, bLength, stride);
    StrideMatters(old_, count, bLength, Used(BlockType(old_, bLength), stride), stride);
    BlockBounds(old_, count, bLength, stride);
  }

  method CreateHvector(count: nat, bLength: nat, stride: int, old_: DT) returns (r: DT)
    requires Ok(old_) && old_.kind == Plain
    ensures HvectorOf(old_, count, bLength, stride, r)
    ensures count == 0 ==> r == FRESH
  {
    var extent := Extent(old_);
    if count == 0 {
      assert Run(0, 0, stride) == [];
      return FRESH;
    }
    var temp := FRESH;
    if extent * bLength == stride || 1 >= count {
      HvectorOneRun(old_, count, bLength, stride);
      r := Add(temp, old_, count * bLength, 0, extent);
    } else if bLength == 1 {
      HvectorSingles(old_, count, stride);
      r := Add(temp, old_, count, 0, stride);
    } else {
      HvectorBlocks(old_, count, bLength, stride);
      temp := Add(temp, old_, bLength, 0, extent);
      r := Add(FRESH, temp, count, 0, stride);
    }
  }

  /** The one-byte case: two bytes, the second one byte before the first, come out as two bytes
      in ascending order. */
  lemma BackwardBytes()
    ensures var b := DT(Plain, [Entry(0, 0)], 0, 1, false, false, 1);
            !StrideOk(b, 2, 1, -1) && Add(FRESH, b, 2, 0, -1).elems == [Entry(0, 0), Entry(0, 1)]
  {
    var b := DT(Plain, [Entry(0, 0)], 0, 1, false, false, 1);
    FreshAdd(b, 2, -1);
    var m := b.elems;
    assert Run(2, 0, 1) == [0, 1];
    assert [0, 1][1..] == [1];
    PlaceOne(m, 1);
    assert Shift(m, 0) == [Entry(0, 0)] && Shift(m, 1) == [Entry(0, 1)];
  }

  // ---------------------------------------------------------------------------
  // The merging loops
  // ---------------------------------------------------------------------------

  /** `done` and a pending run of `n` copies at `d` are the blocks `bs`. */
  ghost predicate Pending(m: seq<Entry>, done: seq<Entry>, n: nat, d: int, e: int, bs: seq<int>) {
    done + Place(m, Run(n, d, e)) == Place(m, bs)
  }

  lemma PendingFirst(m: seq<Entry>, n: nat, d: int, e: int)
    ensures Pending(m, [], n, d, e, Run(n, d, e))
  {
  }

  /** A block that begins where the pending run ends makes it longer. */
  lemma {:induction false} PendingMerge(m: seq<Entry>, done: seq<Entry>, n: nat, d: int, e: int, bs: seq<int>, k: nat)
    requires Pending(m, done, n, d, e, bs)
    ensures Pending(m, done, n + k, d, e, bs + Run(k, d + n * e, e))
  {
    RunConcat(n, k, d, e);
    var (x, y) := (Run(n, d, e), Run(k, d + n * e, e));
    PlaceConcat(m, x, y);
    PlaceConcat(m, bs, y);
    Associates(done, Place(m, x), Place(m, y));
  }

  /** Any other block is added after the pending run. */
  lemma {:induction false} PendingFlush(m: seq<Entry>, done: seq<Entry>, n: nat, d: int, e: int, bs: seq<int>, k: nat, next: int)
    requires Pending(m, done, n, d, e, bs)
    ensures Pending(m, done + Place(m, Run(n, d, e)), k, next, e, bs + Run(k, next, e))
  {
    PlaceConcat(m, bs, Run(k, next, e));
  }

  /** The type that adding the first `k` blocks one by one gives. */
  function EachBlock(lens: seq<nat>, disps: seq<int>, t: DT, k: nat): (r: DT)
    requires Ok(t) && t.kind == Plain && k <= |lens| == |disps|
    ensures Ok(r) && r.kind == Plain
  {
    if k == 0 then FRESH else Add(EachBlock(lens, disps, t, k - 1), t, lens[k - 1], disps[k - 1], Extent(t))
  }

  /** `pdt` and a pending run of `n` copies at `d` give what the first `k` blocks give, bounds included. */
  ghost predicate Apiece(lens: seq<nat>, disps: seq<int>, t: DT, k: nat, pdt: DT, n: nat, d: int)
    requires Ok(t) && t.kind == Plain && k <= |lens| == |disps|
  {
    && Ok(pdt) && pdt.kind == Plain && (pdt.userLb ==> t.userLb)
    && (Additive(t) ==> Add(pdt, t, n, d, Extent(t)) == EachBlock(lens, disps, t, k))
  }

  lemma {:induction false} ApieceFirst(lens: seq<nat>, disps: seq<int>, t: DT)
    requires Ok(t) && t.kind == Plain && 0 < |lens| == |disps|
    ensures Apiece(lens, disps, t, 1, FRESH, lens[0], disps[0])
  {
    assert EachBlock(lens, disps, t, 0) == FRESH;
  }

  lemma {:induction false} ApieceMerge(lens: seq<nat>, disps: seq<int>, t: DT, k: nat, pdt: DT, n: nat, d: int)
    requires Ok(t) && t.kind == Plain && k < |lens| == |disps| && Apiece(lens, disps, t, k, pdt, n, d)
    requires disps[k] == d + n * Extent(t)
    ensures Apiece(lens, disps, t, k + 1, pdt, n + lens[k], d)
  {
    if Additive(t) {
      AddTwice(pdt, t, n, lens[k], d);
    }
  }

  lemma {:induction false} ApieceFlush(lens: seq<nat>, disps: seq<int>, t: DT, k: nat, pdt: DT, n: nat, d: int)
    requires Ok(t) && t.kind == Plain && k < |lens| == |disps| && Apiece(lens, disps, t, k, pdt, n, d)
    ensures Apiece(lens, disps, t, k + 1, Add(pdt, t, n, d, Extent(t)), lens[k], disps[k])
  {
  }

  /** Where block `j` ends. */
  function EndOf(lens: seq<nat>, disps: seq<int>, t: DT, j: nat): int
    requires j < |lens| == |disps|
  {
    var n: int := lens[j];
    disps[j] + Extent(t) * (n - 1) + t.ub
  }

  ghost predicate SomeBlock(lens: seq<nat>, k: nat)
    requires k <= |lens|
  {
    exists j :: 0 <= j < k && lens[j] > 0
  }

  ghost predicate InLongs(lens: seq<nat>, disps: seq<int>, t: DT)
    requires |lens| == |disps|
  {
    forall j :: 0 <= j < |lens| ==> disps[j] + t.lb <= LONG_MAX && LONG_MIN <= EndOf(lens, disps, t, j)
  }

  /** `r` reaches over the first `k` blocks, and no further down than the lowest of them and, if the type has
      an upper bound of the user's, no further up than the highest. */
  ghost predicate Union(lens: seq<nat>, disps: seq<int>, t: DT, k: nat, r: DT)
    requires k <= |lens| == |disps|
  {
    && (forall j :: 0 <= j < k && lens[j] > 0 ==> r.lb <= disps[j] + t.lb && EndOf(lens, disps, t, j) <= r.ub)
    && (exists j :: 0 <= j < k && lens[j] > 0 && r.lb == disps[j] + t.lb)
    && (t.userUb ==> exists j :: 0 <= j < k && lens[j] > 0 && r.ub == EndOf(lens, disps, t, j))
    && r.userLb == t.userLb && r.userUb == t.userUb
  }

  lemma {:induction false} NoBlocks(lens: seq<nat>, disps: seq<int>, t: DT, k: nat)
    requires Ok(t) && t.kind == Plain && k <= |lens| == |disps| && !SomeBlock(lens, k)
    ensures EachBlock(lens, disps, t, k) == FRESH
  {
    if k > 0 {
      NoBlocks(lens, disps, t, k - 1);
    }
  }

  /** The bounds that the blocks give are those of their union. */
  lemma {:induction false} UnionBounds(lens: seq<nat>, disps: seq<int>, t: DT, k: nat)
    requires Ok(t) && t.kind == Plain && k <= |lens| == |disps| && Additive(t) && InLongs(lens, disps, t) && SomeBlock(lens, k)
    ensures Union(lens, disps, t, k, EachBlock(lens, disps, t, k))
  {
    var before := EachBlock(lens, disps, t, k - 1);
    if lens[k - 1] == 0 {
      UnionBounds(lens, disps, t, k - 1);
    } else {
      if SomeBlock(lens, k - 1) {
        UnionBounds(lens, disps, t, k - 1);
      } else {
        NoBlocks(lens, disps, t, k - 1);
      }
      AddBounds(before, t, lens[k - 1], disps[k - 1], EndOf(lens, disps, t, k - 1));
    }
  }

  lemma {:induction false} BlocksFirst(lens: seq<nat>, disps: seq<int>, e: int)
    requires |lens| == |disps| > 0
    ensures Blocks(lens[..1], disps[..1], e) == Run(lens[0], disps[0], e)
  {
    assert Blocks(lens[..0], disps[..0], e) == [];
    BlocksStep(lens, disps, e, 0);
    assert [] + Run(lens[0], disps[0], e) == Run(lens[0], disps[0], e);
  }

  lemma {:induction false} Distributes(a: int, b: int, c: int)
    ensures (a + b) * c == a * c + b * c
  {
  }

  /** A block that begins where the pending run ends, for displacements counted in elements. */
  lemma {:induction false} ElementsMerge(m: seq<Entry>, done: seq<Entry>, n: nat, disp: int, e: int, bs: seq<int>, k: nat)
    requires Pending(m, done, n, disp * e, e, bs)
    ensures Pending(m, done, n + k, disp * e, e, bs + Run(k, (disp + n) * e, e))
  {
    Distributes(disp, n, e);
    PendingMerge(m, done, n, disp * e, e, bs, k);
  }

  method CreateIndexed(lens: seq<nat>, disps: seq<int>, old_: DT) returns (r: DT)
    requires Ok(old_) && old_.kind == Plain && |lens| == |disps|
    ensures Ok(r) && r.kind == Plain
    ensures r.elems == Place(old_.elems, Blocks(lens, Scaled(disps, Extent(old_)), Extent(old_)))
    ensures Additive(old_) ==> r == EachBlock(lens, Scaled(disps, Extent(old_)), old_, |lens|)
  {
    var extent := Extent(old_);
    if |lens| == 0 {
      return FRESH;
    }
    ghost var (m, at) := (old_.elems, Scaled(disps, extent));
    var disp: int, dLength: nat := disps[0], lens[0];
    var endat := disp + dLength;
    var pdt := FRESH;
    BlocksFirst(lens, at, extent);
    PendingFirst(m, dLength, disp * extent, extent);
    ApieceFirst(lens, at, old_);
    for i := 1 to |lens|
      invariant Ok(pdt) && pdt.kind == Plain && endat == disp + dLength
      invariant Apiece(lens, at, old_, i, pdt, dLength, disp * extent)
      invariant Pending(m, pdt.elems, dLength, disp * extent, extent, Blocks(lens[..i], at[..i], extent))
    {
      BlocksStep(lens, at, extent, i);
      ghost var bs := Blocks(lens[..i], at[..i], extent);
      if endat == disps[i] {
        ElementsMerge(m, pdt.elems, dLength, disp, extent, bs, lens[i]);
        Distributes(disp, dLength, extent);
        ApieceMerge(lens, at, old_, i, pdt, dLength, disp * extent);
        dLength := dLength + lens[i];
        endat := endat + lens[i];
      } else {
        PendingFlush(m, pdt.elems, dLength, disp * extent, extent, bs, lens[i], at[i]);
        AddElems(pdt, old_, dLength, disp * extent, extent);
        ApieceFlush(lens, at, old_, i, pdt, dLength, disp * extent);
        pdt := Add(pdt, old_, dLength, disp * extent, extent);
        disp, dLength := disps[i], lens[i];
        endat := disp + lens[i];
      }
    }
    assert lens[..|lens|] == lens && at[..|lens|] == at;
    AddElems(pdt, old_, dLength, disp * extent, extent);
    r := Add(pdt, old_, dLength, disp * extent, extent);
  }

  method CreateHindexed(lens: seq<nat>, disps: seq<int>, old_: DT) returns (r: DT)
    requires Ok(old_) && old_.kind == Plain && |lens| == |disps|
    ensures Ok(r) && r.kind == Plain
    ensures r.elems == Place(old_.elems, Blocks(lens, disps, Extent(old_)))
    ensures Additive(old_) ==> r == EachBlock(lens, disps, old_, |lens|)
  {
    var extent := Extent(old_);
    if |lens| == 0 {
      return FRESH;
    }
    ghost var m := old_.elems;
    var disp: int, dLength: nat := disps[0], lens[0];
    var endat := disp + dLength * extent;
    var pdt := FRESH;
    BlocksFirst(lens, disps, extent);
    PendingFirst(m, dLength, disp, extent);
    ApieceFirst(lens, disps, old_);
    for i := 1 to |lens|
      invariant Ok(pdt) && pdt.kind == Plain && endat == disp + dLength * extent
      invariant Apiece(lens, disps, old_, i, pdt, dLength, disp)
      invariant Pending(m, pdt.elems, dLength, disp, extent, Blocks(lens[..i], disps[..i], extent))
    {
      BlocksStep(lens, disps, extent, i);
      ghost var bs := Blocks(lens[..i], disps[..i], extent);
      if endat == disps[i] {
        PendingMerge(m, pdt.elems, dLength, disp, extent, bs, lens[i]);
        Distributes(dLength, lens[i], extent);
        ApieceMerge(lens, disps, old_, i, pdt, dLength, disp);
        dLength := dLength + lens[i];
        endat := endat + lens[i] * extent;
      } else {
        PendingFlush(m, pdt.elems, dLength, disp, extent, bs, lens[i], disps[i]);
        AddElems(pdt, old_, dLength, disp, extent);
        ApieceFlush(lens, disps, old_, i, pdt, dLength, disp);
        pdt := Add(pdt, old_, dLength, disp, extent);
        disp, dLength := disps[i], lens[i];
        endat := disp + lens[i] * extent;
      }
    }
    assert lens[..|lens|] == lens && disps[..|lens|] == disps;
    AddElems(pdt, old_, dLength, disp, extent);
    r := Add(pdt, old_, dLength, disp, extent);
  }

  // ---------------------------------------------------------------------------
  // Blocks of one length
  // ---------------------------------------------------------------------------

  lemma {:induction false} EmptyBlocks(count: nat, disps: seq<int>, e: int)
    requires |disps| == count
    ensures Blocks(Repeat(0, count), disps, e) == []
    decreases count
  {
    if count > 0 {
      EmptyBlocks(count - 1, disps[..count - 1], e);
      assert Repeat(0, count)[..count - 1] == Repeat(0, count - 1);
    }
  }

  method CreateIndexedBlock(bLength: nat, disps: seq<int>, old_: DT) returns (r: DT)
    requires Ok(old_) && old_.kind == Plain
    ensures Ok(r) && r.kind == Plain
    ensures r.elems == Place(old_.elems, Blocks(Repeat(bLength, |disps|), Scaled(disps, Extent(old_)), Extent(old_)))
    ensures Additive(old_) ==> r == EachBlock(Repeat(bLength, |disps|), Scaled(disps, Extent(old_)), old_, |disps|)
  {
    var extent := Extent(old_);
    ghost var (m, at, lens) := (old_.elems, Scaled(disps, extent), Repeat(bLength, |disps|));
    if |disps| == 0 || bLength == 0 {
      EmptyBlocks(|disps|, at, extent);
      NoBlocks(lens, at, old_, |disps|);
      return FRESH;
    }
    var disp: int, dLength: nat := disps[0], bLength;
    var endat := disp + dLength;
    var pdt := FRESH;
    BlocksFirst(lens, at, extent);
    PendingFirst(m, dLength, disp * extent, extent);
    ApieceFirst(lens, at, old_);
    for i := 1 to |disps|
      invariant Ok(pdt) && pdt.kind == Plain && endat == disp + dLength
      invariant Apiece(lens, at, old_, i, pdt, dLength, disp * extent)
      invariant Pending(m, pdt.elems, dLength, disp * extent, extent, Blocks(lens[..i], at[..i], extent))
    {
      BlocksStep(lens, at, extent, i);
      ghost var bs := Blocks(lens[..i], at[..i], extent);
      if endat == disps[i] {
        Distributes(disp, dLength, extent);
        PendingMerge(m, pdt.elems, dLength, disp * extent, extent, bs, bLength);
        ApieceMerge(lens, at, old_, i, pdt, dLength, disp * extent);
        dLength := dLength + bLength;
        endat := endat + bLength;
      } else {
        PendingFlush(m, pdt.elems, dLength, disp * extent, extent, bs, bLength, at[i]);
        AddElems(pdt, old_, dLength, disp * extent, extent);
        ApieceFlush(lens, at, old_, i, pdt, dLength, disp * extent);
        pdt := Add(pdt, old_, dLength, disp * extent, extent);
        disp, dLength := disps[i], bLength;
        endat := disp + bLength;
      }
    }
    assert lens[..|disps|] == lens && at[..|disps|] == at;
    AddElems(pdt, old_, dLength, disp * extent, extent);
    r := Add(pdt, old_, dLength, disp * extent, extent);
  }

  /** Some block begins `bLength` bytes, not elements, behind the one before. */
  ghost predicate FalseNeighbours(disps: seq<int>, bLength: nat) {
    exists k :: 0 < k < |disps| && disps[k] == disps[k - 1] + bLength
  }

  lemma {:induction false} BlockStart(bLength: nat, disps: seq<int>, e: int, k: nat)
    requires bLength > 0 && k < |disps|
    ensures var bs := Blocks(Repeat(bLength, |disps|), disps, e);
            |bs| == bLength * |disps| && k * bLength < |bs| && bs[k * bLength] == disps[k]
    decreases |disps|
  {
    var n := |disps| - 1;
    assert Repeat(bLength, n + 1)[..n] == Repeat(bLength, n);
    if n > 0 {
      BlockStart(bLength, disps[..n], e, if k < n then k else 0);
    } else {
      assert Blocks(Repeat(bLength, 0), disps[..0], e) == [];
    }
    assert |Blocks(Repeat(bLength, n), disps[..n], e)| == bLength * n;
    if k < n {
      ProductOrder(k + 1, n, bLength);
      Distributes(k, 1, bLength);
    }
  }

  /** Lists of block positions give the same elements only when they are the same. */
  lemma {:induction false} BlocksDiffer(m: seq<Entry>, bLength: nat, a: seq<int>, b: seq<int>, e: int)
    requires |a| == |b| && a != b && bLength > 0 && m != []
    ensures Place(m, Blocks(Repeat(bLength, |a|), a, e)) != Place(m, Blocks(Repeat(bLength, |b|), b, e))
  {
    var k :| 0 <= k < |a| && a[k] != b[k];
    BlockStart(bLength, a, e, k);
    BlockStart(bLength, b, e, k);
    PlaceDiffers(m, Blocks(Repeat(bLength, |a|), a, e), Blocks(Repeat(bLength, |b|), b, e), k * bLength);
  }

  lemma SamePlaces(m: seq<Entry>, bLength: nat, a: seq<int>, b: seq<int>, e: int)
    requires |a| == |b| && bLength > 0
    ensures Place(m, Blocks(Repeat(bLength, |a|), a, e)) == Place(m, Blocks(Repeat(bLength, |b|), b, e)) <==> m == [] || a == b
  {
    if m == [] {
      PlaceNothing(Blocks(Repeat(bLength, |a|), a, e));
      PlaceNothing(Blocks(Repeat(bLength, |b|), b, e));
    } else if a != b {
      BlocksDiffer(m, bLength, a, b, e);
    }
  }

  /** Where the blocks so far were placed, against where they should be. */
  ghost predicate PlacedOk(done: seq<int>, placed: seq<int>, bLength: nat, e: int, dLength: nat) {
    && (e == 1 ==> placed == done)
    && (!FalseNeighbours(done, bLength) ==> placed == done && dLength == bLength)
    && (e != 1 && FalseNeighbours(done, bLength) ==> placed != done)
  }

  lemma PlacedStep(disps: seq<int>, i: nat, placed: seq<int>, bLength: nat, e: int, disp: int, dLength: nat)
    requires 0 < i < |disps| && |placed| == i && PlacedOk(disps[..i], placed, bLength, e, dLength)
    requires disp + dLength == disps[i - 1] + bLength && dLength > 0
    ensures disps[i] == disp + dLength ==>
              PlacedOk(disps[..i + 1], placed + [disp + dLength * e], bLength, e, dLength + bLength)
    ensures disps[i] != disp + dLength ==> PlacedOk(disps[..i + 1], placed + [disps[i]], bLength, e, bLength)
  {
    NeighboursStep(disps, bLength, i);
    Stretch(dLength, e);
    assert disps[..i + 1] == disps[..i] + [disps[i]];
  }

  ghost predicate HindexedBlockOk(disps: seq<int>, bLength: nat, old_: DT) {
    Extent(old_) == 1 || bLength == 0 || old_.elems == [] || !FalseNeighbours(disps, bLength)
  }

  lemma Verdict(disps: seq<int>, placed: seq<int>, bLength: nat, old_: DT, dLength: nat)
    requires |placed| == |disps| && bLength > 0 && PlacedOk(disps, placed, bLength, Extent(old_), dLength)
    ensures Place(old_.elems, Blocks(Repeat(bLength, |disps|), placed, Extent(old_))) ==
            Place(old_.elems, Blocks(Repeat(bLength, |disps|), disps, Extent(old_)))
            <==> HindexedBlockOk(disps, bLength, old_)
  {
    SamePlaces(old_.elems, bLength, placed, disps, Extent(old_));
  }

  /** Are only blocks merged that are neighbours? */
  ghost predicate SameBlocks(disps: seq<int>, bLength: nat, extent: int) {
    extent == 1 || bLength == 0 || !FalseNeighbours(disps, bLength)
  }

  lemma {:induction false} HindexedApiece(disps: seq<int>, i: nat, bLength: nat, t: DT, pdt: DT, n: nat, d: int)
    requires Ok(t) && t.kind == Plain && Ok(pdt) && pdt.kind == Plain && 0 < i < |disps| && bLength > 0 && d + n == disps[i - 1] + bLength
    requires SameBlocks(disps[..i], bLength, Extent(t)) ==> Apiece(Repeat(bLength, |disps|), disps, t, i, pdt, n, d)
    ensures SameBlocks(disps[..i + 1], bLength, Extent(t)) && disps[i] == d + n ==>
              Apiece(Repeat(bLength, |disps|), disps, t, i + 1, pdt, n + bLength, d)
    ensures SameBlocks(disps[..i + 1], bLength, Extent(t)) && disps[i] != d + n ==>
              Apiece(Repeat(bLength, |disps|), disps, t, i + 1, Add(pdt, t, n, d, Extent(t)), bLength, disps[i])
  {
    NeighboursStep(disps, bLength, i);
    if SameBlocks(disps[..i + 1], bLength, Extent(t)) {
      if disps[i] == d + n {
        assert n * 1 == n;
        ApieceMerge(Repeat(bLength, |disps|), disps, t, i, pdt, n, d);
      } else {
        ApieceFlush(Repeat(bLength, |disps|), disps, t, i, pdt, n, d);
      }
    }
  }

  /** The end of a run is counted in elements here although displacements are bytes, so blocks
      merge that are not neighbours: the elements are right exactly when the extent is 1, the
      type or the blocks are empty, or no displacement happens to be `bLength` more than the one
      before. */
  method CreateHindexedBlock(bLength: nat, disps: seq<int>, old_: DT) returns (r: DT)
    requires Ok(old_) && old_.kind == Plain
    ensures Ok(r) && r.kind == Plain
    ensures r.elems == Place(old_.elems, Blocks(Repeat(bLength, |disps|), disps, Extent(old_)))
            <==> HindexedBlockOk(disps, bLength, old_)
    ensures Additive(old_) && SameBlocks(disps, bLength, Extent(old_)) ==> r == EachBlock(Repeat(bLength, |disps|), disps, old_, |disps|)
  {
    var extent := Extent(old_);
    ghost var (m, lens) := (old_.elems, Repeat(bLength, |disps|));
    if |disps| == 0 || bLength == 0 {
      EmptyBlocks(|disps|, disps, extent);
      NoBlocks(lens, disps, old_, |disps|);
      return FRESH;
    }
    var disp: int, dLength: nat := disps[0], bLength;
    var endat := disp + dLength;
    var pdt := FRESH;
    ghost var placed := [disps[0]];
    BlocksFirst(lens, disps, extent);
    assert lens[..1] == Repeat(bLength, 1) && disps[..1] == placed;
    PendingFirst(m, dLength, disp, extent);
    ApieceFirst(lens, disps, old_);
    for i := 1 to |disps|
      invariant Ok(pdt) && pdt.kind == Plain && endat == disp + dLength == disps[i - 1] + bLength && dLength > 0
      invariant |placed| == i && Pending(m, pdt.elems, dLength, disp, extent, Blocks(Repeat(bLength, i), placed, extent))
      invariant PlacedOk(disps[..i], placed, bLength, extent, dLength)
      invariant SameBlocks(disps[..i], bLength, extent) ==> Apiece(lens, disps, old_, i, pdt, dLength, disp)
    {
      ghost var bs := Blocks(Repeat(bLength, i), placed, extent);
      ghost var at := if endat == disps[i] then disp + dLength * extent else disps[i];
      OneMore(bLength, placed, at, extent);
      PlacedStep(disps, i, placed, bLength, extent, disp, dLength);
      HindexedApiece(disps, i, bLength, old_, pdt, dLength, disp);
      if endat == disps[i] {
        PendingMerge(m, pdt.elems, dLength, disp, extent, bs, bLength);
        dLength := dLength + bLength;
        endat := endat + bLength;
      } else {
        PendingFlush(m, pdt.elems, dLength, disp, extent, bs, bLength, disps[i]);
        AddElems(pdt, old_, dLength, disp, extent);
        pdt := Add(pdt, old_, dLength, disp, extent);
        disp, dLength := disps[i], bLength;
        endat := disp + bLength;
      }
      placed := placed + [at];
    }
    assert disps[..|disps|] == disps;
    Verdict(disps, placed, bLength, old_, dLength);
    AddElems(pdt, old_, dLength, disp, extent);
    r := Add(pdt, old_, dLength, disp, extent);
  }

  lemma OneMore(bLength: nat, placed: seq<int>, at: int, e: int)
    ensures Blocks(Repeat(bLength, |placed| + 1), placed + [at], e) ==
            Blocks(Repeat(bLength, |placed|), placed, e) + Run(bLength, at, e)
  {
    assert (placed + [at])[..|placed|] == placed;
    assert Repeat(bLength, |placed| + 1)[..|placed|] == Repeat(bLength, |placed|);
  }

  lemma NeighboursStep(disps: seq<int>, bLength: nat, i: nat)
    requires 0 < i < |disps|
    ensures FalseNeighbours(disps[..i + 1], bLength) <==>
            FalseNeighbours(disps[..i], bLength) || disps[i] == disps[i - 1] + bLength
  {
    var (before, after) := (disps[..i], disps[..i + 1]);
    if k :| 0 < k < |before| && before[k] == before[k - 1] + bLength {
      assert after[k] == after[k - 1] + bLength;
    }
    if disps[i] == disps[i - 1] + bLength {
      assert after[i] == after[i - 1] + bLength;
    }
    if k :| 0 < k < |after| && after[k] == after[k - 1] + bLength && k < i {
      assert before[k] == before[k - 1] + bLength;
    }
  }

  lemma {:induction false} Stretch(n: nat, e: int)
    ensures n > 0 ==> (n * e == n <==> e == 1)
  {
    if n > 0 && e != 1 {
      if e > 1 {
        assert n * e > n;
      } else {
        assert n * e <= 0;
      }
    }
  }

  // ---------------------------------------------------------------------------
  // Struct
  // ---------------------------------------------------------------------------

  /** The arguments of a struct. Types are compared by handle, an index into `table`. */
  predicate StructArgs(lens: seq<nat>, disps: seq<int>, types: seq<nat>, table: seq<DT>) {
    && |lens| == |disps| == |types|
    && forall i :: 0 <= i < |types| ==> types[i] < |table| && Ok(table[types[i]])
  }

  /** The first `k` blocks, each added by itself. */
  function StructElems(lens: seq<nat>, disps: seq<int>, types: seq<nat>, table: seq<DT>, k: nat): seq<Entry>
    requires StructArgs(lens, disps, types, table) && k <= |lens|
  {
    if k == 0 then []
    else
      var t := table[types[k - 1]];
      StructElems(lens, disps, types, table, k - 1) + Place(t.elems, Run(lens[k - 1], disps[k - 1], Extent(t)))
  }

  /** The type, bounds included, that adding the first `k` blocks one by one gives. */
  function AddEach(lens: seq<nat>, disps: seq<int>, types: seq<nat>, table: seq<DT>, k: nat): (r: DT)
    requires StructArgs(lens, disps, types, table) && k <= |lens|
    ensures Ok(r) && r.kind == Plain
  {
    if k == 0 then FRESH
    else
      var t := table[types[k - 1]];
      Add(AddEach(lens, disps, types, table, k - 1), t, lens[k - 1], disps[k - 1], Extent(t))
  }

  lemma {:induction false} LongerRun(m: seq<Entry>, done: seq<Entry>, n: nat, k: nat, d: int, e: int)
    ensures done + Place(m, Run(n + k, d, e)) == (done + Place(m, Run(n, d, e))) + Place(m, Run(k, d + n * e, e))
  {
    RunConcat(n, k, d, e);
    PlaceConcat(m, Run(n, d, e), Run(k, d + n * e, e));
    Associates(done, Place(m, Run(n, d, e)), Place(m, Run(k, d + n * e, e)));
  }

  /** `done` and a pending run of `n` copies of `m` at `d` make up `all`. */
  ghost predicate Completes(m: seq<Entry>, done: seq<Entry>, n: nat, d: int, e: int, all: seq<Entry>) {
    done + Place(m, Run(n, d, e)) == all
  }

  lemma {:induction false} CompletesFirst(lens: seq<nat>, disps: seq<int>, types: seq<nat>, table: seq<DT>)
    requires StructArgs(lens, disps, types, table) && lens != []
    ensures var t := table[types[0]];
            Completes(t.elems, [], lens[0], disps[0], Extent(t), StructElems(lens, disps, types, table, 1))
  {
    assert StructElems(lens, disps, types, table, 0) == [];
  }

  lemma {:induction false} CompletesMerge(lens: seq<nat>, disps: seq<int>, types: seq<nat>, table: seq<DT>, i: nat,
                                          done: seq<Entry>, n: nat, d: int)
    requires StructArgs(lens, disps, types, table) && i < |lens|
    requires var t := table[types[i]];
             Completes(t.elems, done, n, d, Extent(t), StructElems(lens, disps, types, table, i)) && disps[i] == d + n * Extent(t)
    ensures var t := table[types[i]];
            Completes(t.elems, done, n + lens[i], d, Extent(t), StructElems(lens, disps, types, table, i + 1))
  {
    LongerRun(table[types[i]].elems, done, n, lens[i], d, Extent(table[types[i]]));
  }

  lemma {:induction false} CompletesFlush(lens: seq<nat>, disps: seq<int>, types: seq<nat>, table: seq<DT>, i: nat)
    requires StructArgs(lens, disps, types, table) && i < |lens|
    ensures var t := table[types[i]];
            Completes(t.elems, StructElems(lens, disps, types, table, i), lens[i], disps[i], Extent(t),
                      StructElems(lens, disps, types, table, i + 1))
  {
  }

  lemma {:induction false} CompletesAdd(pdt: DT, t: DT, n: nat, d: int, all: seq<Entry>)
    requires Ok(pdt) && Ok(t) && pdt.kind == Plain && Completes(t.elems, pdt.elems, n, d, Extent(t), all)
    ensures Add(pdt, t, n, d, Extent(t)).elems == all
  {
    AddElems(pdt, t, n, d, Extent(t));
  }

  predicate NeighboursDiffer(types: seq<nat>) {
    forall i :: 0 < i < |types| ==> types[i] != types[i - 1]
  }

  /** Does block `i` set the lower bound, and where? */
  predicate SetsLower(t: DT) {
    t.kind == LowerMark || (t.kind == Plain && t.userLb)
  }

  function LowerAt(t: DT, disp: int): int {
    if t.kind == Plain then disp + t.lb else disp
  }

  /** `lb` lies at or below the end of each block whose type sets no bound. */
  predicate BelowEnds(lb: int, disps: seq<int>, types: seq<nat>, table: seq<DT>)
    requires |disps| == |types| && forall i :: 0 <= i < |types| ==> types[i] < |table|
  {
    forall j :: 0 <= j < |types| ==>
      var t := table[types[j]];
      t.kind == Plain && !t.userLb && !t.userUb ==> lb <= disps[j] + t.ub
  }

  /** No extent is negative, marks have none, and a lower bound that a block sets lies at or
      below the end of each block whose type sets no bound. */
  predicate Tidy(lens: seq<nat>, disps: seq<int>, types: seq<nat>, table: seq<DT>)
    requires StructArgs(lens, disps, types, table)
  {
    forall i :: 0 <= i < |types| ==>
      var t := table[types[i]];
      Additive(t) && (SetsLower(t) ==> BelowEnds(LowerAt(t, disps[i]), disps, types, table))
  }

  ghost predicate LowOk(t: DT, lens: seq<nat>, disps: seq<int>, types: seq<nat>, table: seq<DT>)
    requires StructArgs(lens, disps, types, table)
  {
    t.userLb ==> BelowEnds(t.lb, disps, types, table)
  }

  lemma {:induction false} AddKeepsLow(base: DT, t: DT, n: nat, disp: int, lens: seq<nat>, disps: seq<int>, types: seq<nat>, table: seq<DT>)
    requires StructArgs(lens, disps, types, table) && LowOk(base, lens, disps, types, table)
    requires Ok(base) && Ok(t) && base.kind == Plain && Additive(t)
    requires SetsLower(t) ==> BelowEnds(LowerAt(t, disp), disps, types, table)
    ensures LowOk(Add(base, t, n, disp, Extent(t)), lens, disps, types, table)
  {
    var r := Add(base, t, n, disp, Extent(t));
    if n > 0 {
      ProductOrder(0, n - 1, Extent(t));
      assert r.userLb ==> (base.userLb && r.lb <= base.lb) || (SetsLower(t) && r.lb <= LowerAt(t, disp));
    }
  }

  lemma {:induction false} EachLow(lens: seq<nat>, disps: seq<int>, types: seq<nat>, table: seq<DT>, k: nat)
    requires StructArgs(lens, disps, types, table) && k <= |lens| && Tidy(lens, disps, types, table)
    ensures LowOk(AddEach(lens, disps, types, table, k), lens, disps, types, table)
  {
    if k > 0 {
      EachLow(lens, disps, types, table, k - 1);
      AddKeepsLow(AddEach(lens, disps, types, table, k - 1), table[types[k - 1]], lens[k - 1], disps[k - 1],
                  lens, disps, types, table);
    }
  }

  /** The bounds so far: what is pending, added to the type so far, is what adding block after
      block gives. */
  ghost predicate BoundsInv(lens: seq<nat>, disps: seq<int>, types: seq<nat>, table: seq<DT>, i: nat,
                            pdt: DT, n: nat, d: int)
    requires StructArgs(lens, disps, types, table) && 0 < i <= |lens| && Ok(pdt) && pdt.kind == Plain
  {
    match table[types[i - 1]]
    case t =>
    && Add(pdt, t, n, d, Extent(t)) == AddEach(lens, disps, types, table, i)
    && (t.kind == Plain ==> Spans(pdt, t, d + t.ub))
  }

  lemma {:induction false} BoundsStart(lens: seq<nat>, disps: seq<int>, types: seq<nat>, table: seq<DT>, i: nat, pdt: DT)
    requires StructArgs(lens, disps, types, table) && i < |lens| && Tidy(lens, disps, types, table)
    requires pdt == AddEach(lens, disps, types, table, i)
    ensures BoundsInv(lens, disps, types, table, i + 1, pdt, lens[i], disps[i])
  {
    EachLow(lens, disps, types, table, i);
  }

  lemma {:induction false} BoundsMerge(lens: seq<nat>, disps: seq<int>, types: seq<nat>, table: seq<DT>, i: nat,
                                       pdt: DT, n: nat, d: int)
    requires StructArgs(lens, disps, types, table) && 0 < i < |lens| && Ok(pdt) && pdt.kind == Plain && Tidy(lens, disps, types, table)
    requires BoundsInv(lens, disps, types, table, i, pdt, n, d)
    requires types[i] == types[i - 1] && disps[i] == d + n * Extent(table[types[i]])
    ensures BoundsInv(lens, disps, types, table, i + 1, pdt, n + lens[i], d)
  {
    MergedAdd(pdt, table[types[i]], n, lens[i], d, disps[i]);
    assert AddEach(lens, disps, types, table, i + 1) ==
           Add(AddEach(lens, disps, types, table, i), table[types[i]], lens[i], disps[i], Extent(table[types[i]]));
  }

  lemma {:induction false} MergedAdd(pdt: DT, t: DT, n: nat, k: nat, d: int, next: int)
    requires Ok(pdt) && Ok(t) && pdt.kind == Plain && Additive(t) && (t.kind == Plain ==> Spans(pdt, t, d + t.ub))
    requires next == d + n * Extent(t)
    ensures Add(pdt, t, n + k, d, Extent(t)) == Add(Add(pdt, t, n, d, Extent(t)), t, k, next, Extent(t))
  {
    AddTwice(pdt, t, n, k, d);
  }

  /** A block that is added at once. */
  datatype Piece = Piece(len: nat, disp: int, handle: nat)

  /** The first `k` blocks with neighbours merged: a block of the same type that begins where the
      one before ends makes that one longer. */
  function Merged(lens: seq<nat>, disps: seq<int>, types: seq<nat>, table: seq<DT>, k: nat): (r: seq<Piece>)
    requires StructArgs(lens, disps, types, table) && k <= |lens|
    ensures BlocksOk(r, table) && (k > 0 ==> r != [] && r[|r| - 1].handle == types[k - 1])
  {
    if k == 0 then []
    else
      var before := Merged(lens, disps, types, table, k - 1);
      var b := Piece(lens[k - 1], disps[k - 1], types[k - 1]);
      if before != [] && Touches(before[|before| - 1], b, table) then Longer(before, b.len) else before + [b]
  }

  predicate BlocksOk(blocks: seq<Piece>, table: seq<DT>) {
    forall i :: 0 <= i < |blocks| ==> blocks[i].handle < |table| && Ok(table[blocks[i].handle])
  }

  predicate Touches(a: Piece, b: Piece, table: seq<DT>)
    requires a.handle < |table|
  {
    a.handle == b.handle && b.disp == a.disp + a.len * Extent(table[a.handle])
  }

  function Longer(blocks: seq<Piece>, n: nat): seq<Piece>
    requires blocks != []
  {
    var last := blocks[|blocks| - 1];
    blocks[..|blocks| - 1] + [last.(len := last.len + n)]
  }

  /** Adding blocks one after the other. */
  function AddBlocks(blocks: seq<Piece>, table: seq<DT>): (r: DT)
    requires BlocksOk(blocks, table)
    ensures Ok(r) && r.kind == Plain
  {
    if blocks == [] then FRESH
    else
      var b := blocks[|blocks| - 1];
      Add(AddBlocks(blocks[..|blocks| - 1], table), table[b.handle], b.len, b.disp, Extent(table[b.handle]))
  }

  /** `pdt` is what all but the last of the merged blocks give, and the last one is pending. */
  ghost predicate MergeInv(lens: seq<nat>, disps: seq<int>, types: seq<nat>, table: seq<DT>, i: nat, pdt: DT, n: nat, d: int)
    requires StructArgs(lens, disps, types, table) && 0 < i <= |lens|
  {
    match Merged(lens, disps, types, table, i)
    case blocks =>
    && blocks[|blocks| - 1] == Piece(n, d, types[i - 1])
    && BlocksOk(blocks[..|blocks| - 1], table) && pdt == AddBlocks(blocks[..|blocks| - 1], table)
  }

  lemma {:induction false} MergeInvStart(lens: seq<nat>, disps: seq<int>, types: seq<nat>, table: seq<DT>)
    requires StructArgs(lens, disps, types, table) && lens != []
    ensures MergeInv(lens, disps, types, table, 1, FRESH, lens[0], disps[0])
  {
    assert Merged(lens, disps, types, table, 0) == [];
    assert [] + [Piece(lens[0], disps[0], types[0])] == [Piece(lens[0], disps[0], types[0])];
  }

  /** The next block: it makes the pending one longer, or the pending one is added. */
  lemma {:induction false} MergeInvStep(lens: seq<nat>, disps: seq<int>, types: seq<nat>, table: seq<DT>, i: nat, pdt: DT, n: nat, d: int)
    requires StructArgs(lens, disps, types, table) && 0 < i < |lens| && MergeInv(lens, disps, types, table, i, pdt, n, d)
    requires Ok(pdt) && pdt.kind == Plain
    ensures var t := table[types[i - 1]];
            if types[i] == types[i - 1] && disps[i] == d + n * Extent(t)
            then MergeInv(lens, disps, types, table, i + 1, pdt, n + lens[i], d)
            else MergeInv(lens, disps, types, table, i + 1, Add(pdt, t, n, d, Extent(t)), lens[i], disps[i])
  {
    var blocks := Merged(lens, disps, types, table, i);
    var more := Merged(lens, disps, types, table, i + 1);
    var b := Piece(lens[i], disps[i], types[i]);
    if Touches(blocks[|blocks| - 1], b, table) {
      assert more == Longer(blocks, b.len);
      assert more[..|more| - 1] == blocks[..|blocks| - 1];
    } else {
      assert more == blocks + [b] && more[..|more| - 1] == blocks;
    }
  }

  lemma {:induction false} MergeInvEnd(lens: seq<nat>, disps: seq<int>, types: seq<nat>, table: seq<DT>, i: nat, pdt: DT, n: nat, d: int)
    requires StructArgs(lens, disps, types, table) && 0 < i <= |lens| && MergeInv(lens, disps, types, table, i, pdt, n, d)
    requires Ok(pdt) && pdt.kind == Plain
    ensures var t := table[types[i - 1]];
            Add(pdt, t, n, d, Extent(t)) == AddBlocks(Merged(lens, disps, types, table, i), table)
  {
  }

  /** The state of the loop before block `i`: the type so far and the run not added yet. */
  ghost function StructInv(lens: seq<nat>, disps: seq<int>, types: seq<nat>, table: seq<DT>): (nat, DT, nat, int) -> bool {
    (i: nat, pdt: DT, n: nat, d: int) =>
      && StructArgs(lens, disps, types, table) && 0 < i <= |lens| && Ok(pdt) && pdt.kind == Plain
      && Completes(table[types[i - 1]].elems, pdt.elems, n, d, Extent(table[types[i - 1]]),
                   StructElems(lens, disps, types, table, i))
      && (NeighboursDiffer(types) ==>
            pdt == AddEach(lens, disps, types, table, i - 1) && n == lens[i - 1] && d == disps[i - 1])
      && (Tidy(lens, disps, types, table) ==> BoundsInv(lens, disps, types, table, i, pdt, n, d))
      && MergeInv(lens, disps, types, table, i, pdt, n, d)
  }

  lemma {:induction false} MergeKeeps(lens: seq<nat>, disps: seq<int>, types: seq<nat>, table: seq<DT>, i: nat,
                                      pdt: DT, n: nat, d: int)
    requires StructInv(lens, disps, types, table)(i, pdt, n, d) && i < |lens|
    requires types[i] == types[i - 1] && disps[i] == d + n * Extent(table[types[i]])
    ensures StructInv(lens, disps, types, table)(i + 1, pdt, n + lens[i], d)
  {
    CompletesMerge(lens, disps, types, table, i, pdt.elems, n, d);
    MergeInvStep(lens, disps, types, table, i, pdt, n, d);
    if Tidy(lens, disps, types, table) {
      BoundsMerge(lens, disps, types, table, i, pdt, n, d);
    }
  }

  /** The type that adding the merged blocks gives: it has always the elements of adding the first
      `k` blocks one by one, and is the very same type, bounds included, when the arguments are tidy or no two neighbours could merge. */
  ghost predicate StructResult(lens: seq<nat>, disps: seq<int>, types: seq<nat>, table: seq<DT>, k: nat, r: DT) {
    match (r, k)
    case (made, count) =>
    && StructArgs(lens, disps, types, table) && k <= |lens| && Ok(r) && r.kind == Plain
    && r == AddBlocks(Merged(lens, disps, types, table, k), table)
    && r.elems == StructElems(lens, disps, types, table, k)
    && (NeighboursDiffer(types) || Tidy(lens, disps, types, table) ==> r == AddEach(lens, disps, types, table, k))
  }

  lemma {:induction false} AddResult(lens: seq<nat>, disps: seq<int>, types: seq<nat>, table: seq<DT>, i: nat,
                                     pdt: DT, n: nat, d: int)
    requires StructInv(lens, disps, types, table)(i, pdt, n, d)
    ensures StructArgs(lens, disps, types, table) && 0 < i <= |lens| && Ok(pdt) && pdt.kind == Plain
    ensures var t := table[types[i - 1]];
            StructResult(lens, disps, types, table, i, Add(pdt, t, n, d, Extent(t)))
  {
    CompletesAdd(pdt, table[types[i - 1]], n, d, StructElems(lens, disps, types, table, i));
    MergeInvEnd(lens, disps, types, table, i, pdt, n, d);
  }

  lemma {:induction false} AddCompletes(lens: seq<nat>, disps: seq<int>, types: seq<nat>, table: seq<DT>, i: nat,
                                        pdt: DT, n: nat, d: int)
    requires StructInv(lens, disps, types, table)(i, pdt, n, d)
    requires i < |lens| ==> !(types[i] == types[i - 1] && disps[i] == d + n * Extent(table[types[i]]))
    ensures var t := table[types[i - 1]];
            var r := Add(pdt, t, n, d, Extent(t));
            && StructResult(lens, disps, types, table, i, r)
            && (i < |lens| ==> StructInv(lens, disps, types, table)(i + 1, r, lens[i], disps[i]))
  {
    AddResult(lens, disps, types, table, i, pdt, n, d);
    if i < |lens| {
      MergeInvStep(lens, disps, types, table, i, pdt, n, d);
      var t := table[types[i - 1]];
      FlushedInv(lens, disps, types, table, i, Add(pdt, t, n, d, Extent(t)));
    }
  }

  lemma {:induction false} FlushedInv(lens: seq<nat>, disps: seq<int>, types: seq<nat>, table: seq<DT>, i: nat, r: DT)
    requires StructResult(lens, disps, types, table, i, r) && i < |lens|
    requires MergeInv(lens, disps, types, table, i + 1, r, lens[i], disps[i])
    ensures StructInv(lens, disps, types, table)(i + 1, r, lens[i], disps[i])
  {
    CompletesFlush(lens, disps, types, table, i);
    if Tidy(lens, disps, types, table) {
      BoundsStart(lens, disps, types, table, i, r);
    }
  }

  lemma {:induction false} StructStart(lens: seq<nat>, disps: seq<int>, types: seq<nat>, table: seq<DT>)
    requires StructArgs(lens, disps, types, table)
    ensures lens == [] ==> StructResult(lens, disps, types, table, 0, FRESH)
    ensures lens != [] ==> StructInv(lens, disps, types, table)(1, FRESH, lens[0], disps[0])
  {
    if lens != [] {
      CompletesFirst(lens, disps, types, table);
      MergeInvStart(lens, disps, types, table);
      if Tidy(lens, disps, types, table) {
        BoundsStart(lens, disps, types, table, 0, FRESH);
      }
    }
  }

  lemma {:induction false} NoMerges(lens: seq<nat>, disps: seq<int>, types: seq<nat>, table: seq<DT>, r: DT)
    requires StructArgs(lens, disps, types, table) && StructResult(lens, disps, types, table, |lens|, r) && NeighboursDiffer(types)
    ensures r == AddEach(lens, disps, types, table, |lens|)
  {
  }

  method CreateStruct(lens: seq<nat>, disps: seq<int>, types: seq<nat>, table: seq<DT>) returns (r: DT)
    requires StructArgs(lens, disps, types, table)
    ensures StructResult(lens, disps, types, table, |lens|, r)
  {
    StructStart(lens, disps, types, table);
    if |lens| == 0 {
      return FRESH;
    }
    var lastType, lastBlock: nat, lastDisp := types[0], lens[0], disps[0];
    var lastExtent := Extent(table[lastType]);
    var endto := lastDisp + lastBlock * lastExtent;
    var pdt := FRESH;
    for i := 1 to |lens|
      invariant lastType == types[i - 1] && lastExtent == Extent(table[lastType])
      invariant endto == lastDisp + lastBlock * lastExtent
      invariant StructInv(lens, disps, types, table)(i, pdt, lastBlock, lastDisp)
    {
      if types[i] == lastType && disps[i] == endto {
        MergeKeeps(lens, disps, types, table, i, pdt, lastBlock, lastDisp);
        lastBlock := lastBlock + lens[i];
        endto := lastDisp + lastBlock * lastExtent;
      } else {
        AddCompletes(lens, disps, types, table, i, pdt, lastBlock, lastDisp);
        pdt := Add(pdt, table[lastType], lastBlock, lastDisp, lastExtent);
        lastType, lastBlock, lastDisp := types[i], lens[i], disps[i];
        lastExtent := Extent(table[lastType]);
        endto := lastDisp + lastBlock * lastExtent;
      }
    }
    AddCompletes(lens, disps, types, table, |lens|, pdt, lastBlock, lastDisp);
    r := Add(pdt, table[lastType], lastBlock, lastDisp, lastExtent);
  }

  /** The bounds after copies of a type without bounds of its own, by hand: `span` is the distance
      from the lower bound and `rest` its remainder. */
  lemma {:induction false} BoundsByHand(base: DT, t: DT, n: nat, d: int, last: int, lb: int, hi: int, rest: int)
    requires Ok(base) && Ok(t) && base.kind == t.kind == Plain && n > 0 && Extent(t) != -1 && last == d + Extent(t) * (n - 1)
    requires !base.userUb && !t.userUb && !t.userLb
    requires lb == (if base.userLb then base.lb else Min(base.lb, Min(d, last) + t.lb)) && hi == Max(base.ub, Max(d, last) + t.ub)
    requires rest == CRem(hi - lb, Max(base.align, t.align))
    ensures var r := Add(base, t, n, d, Extent(t));
            && r.lb == lb && r.ub == (if rest == 0 then hi else hi + Max(base.align, t.align) - rest)
            && r.userLb == base.userLb && !r.userUb && r.align == Max(base.align, t.align)
  {
  }

  /** Two blocks of a type of extent -2, the second right before the first. */
  ghost predicate Backwards(lens: seq<nat>, disps: seq<int>, types: seq<nat>, table: seq<DT>) {
    && lens == [1, 1] && disps == [0, -2] && types == [0, 0]
    && table == [DT(Plain, [Entry(0, 0)], 2, 0, false, false, 4)]
  }

  /** With a negative extent the bounds after a merge are others. */
  method MergeLosesBound(lens: seq<nat>, disps: seq<int>, types: seq<nat>, table: seq<DT>) returns (r: DT)
    requires Backwards(lens, disps, types, table)
    ensures StructArgs(lens, disps, types, table) && r.ub == 0 && AddEach(lens, disps, types, table, 2).ub == 8
  {
    LosesEach(lens, disps, types, table);
    LosesMerged(lens, disps, types, table);
    r := CreateStruct(lens, disps, types, table);
  }

  lemma {:induction false} LosesEach(lens: seq<nat>, disps: seq<int>, types: seq<nat>, table: seq<DT>)
    requires Backwards(lens, disps, types, table)
    ensures StructArgs(lens, disps, types, table) && AddEach(lens, disps, types, table, 2).ub == 8
  {
    var t := table[0];
    EachStep(lens, disps, types, table, 0);
    EachStep(lens, disps, types, table, 1);
    assert AddEach(lens, disps, types, table, 0) == FRESH;
    var one := Add(FRESH, t, 1, 0, -2);
    assert CRem(-2, 4) == -2 && CRem(4, 4) == 0 && CRem(6, 4) == 2;
    BoundsByHand(FRESH, t, 1, 0, 0, 2, 0, -2);
    assert one.lb == 2 && one.ub == 6;
    BoundsByHand(one, t, 1, -2, -2, 0, 6, 2);
  }

  lemma {:induction false} LosesMerged(lens: seq<nat>, disps: seq<int>, types: seq<nat>, table: seq<DT>)
    requires Backwards(lens, disps, types, table) && StructArgs(lens, disps, types, table)
    ensures AddBlocks(Merged(lens, disps, types, table, 2), table).ub == 0
  {
    var (t, a, b) := (table[0], Piece(1, 0, 0), Piece(2, 0, 0));
    assert Merged(lens, disps, types, table, 0) == [] && Merged(lens, disps, types, table, 1) == [a];
    assert Touches(a, Piece(1, -2, 0), table);
    assert Merged(lens, disps, types, table, 2) == Longer([a], 1) == [b];
    assert [b][..0] == [];
    assert CRem(0, 4) == 0;
    BoundsByHand(FRESH, t, 2, 0, -2, 0, 0, 0);
    assert AddBlocks([b], table) == Add(FRESH, t, 2, 0, -2);
  }

  /** A mark at 4, and two blocks of two bytes each at 0 and 2. */
  ghost predicate UnderMark(lens: seq<nat>, disps: seq<int>, types: seq<nat>, table: seq<DT>) {
    && lens == [1, 1, 1] && disps == [4, 0, 2] && types == [0, 1, 1]
    && table == [DT(LowerMark, [], 0, 0, false, false, 1), DT(Plain, [Entry(0, 0)], 0, 2, false, false, 4)]
  }

  /** So they are when the user's lower bound lies above the blocks. */
  method MergeUnderMark(lens: seq<nat>, disps: seq<int>, types: seq<nat>, table: seq<DT>) returns (r: DT)
    requires UnderMark(lens, disps, types, table)
    ensures StructArgs(lens, disps, types, table) && r.ub == 4 && AddEach(lens, disps, types, table, 3).ub == 8
  {
    UnderMarkEach(lens, disps, types, table);
    UnderMarkMerged(lens, disps, types, table);
    r := CreateStruct(lens, disps, types, table);
  }

  lemma {:induction false} UnderMarkEach(lens: seq<nat>, disps: seq<int>, types: seq<nat>, table: seq<DT>)
    requires UnderMark(lens, disps, types, table)
    ensures StructArgs(lens, disps, types, table) && AddEach(lens, disps, types, table, 3).ub == 8
  {
    EachOfThree(lens, disps, types, table, table[0], table[1], table[1]);
    UnderMarkOne(table[0]);
    UnderMarkTwo(Add(FRESH, table[0], 1, 4, Extent(table[0])), table[1]);
  }

  lemma {:induction false} UnderMarkOne(mark: DT)
    requires mark == DT(LowerMark, [], 0, 0, false, false, 1)
    ensures Add(FRESH, mark, 1, 4, Extent(mark)) == FRESH.(lb := 4, userLb := true)
  {
  }

  lemma {:induction false} EachOfThree(lens: seq<nat>, disps: seq<int>, types: seq<nat>, table: seq<DT>, a: DT, b: DT, c: DT)
    requires StructArgs(lens, disps, types, table) && |lens| == 3
    requires a == table[types[0]] && b == table[types[1]] && c == table[types[2]]
    ensures AddEach(lens, disps, types, table, 3) ==
            Add(Add(Add(FRESH, a, lens[0], disps[0], Extent(a)), b, lens[1], disps[1], Extent(b)), c, lens[2], disps[2], Extent(c))
  {
    EachStep(lens, disps, types, table, 0);
    EachStep(lens, disps, types, table, 1);
    EachStep(lens, disps, types, table, 2);
    assert AddEach(lens, disps, types, table, 0) == FRESH;
  }

  lemma {:induction false} EachStep(lens: seq<nat>, disps: seq<int>, types: seq<nat>, table: seq<DT>, k: nat)
    requires StructArgs(lens, disps, types, table) && k < |lens|
    ensures var t := table[types[k]];
            AddEach(lens, disps, types, table, k + 1) == Add(AddEach(lens, disps, types, table, k), t, lens[k], disps[k], Extent(t))
  {
  }

  lemma {:induction false} UnderMarkTwo(base: DT, t: DT)
    requires base == FRESH.(lb := 4, userLb := true) && t == DT(Plain, [Entry(0, 0)], 0, 2, false, false, 4)
    ensures Add(Add(base, t, 1, 0, 2), t, 1, 2, 2).ub == 8
  {
    var one := Add(base, t, 1, 0, 2);
    assert CRem(-2, 4) == -2 && CRem(4, 4) == 0;
    BoundsByHand(base, t, 1, 0, 0, 4, 2, -2);
    assert one.lb == 4 && one.ub == 8 && one.userLb;
    BoundsByHand(one, t, 1, 2, 2, 4, 8, 0);
  }

  lemma {:induction false} UnderMarkMerged(lens: seq<nat>, disps: seq<int>, types: seq<nat>, table: seq<DT>)
    requires UnderMark(lens, disps, types, table) && StructArgs(lens, disps, types, table)
    ensures AddBlocks(Merged(lens, disps, types, table, 3), table).ub == 4
  {
    var (a, b, c) := (Piece(1, 4, 0), Piece(1, 0, 1), Piece(2, 0, 1));
    assert Merged(lens, disps, types, table, 0) == [] && Merged(lens, disps, types, table, 1) == [a];
    assert Merged(lens, disps, types, table, 2) == [a] + [b];
    assert Merged(lens, disps, types, table, 3) == Longer([a, b], 1) == [a, c];
    assert [a, c][..1] == [a] && [a][..0] == [];
    var base := AddBlocks([a], table);
    assert AddBlocks([], table) == FRESH && Extent(table[0]) == 0;
    assert base == Add(FRESH, table[0], 1, 4, 0);
    UnderMarkOne(table[0]);
    assert CRem(0, 4) == 0;
    BoundsByHand(base, table[1], 2, 0, 2, 4, 4, 0);
    assert AddBlocks([a, c], table) == Add(base, table[1], 2, 0, 2);
  }
}
