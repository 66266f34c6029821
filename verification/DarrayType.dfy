/** The distributed array constructor itself: `block`, `cyclic` and
    ompi_datatype_create_darray, against the ownership of module Darray. */
module DarrayType {
  import opened TypeMap
  import opened Constructors
  import opened Subarray
  import opened Darray

  /** The displacements relative to the first element owned, for rows of relative indices. */
  function RelGrid(rels: seq<seq<int>>, sizes: seq<nat>, e: int, k: nat): seq<int>
    requires k <= |rels| && k <= |sizes|
  {
    if k == 0 then [0] else Sums(Scaled(rels[k - 1], Prod(sizes, k - 1) * e), RelGrid(rels, sizes, e, k - 1))
  }

  lemma {:induction false} ScaledPlus(d: int, xs: seq<int>, e: int)
    ensures Scaled(Plus(d, xs), e) == Plus(d * e, Scaled(xs, e))
  {
    forall i | 0 <= i < |xs|
      ensures Scaled(Plus(d, xs), e)[i] == Plus(d * e, Scaled(xs, e))[i]
    {
      Distributes(d, xs[i], e);
    }
  }

  lemma {:induction false} ScaledScaled(xs: seq<int>, p: int, e: int)
    ensures Scaled(Scaled(xs, p), e) == Scaled(xs, p * e)
  {
    forall i | 0 <= i < |xs|
      ensures Scaled(Scaled(xs, p), e)[i] == Scaled(xs, p * e)[i]
    {
      assert (xs[i] * p) * e == xs[i] * (p * e);
    }
  }

  lemma {:induction false} ScaledSums(outer: seq<int>, inner: seq<int>, e: int)
    ensures Scaled(Sums(outer, inner), e) == Sums(Scaled(outer, e), Scaled(inner, e))
  {
    if outer != [] {
      ScaledSums(outer[1..], inner, e);
      assert Scaled(outer, e)[1..] == Scaled(outer[1..], e);
      ScaledPlus(outer[0], inner, e);
      ScaledConcat(Plus(outer[0], inner), Sums(outer[1..], inner), e);
    }
  }

  lemma {:induction false} MoveBoth(o: int, st: int, outer: seq<int>, inner: seq<int>)
    ensures Sums(Plus(st, outer), Plus(o, inner)) == Plus(st + o, Sums(outer, inner))
  {
    PlusSums(o, Plus(st, outer), inner);
    SumsPlus(st, outer, inner);
    PlusPlus(o, st, Sums(outer, inner));
  }

  lemma {:induction false} GridScaled(rows: seq<seq<int>>, sizes: seq<nat>, rel: seq<int>, st: int, e: int, k: nat, unit: int)
    requires 0 < k <= |rows| && k <= |sizes| && unit == Prod(sizes, k - 1) * e && rows[k - 1] == Plus(st, rel)
    ensures Scaled(GridOf(rows, sizes, k), e) == Sums(Plus(st * unit, Scaled(rel, unit)), Scaled(GridOf(rows, sizes, k - 1), e))
  {
    var p := Prod(sizes, k - 1);
    ScaledSums(Scaled(rows[k - 1], p), GridOf(rows, sizes, k - 1), e);
    ScaledScaled(rows[k - 1], p, e);
    ScaledPlus(st, rel, unit);
  }

  lemma {:induction false} OriginScaled(sizes: seq<nat>, starts: seq<int>, e: int, k: nat, unit: int)
    requires 0 < k <= |sizes| && k <= |starts| && unit == Prod(sizes, k - 1) * e
    ensures Origin(sizes, starts, k) * e == starts[k - 1] * unit + Origin(sizes, starts, k - 1) * e
  {
    Distribute3(Origin(sizes, starts, k - 1), starts[k - 1], Prod(sizes, k - 1), e);
  }

  /** Built one dimension at a time and moved to the first element, the list is the positions
      in the rows, in order. */
  lemma {:induction false} RelGridIsGrid(rows: seq<seq<int>>, rels: seq<seq<int>>, sizes: seq<nat>, starts: seq<int>, e: int, k: nat)
    requires k <= |rows| && k <= |rels| && k <= |sizes| && k <= |starts|
    requires forall d :: 0 <= d < k ==> rows[d] == Plus(starts[d], rels[d])
    ensures Plus(Origin(sizes, starts, k) * e, RelGrid(rels, sizes, e, k)) == Scaled(GridOf(rows, sizes, k), e)
  {
    if k > 0 {
      RelGridIsGrid(rows, rels, sizes, starts, e, k - 1);
      var unit := Prod(sizes, k - 1) * e;
      GridScaled(rows, sizes, rels[k - 1], starts[k - 1], e, k, unit);
      OriginScaled(sizes, starts, e, k, unit);
      MoveBoth(Origin(sizes, starts, k - 1) * e, starts[k - 1] * unit, Scaled(rels[k - 1], unit), RelGrid(rels, sizes, e, k - 1));
    }
  }

  lemma {:induction false} ScaledRun(n: nat, d: int, s: int, e: int)
    ensures Scaled(Run(n, d, s), e) == Run(n, d * e, s * e)
  {
    if n > 0 {
      ScaledRun(n - 1, d + s, s, e);
      Distributes(d, s, e);
      assert Scaled(Run(n, d, s), e) == [d * e] + Scaled(Run(n - 1, d + s, s), e);
    }
  }

  // ---------------------------------------------------------------------------
  // One dimension
  // ---------------------------------------------------------------------------

  lemma {:induction false} Exchange(a: int, b: int, c: int)
    ensures (a * b) * c == (a * c) * b
  {
  }

  /** The loops over gsize_array: what the dimensions before `dim` span, times `first`. */
  method Stride(gsizes: seq<nat>, dim: nat, order: Order, first: int, ghost p: nat) returns (stride: int)
    requires dim < |gsizes| && p < |gsizes| && dim == At(|gsizes|, order, p)
    ensures stride == Prod(FastFirst(gsizes, order), p) * first
  {
    ghost var fs := FastFirst(gsizes, order);
    var i, step := 0, 1;
    if order == Order.C {
      i, step := |gsizes| - 1, -1;
    }
    stride := first;
    ghost var q := 0;
    assert Prod(fs, 0) == 1;
    while i != dim
      invariant q <= p && i == At(|gsizes|, order, q)
      invariant stride == Prod(fs, q) * first
      decreases p - q
    {
      Exchange(Prod(fs, q), first, fs[q]);
      stride := stride * gsizes[i];
      i := i + step;
      q := q + 1;
    }
  }

  /** `next` is a type made from `last`. */
  predicate Built(last: DT, next: DT) {
    && Ok(next) && next.kind == Plain && RoundsLike(next, last)
    && (next.userLb ==> last.userLb) && (next.userUb ==> last.userUb)
  }

  /** What a dimension does to the elements: copies at its relative indices, scaled by what the
      inner dimensions span. */
  ghost predicate Extends(last: DT, next: DT, d: Dim, unit: int)
    requires DimOk(d)
  {
    next.elems == Place(last.elems, Scaled(Relative(d), unit))
  }

  /** ompi_datatype_create_darray.c, lines 38 to 48. */
  method BlockPart(d: Dim) returns (blksize: nat, mysize: nat)
    requires DimOk(d) && d.dist == Block
    ensures blksize == BlockSize(d) && mysize == MySize(d) && IsBlockSize(d, blksize)
  {
    BlockSizeIs(d, BlockSize(d));
    blksize := if d.darg == DFLT_DARG then (d.size + d.procs - 1) / d.procs else d.darg;
    var j := d.size - blksize * d.coord;
    var mine := if blksize < j then blksize else j;
    mysize := if mine < 0 then 0 else mine;
  }

  /** `block` */
  method BlockDim(d: Dim, gsizes: seq<nat>, dim: nat, order: Order, origExtent: int, old_: DT, ghost p: nat)
    returns (r: DT, offset: nat)
    requires DimOk(d) && d.dist == Block && Ok(old_) && old_.kind == Plain
    requires dim < |gsizes| && p < |gsizes| && dim == At(|gsizes|, order, p) && d.size == gsizes[dim]
    ensures Built(old_, r) && offset == Start(d) && IsBlockSize(d, BlockSize(d))
    ensures var unit := Prod(FastFirst(gsizes, order), p) * origExtent;
            (p == 0 ==> Extent(old_) == origExtent) ==>
              && r == Add(FRESH, old_, MySize(d), 0, unit)
              && (origExtent != -1 ==> Extends(old_, r, d, unit) && r.elems == Place(old_.elems, Run(MySize(d), 0, unit)))
  {
    ghost var unit := Prod(FastFirst(gsizes, order), p) * origExtent;
    var blksize, mysize := BlockPart(d);
    if dim == At(|gsizes|, order, 0) {
      assert Prod(FastFirst(gsizes, order), 0) == 1;
      r := CreateContiguous(mysize, old_);
    } else {
      var stride := Stride(gsizes, dim, order, origExtent, p);
      if origExtent != -1 {
        NotMinusOne(origExtent, Prod(FastFirst(gsizes, order), p));
      }
      r := CreateHvector(mysize, 1, stride, old_);
      assert Run(1, 0, Extent(old_)) == [0];
      SumsOne(Run(mysize, 0, stride));
    }
    BlockRelative(d, unit);
    offset := BlockOffset(d, blksize, mysize);
  }

  lemma {:induction false} BlockRelative(d: Dim, unit: int)
    requires DimOk(d) && d.dist == Block
    ensures Scaled(Relative(d), unit) == Run(MySize(d), 0, unit)
  {
    ScaledRun(MySize(d), 0, 1, unit);
  }

  method BlockOffset(d: Dim, blksize: nat, mysize: nat) returns (offset: nat)
    requires DimOk(d) && d.dist == Block && blksize == BlockSize(d) && mysize == MySize(d)
    ensures offset == Start(d)
  {
    offset := if mysize == 0 then 0 else blksize * d.coord;
  }

  lemma {:induction false} PiecesScaled(count: nat, rem: nat, cycle: nat, blk: nat, unit: int)
    ensures Scaled(Pieces(count, rem, cycle, blk), unit) ==
            Sums(Run(count, 0, cycle * unit), Run(blk, 0, unit)) + Run(rem, count * (cycle * unit), unit)
  {
    ScaledConcat(Sums(Run(count, 0, cycle), Run(blk, 0, 1)), Run(rem, count * cycle, 1), unit);
    ScaledSums(Run(count, 0, cycle), Run(blk, 0, 1), unit);
    ScaledRun(count, 0, cycle, unit);
    ScaledRun(blk, 0, 1, unit);
    ScaledRun(rem, count * cycle, 1, unit);
    assert (count * cycle) * unit == count * (cycle * unit);
  }

  /** The distance inside a block is the extent of the type; it is right when the type was
      resized by an inner cyclic dimension or is the original one, and does not matter for
      blocks of one. */
  predicate InnerFits(d: Dim, unit: int, inner: int)
    requires DimOk(d)
  {
    BlockSize(d) == 1 || inner == unit
  }

  lemma {:induction false} StridedInner(count: nat, blk: nat, stride: int, inner: int, unit: int)
    requires blk == 1 || inner == unit
    ensures Strided(count, blk, stride, inner) == Sums(Run(count, 0, stride), Run(blk, 0, unit))
  {
    if blk == 1 {
      assert Run(1, 0, inner) == [0] == Run(1, 0, unit);
    }
  }

  /** The struct of the whole blocks and the last, shorter one. */
  lemma {:induction false} WithRest(whole: DT, old_: DT, rem: nat, at: int, r: DT)
    requires Ok(whole) && Ok(old_) && whole.kind == Plain && old_.kind == Plain && RoundsLike(whole, old_) && rem > 0
    requires StructResult([1, rem], [0, at], [0, 1], [whole, old_], 2, r)
    ensures RoundsLike(r, old_)
    ensures r.elems == whole.elems + Place(old_.elems, Run(rem, at, Extent(old_)))
    ensures (r.userLb ==> whole.userLb || old_.userLb) && (r.userUb ==> whole.userUb || old_.userUb)
  {
    var (lens, disps, types, table) := ([1, rem], [0, at], [0, 1], [whole, old_]);
    assert Run(1, 0, Extent(whole)) == [0];
    PlaceOne(whole.elems, 0);
    assert Shift(whole.elems, 0) == whole.elems;
    assert StructElems(lens, disps, types, table, 0) == [];
    assert StructElems(lens, disps, types, table, 1) == [] + whole.elems;
    FirstOfStruct(lens, disps, types, table);
    assert AddEach(lens, disps, types, table, 2) ==
           Add(AddEach(lens, disps, types, table, 1), old_, rem, at, Extent(old_));
  }

  lemma {:induction false} FirstOfStruct(lens: seq<nat>, disps: seq<int>, types: seq<nat>, table: seq<DT>)
    requires StructArgs(lens, disps, types, table) && |lens| > 0 && table[types[0]].kind == Plain
    ensures AddEach(lens, disps, types, table, 1).userLb ==> table[types[0]].userLb
    ensures AddEach(lens, disps, types, table, 1).userUb ==> table[types[0]].userUb
    ensures RoundsLike(AddEach(lens, disps, types, table, 1), table[types[0]])
  {
    assert AddEach(lens, disps, types, table, 0) == FRESH;
  }

  /** The displacements of whole blocks and a rest, for any distance inside a block. */
  function Laid(count: nat, rem: nat, blk: nat, stride: int, inner: int): seq<int> {
    Strided(count, blk, stride, inner) + Run(rem, count * stride, inner)
  }

  lemma {:induction false} LaidSecond(count: nat, rem: nat, blk: nat, stride: int, inner: int)
    requires blk > 1 && (count > 0 || rem > 1)
    ensures |Laid(count, rem, blk, stride, inner)| == count * blk + rem
    ensures 1 < |Laid(count, rem, blk, stride, inner)| && Laid(count, rem, blk, stride, inner)[1] == inner
  {
    SumsLength(Run(count, 0, stride), Run(blk, 0, inner));
    RunAt(blk, 0, inner, 1);
    if count == 0 {
      assert Strided(0, blk, stride, inner) == [];
      RunAt(rem, 0, inner, 1);
      assert 0 * stride == 0;
    } else {
      TimesMonotone(1, count, blk);
      assert Strided(count, blk, stride, inner) ==
             Plus(0, Run(blk, 0, inner)) + Sums(Run(count, 0, stride)[1..], Run(blk, 0, inner));
      assert Strided(count, blk, stride, inner)[1] == inner;
    }
  }

  /** The displacements that a dimension uses when the type inside has the extent `inner`. */
  function LaidBy(d: Dim, unit: int, inner: int): seq<int>
    requires DimOk(d)
  {
    if d.dist == Block then Run(MySize(d), 0, unit)
    else
      var (blk, local) := (BlockSize(d), LocalSize(d));
      Laid(local / blk, local % blk, blk, (d.procs * blk) * unit, inner)
  }

  /** Is the distance inside a block the right one, or is there no second element in any block? */
  predicate DimRight(d: Dim, unit: int, inner: int)
    requires DimOk(d)
  {
    d.dist == Block || InnerFits(d, unit, inner) || LocalSize(d) <= 1
  }

  lemma {:induction false} CyclicLaid(d: Dim, unit: int)
    requires DimOk(d) && d.dist == Cyclic
    ensures Scaled(Relative(d), unit) == LaidBy(d, unit, unit)
  {
    var (blk, local) := (BlockSize(d), LocalSize(d));
    PiecesScaled(local / blk, local % blk, d.procs * blk, blk, unit);
  }

  lemma {:induction false} LaidStarts(count: nat, rem: nat, blk: nat, stride: int, inner: int)
    requires blk > 0
    ensures |Laid(count, rem, blk, stride, inner)| == count * blk + rem
    ensures count > 0 || rem > 0 ==> |Laid(count, rem, blk, stride, inner)| > 0 && Laid(count, rem, blk, stride, inner)[0] == 0
  {
    SumsLength(Run(count, 0, stride), Run(blk, 0, inner));
    if count == 0 {
      assert Strided(0, blk, stride, inner) == [];
      assert 0 * stride == 0;
    } else {
      TimesMonotone(1, count, blk);
      assert Strided(count, blk, stride, inner) ==
             Plus(0, Run(blk, 0, inner)) + Sums(Run(count, 0, stride)[1..], Run(blk, 0, inner));
    }
  }

  /** The distance used inside a block shows in the list exactly when it is wrong and there are two
      indices. */
  lemma {:induction false} LaidDecides(count: nat, rem: nat, blk: nat, stride: int, inner: int, unit: int)
    requires blk > 0 && rem < blk
    ensures Laid(count, rem, blk, stride, inner) == Laid(count, rem, blk, stride, unit)
            <==> blk == 1 || inner == unit || (count == 0 && rem <= 1)
  {
    if blk == 1 || inner == unit {
      StridedInner(count, blk, stride, inner, unit);
      assert rem == 0 ==> Run(rem, count * stride, inner) == [] == Run(rem, count * stride, unit);
    } else if count == 0 && rem <= 1 {
      assert Strided(0, blk, stride, inner) == [] == Strided(0, blk, stride, unit);
      assert forall e :: Run(1, 0 * stride, e) == [0 * stride];
    } else {
      LaidSecond(count, rem, blk, stride, inner);
      LaidSecond(count, rem, blk, stride, unit);
    }
  }

  lemma {:induction false} FewIndices(local: nat, blk: nat)
    requires blk > 1
    ensures local <= 1 <==> local / blk == 0 && local % blk <= 1
  {
    Remainder(local, blk);
    if local <= 1 {
      DivRange(local, blk, 0);
    }
  }

  lemma {:induction false} LaidRight(d: Dim, unit: int, inner: int)
    requires DimOk(d)
    ensures LaidBy(d, unit, inner) == Scaled(Relative(d), unit) <==> DimRight(d, unit, inner)
    ensures |LaidBy(d, unit, inner)| == |Relative(d)|
    ensures Relative(d) != [] ==> LaidBy(d, unit, inner)[0] == 0 && Scaled(Relative(d), unit)[0] == 0
  {
    if d.dist == Block {
      BlockRelative(d, unit);
    } else {
      var (blk, local) := (BlockSize(d), LocalSize(d));
      BlkFits(d);
      CyclicLaid(d, unit);
      LaidStarts(local / blk, local % blk, blk, (d.procs * blk) * unit, inner);
      LaidStarts(local / blk, local % blk, blk, (d.procs * blk) * unit, unit);
      LaidDecides(local / blk, local % blk, blk, (d.procs * blk) * unit, inner, unit);
      if blk > 1 {
        FewIndices(local, blk);
      }
    }
  }

  /** So a dimension comes out right exactly under that condition, or if there is nothing to place. */
  lemma {:induction false} ExtendsIff(m: seq<Entry>, d: Dim, unit: int, inner: int)
    requires DimOk(d)
    ensures Place(m, LaidBy(d, unit, inner)) == Place(m, Scaled(Relative(d), unit)) <==> m == [] || DimRight(d, unit, inner)
  {
    LaidRight(d, unit, inner);
    PlaceBoth(m, LaidBy(d, unit, inner), m, Scaled(Relative(d), unit));
    assert Relative(d) == [] ==> LaidBy(d, unit, inner) == [];
  }

  /** ompi_datatype_create_darray.c, lines 117 to 134: the whole blocks, and a last, shorter one. */
  method WholeAndRest(d: Dim, count: nat, rem: nat, stride: int, blksize: nat, old_: DT, ghost unit: int) returns (r: DT)
    requires DimOk(d) && d.dist == Cyclic && Ok(old_) && old_.kind == Plain
    requires blksize == BlockSize(d) && count == LocalSize(d) / blksize && rem == LocalSize(d) % blksize
    requires stride == (d.procs * blksize) * unit
    ensures Built(old_, r)
    ensures stride != -1 ==> r.elems == Place(old_.elems, LaidBy(d, unit, Extent(old_)))
  {
    r := CreateHvector(count, blksize, stride, old_);
    PlaceConcat(old_.elems, Strided(count, blksize, stride, Extent(old_)), Run(rem, count * stride, Extent(old_)));
    if rem != 0 {
      var whole := r;
      r := CreateStruct([1, rem], [0, count * stride], [0, 1], [whole, old_]);
      WithRest(whole, old_, rem, count * stride, r);
    } else {
      assert Run(0, count * stride, Extent(old_)) == [];
      assert r.elems + [] == r.elems;
    }
  }

  lemma {:induction false} UnitStride(p: nat, n: nat, blk: nat, e: int)
    ensures p * (n * blk * e) == (n * blk) * (p * e)
  {
    Exchange(p, n * blk, e);
    assert p * (n * blk * e) == (p * (n * blk)) * e;
    assert (p * e) * (n * blk) == (n * blk) * (p * e);
  }

  /** `cyclic` */
  method CyclicDim(d: Dim, gsizes: seq<nat>, dim: nat, order: Order, origExtent: int, old_: DT, ghost p: nat)
    returns (r: DT, offset: nat)
    requires DimOk(d) && d.dist == Cyclic && Ok(old_) && old_.kind == Plain
    requires dim < |gsizes| && p < |gsizes| && dim == At(|gsizes|, order, p) && d.size == gsizes[dim]
    ensures Built(old_, r) && offset == Start(d)
    ensures var unit := Prod(FastFirst(gsizes, order), p) * origExtent;
            origExtent != -1 ==>
              && r.elems == Place(old_.elems, LaidBy(d, unit, Extent(old_)))
              && (Extends(old_, r, d, unit) <==> old_.elems == [] || DimRight(d, unit, Extent(old_)))
    ensures r.lb == 0 && Extent(r) == Prod(FastFirst(gsizes, order), p + 1) * origExtent
  {
    var top := CyclicTop(gsizes, dim, order, origExtent, p);
    r, offset := CyclicBlocks(d, gsizes, dim, order, origExtent, old_, p);
    r := Resize(r, 0, top);
    ExtendsIff(old_.elems, d, Prod(FastFirst(gsizes, order), p) * origExtent, Extent(old_));
  }

  /** Everything of `cyclic` but the resizing. */
  method CyclicBlocks(d: Dim, gsizes: seq<nat>, dim: nat, order: Order, origExtent: int, old_: DT, ghost p: nat)
    returns (r: DT, offset: nat)
    requires DimOk(d) && d.dist == Cyclic && Ok(old_) && old_.kind == Plain
    requires dim < |gsizes| && p < |gsizes| && dim == At(|gsizes|, order, p) && d.size == gsizes[dim]
    ensures Built(old_, r) && offset == Start(d)
    ensures var unit := Prod(FastFirst(gsizes, order), p) * origExtent;
            origExtent != -1 ==> r.elems == Place(old_.elems, LaidBy(d, unit, Extent(old_)))
  {
    ghost var unit := Prod(FastFirst(gsizes, order), p) * origExtent;
    var blksize := if d.darg == DFLT_DARG then 1 else d.darg;
    var localSize := CyclicLocal(d, blksize);
    var stride := CyclicStride(gsizes, dim, order, d.procs, blksize, origExtent, p);
    r := WholeAndRest(d, localSize / blksize, localSize % blksize, stride, blksize, old_, unit);
    offset := CyclicOffset(d, blksize, localSize);
  }

  method CyclicOffset(d: Dim, blksize: nat, localSize: nat) returns (offset: nat)
    requires DimOk(d) && d.dist == Cyclic && blksize == BlockSize(d) && localSize == LocalSize(d)
    ensures offset == Start(d)
  {
    offset := if localSize == 0 then 0 else blksize * d.coord;
  }

  /** opal_datatype_resize */
  method Resize(t: DT, lb: int, extent: int) returns (r: DT)
    requires Ok(t) && t.kind == Plain
    ensures Built(t, r) && r.elems == t.elems && r.lb == lb && Extent(r) == extent
  {
    r := t.(lb := lb, ub := lb + extent);
  }

  /** ompi_datatype_create_darray.c, lines 106 to 115. */
  method CyclicStride(gsizes: seq<nat>, dim: nat, order: Order, procs: nat, blksize: nat, origExtent: int, ghost p: nat)
    returns (stride: int)
    requires dim < |gsizes| && p < |gsizes| && dim == At(|gsizes|, order, p)
    ensures stride == (procs * blksize) * (Prod(FastFirst(gsizes, order), p) * origExtent)
    ensures origExtent != -1 ==> stride != -1
  {
    ghost var span := Prod(FastFirst(gsizes, order), p);
    stride := Stride(gsizes, dim, order, procs * blksize * origExtent, p);
    UnitStride(span, procs, blksize, origExtent);
    if origExtent != -1 {
      NotMinusOne(origExtent, procs * blksize);
      NotMinusOne(procs * blksize * origExtent, span);
    }
  }

  /** ompi_datatype_create_darray.c, lines 136 to 146. */
  method CyclicTop(gsizes: seq<nat>, dim: nat, order: Order, origExtent: int, ghost p: nat) returns (top: int)
    requires dim < |gsizes| && p < |gsizes| && dim == At(|gsizes|, order, p)
    ensures top == Prod(FastFirst(gsizes, order), p + 1) * origExtent
  {
    top := Stride(gsizes, dim, order, origExtent, p);
    Exchange(Prod(FastFirst(gsizes, order), p), origExtent, gsizes[dim]);
    top := top * gsizes[dim];
  }

  /** ompi_datatype_create_darray.c, lines 92 to 101. */
  method CyclicLocal(d: Dim, blksize: nat) returns (localSize: nat)
    requires DimOk(d) && d.dist == Cyclic && blksize == BlockSize(d)
    ensures localSize == LocalSize(d)
  {
    Positive(d.procs, blksize);
    var stIndex, endIndex := d.coord * blksize, d.size - 1;
    if endIndex < stIndex {
      return 0;
    }
    localSize := CutLocal(endIndex - stIndex + 1, d.procs * blksize, blksize);
  }

  method CutLocal(t: nat, cycle: nat, blksize: nat) returns (localSize: nat)
    requires cycle > 0
    ensures localSize == Local(t, cycle, blksize)
  {
    var full := (t / cycle) * blksize;
    var rem := t % cycle;
    localSize := full + (if rem < blksize then rem else blksize);
  }

  // ---------------------------------------------------------------------------
  // The whole type
  // ---------------------------------------------------------------------------

  function Relatives(ds: seq<Dim>): (r: seq<seq<int>>)
    requires DimsOk(ds)
    ensures |r| == |ds|
  {
    seq(|ds|, i requires 0 <= i < |ds| => Relative(ds[i]))
  }

  function Starts(ds: seq<Dim>): (r: seq<int>)
    requires DimsOk(ds)
    ensures |r| == |ds|
  {
    seq(|ds|, i requires 0 <= i < |ds| => Start(ds[i]))
  }

  /** How one dimension makes a type from the one inside it; `span` is what it spans. */
  predicate MadeFrom(d: Dim, last: DT, next: DT, unit: int, span: int)
    requires DimOk(d) && Ok(last)
  {
    if d.dist == Block then next == Add(FRESH, last, MySize(d), 0, unit) else next.lb == 0 && Extent(next) == span && RoundsLike(next, last)
  }

  /** The types built for the first `p` dimensions, from the old one outwards. */
  ghost predicate Chain(ds: seq<Dim>, sizes: seq<nat>, built: seq<DT>, e: int, p: nat)
    requires DimsOk(ds) && p <= |ds| && p <= |sizes|
  {
    && |built| == p + 1 && Extent(built[0]) == e && (forall q :: 0 <= q <= p ==> Ok(built[q]) && built[q].kind == Plain)
    && forall q :: 0 <= q < p ==> MadeFrom(ds[q], built[q], built[q + 1], Prod(sizes, q) * e, Prod(sizes, q + 1) * e)
  }

  predicate SomeEmpty(rows: seq<seq<int>>, p: nat) {
    exists q :: 0 <= q < p && q < |rows| && rows[q] == []
  }

  /** Every dimension meets a type with the right extent, or the process owns nothing. */
  ghost predicate GridRight(ds: seq<Dim>, sizes: seq<nat>, built: seq<DT>, e: int, p: nat)
    requires DimsOk(ds) && p <= |ds| && p <= |sizes| && p <= |built|
  {
    SomeEmpty(Relatives(ds), p) || forall q :: 0 <= q < p ==> DimRight(ds[q], Prod(sizes, q) * e, Extent(built[q]))
  }

  /** The type after the first `p` dimensions: it has as many elements as it should, and they are
      the right ones exactly when the grid is right so far. */
  ghost predicate Partway(ds: seq<Dim>, sizes: seq<nat>, old_: DT, built: seq<DT>, last: DT, p: nat)
    requires DimsOk(ds) && p <= |ds| && p <= |sizes|
  {
    && Built(old_, last) && Chain(ds, sizes, built, Extent(old_), p) && built[0] == old_ && built[p] == last
    && (Extent(old_) != -1 ==>
          var right := Place(old_.elems, RelGrid(Relatives(ds), sizes, Extent(old_), p));
          |last.elems| == |right| && (last.elems == right <==> old_.elems == [] || GridRight(ds, sizes, built, Extent(old_), p)))
  }

  lemma {:induction false} PartwayStart(ds: seq<Dim>, sizes: seq<nat>, old_: DT)
    requires DimsOk(ds) && Ok(old_) && old_.kind == Plain
    ensures Partway(ds, sizes, old_, [old_], old_, 0)
  {
    PlaceOne(old_.elems, 0);
    assert Shift(old_.elems, 0) == old_.elems;
    assert Prod(sizes, 0) == 1;
  }

  lemma {:induction false} SumsEmpty(outer: seq<int>, inner: seq<int>)
    ensures Sums(outer, inner) == [] <==> outer == [] || inner == []
  {
    if outer != [] && inner == [] {
      SumsEmpty(outer[1..], inner);
    }
  }

  lemma {:induction false} EmptyGrid(rows: seq<seq<int>>, sizes: seq<nat>, e: int, p: nat)
    requires p <= |rows| && p <= |sizes|
    ensures RelGrid(rows, sizes, e, p) == [] <==> SomeEmpty(rows, p)
  {
    if p > 0 {
      EmptyGrid(rows, sizes, e, p - 1);
      SumsEmpty(Scaled(rows[p - 1], Prod(sizes, p - 1) * e), RelGrid(rows, sizes, e, p - 1));
      assert SomeEmpty(rows, p) <==> SomeEmpty(rows, p - 1) || rows[p - 1] == [];
    }
  }

  lemma {:induction false} RightStep(ds: seq<Dim>, sizes: seq<nat>, built: seq<DT>, next: DT, e: int, p: nat)
    requires DimsOk(ds) && p < |ds| == |sizes| && |built| == p + 1
    ensures GridRight(ds, sizes, built + [next], e, p + 1) <==>
            SomeEmpty(Relatives(ds), p) || Relative(ds[p]) == []
            || (GridRight(ds, sizes, built, e, p) && DimRight(ds[p], Prod(sizes, p) * e, Extent(built[p])))
  {
    var all := built + [next];
    assert forall q :: 0 <= q <= p ==> all[q] == built[q];
    assert Relatives(ds)[p] == Relative(ds[p]);
    assert SomeEmpty(Relatives(ds), p + 1) <==> SomeEmpty(Relatives(ds), p) || Relative(ds[p]) == [];
  }

  /** The elements after one more dimension. */
  lemma {:induction false} ElementsStep(ds: seq<Dim>, sizes: seq<nat>, old_: DT, built: seq<DT>, last: DT, next: DT, p: nat)
    requires DimsOk(ds) && p < |ds| == |sizes| && Partway(ds, sizes, old_, built, last, p) && Extent(old_) != -1
    requires next.elems == Place(last.elems, LaidBy(ds[p], Prod(sizes, p) * Extent(old_), Extent(last)))
    ensures var right := Place(old_.elems, RelGrid(Relatives(ds), sizes, Extent(old_), p + 1));
            && |next.elems| == |right|
            && (next.elems == right <==> old_.elems == [] || GridRight(ds, sizes, built + [next], Extent(old_), p + 1))
  {
    var (e, unit, grid) := (Extent(old_), Prod(sizes, p) * Extent(old_), RelGrid(Relatives(ds), sizes, Extent(old_), p));
    var (m, rows, laid) := (Place(old_.elems, grid), Scaled(Relative(ds[p]), unit), LaidBy(ds[p], unit, Extent(last)));
    PlaceNest(old_.elems, grid, rows);
    LaidRight(ds[p], unit, Extent(last));
    PlaceBoth(last.elems, laid, m, rows);
    PlaceLength(last.elems, laid);
    PlaceLength(m, rows);
    PlaceLength(old_.elems, grid);
    EmptyGrid(Relatives(ds), sizes, e, p);
    RightStep(ds, sizes, built, next, e, p);
    assert |m| == 0 <==> |old_.elems| == 0 || |grid| == 0;
  }

  lemma {:induction false} PartwayStep(ds: seq<Dim>, sizes: seq<nat>, old_: DT, built: seq<DT>, last: DT, next: DT, p: nat)
    requires DimsOk(ds) && p < |ds| == |sizes| && Partway(ds, sizes, old_, built, last, p) && Built(last, next)
    requires Extent(old_) != -1 ==> next.elems == Place(last.elems, LaidBy(ds[p], Prod(sizes, p) * Extent(old_), Extent(last)))
    requires MadeFrom(ds[p], last, next, Prod(sizes, p) * Extent(old_), Prod(sizes, p + 1) * Extent(old_))
    ensures Partway(ds, sizes, old_, built + [next], next, p + 1)
  {
    if Extent(old_) != -1 {
      ElementsStep(ds, sizes, old_, built, last, next, p);
    }
    ChainStep(ds, sizes, built, next, Extent(old_), p);
  }

  lemma {:induction false} ChainStep(ds: seq<Dim>, sizes: seq<nat>, built: seq<DT>, next: DT, e: int, p: nat)
    requires DimsOk(ds) && p < |ds| == |sizes| && Chain(ds, sizes, built, e, p) && Ok(next) && next.kind == Plain
    requires MadeFrom(ds[p], built[p], next, Prod(sizes, p) * e, Prod(sizes, p + 1) * e)
    ensures Chain(ds, sizes, built + [next], e, p + 1)
  {
    var all := built + [next];
    assert forall q :: 0 <= q <= p ==> all[q] == built[q];
    assert all[p + 1] == next;
  }

  /** One turn of the switch. */
  method OneDim(a: Args, cs: seq<nat>, i: nat, origExtent: int, last: DT, ghost p: nat) returns (next: DT, offset: nat)
    requires ArgsOk(a) && InProcessGrid(a.psizes, cs, 0) && i < |a.gsizes| && p < |a.gsizes|
    requires i == At(|a.gsizes|, a.order, p) && Ok(last) && last.kind == Plain
    ensures Built(last, next) && offset == Start(DimAt(a, cs, i))
    ensures var (d, unit, fs) := (DimAt(a, cs, i), Prod(FastFirst(a.gsizes, a.order), p) * origExtent, FastFirst(a.gsizes, a.order));
            (p == 0 ==> Extent(last) == origExtent) ==>
              && MadeFrom(d, last, next, unit, Prod(fs, p + 1) * origExtent)
              && (origExtent != -1 ==> next.elems == Place(last.elems, LaidBy(d, unit, Extent(last))))
  {
    assert cs[i] < a.psizes[0 + i];
    var d;
    match a.kinds[i] {
      case DistributeBlock =>
        d := Dim(a.gsizes[i], Block, a.dargs[i], a.psizes[i], cs[i]);
        next, offset := BlockDim(d, a.gsizes, i, a.order, origExtent, last, p);
      case DistributeCyclic =>
        d := Dim(a.gsizes[i], Cyclic, a.dargs[i], a.psizes[i], cs[i]);
        next, offset := CyclicDim(d, a.gsizes, i, a.order, origExtent, last, p);
      case DistributeNone =>
        var (nprocs, tmpRank) := if a.order == Order.C then (a.psizes[i], cs[i]) else (1, 0);
        d := Dim(a.gsizes[i], Block, DFLT_DARG, nprocs, tmpRank);
        next, offset := BlockDim(d, a.gsizes, i, a.order, origExtent, last, p);
    }
  }

  method NextDim(a: Args, cs: seq<nat>, i: nat, old_: DT, ghost built: seq<DT>, last: DT, ghost p: nat) returns (next: DT, offset: nat)
    requires ArgsOk(a) && InProcessGrid(a.psizes, cs, 0) && i < |a.gsizes| && p < |a.gsizes|
    requires i == At(|a.gsizes|, a.order, p) && Partway(DimsOf(a, cs), FastFirst(a.gsizes, a.order), old_, built, last, p)
    ensures Partway(DimsOf(a, cs), FastFirst(a.gsizes, a.order), old_, built + [next], next, p + 1)
    ensures offset == Start(DimsOf(a, cs)[p])
  {
    ghost var (ds, fs) := (DimsOf(a, cs), FastFirst(a.gsizes, a.order));
    next, offset := OneDim(a, cs, i, Extent(old_), last, p);
    assert ds[p] == DimAt(a, cs, i);
    PartwayStep(ds, fs, old_, built, last, next, p);
  }

  /** `sts[i]` is the first index owned in the dimensions treated so far. */
  predicate Offsets(a: Args, cs: seq<nat>, sts: seq<nat>, p: nat)
    requires ArgsOk(a) && InProcessGrid(a.psizes, cs, 0)
  {
    && |sts| == |a.gsizes| && p <= |a.gsizes|
    && forall q :: 0 <= q < p ==> sts[At(|a.gsizes|, a.order, q)] == Start(DimsOf(a, cs)[q])
  }

  lemma {:induction false} OffsetsStep(a: Args, cs: seq<nat>, sts: seq<nat>, p: nat, offset: nat)
    requires ArgsOk(a) && InProcessGrid(a.psizes, cs, 0) && Offsets(a, cs, sts, p) && p < |a.gsizes|
    requires offset == Start(DimsOf(a, cs)[p])
    ensures Offsets(a, cs, sts[At(|a.gsizes|, a.order, p) := offset], p + 1)
  {
  }

  /** ompi_datatype_create_darray.c, lines 205 to 247: the loop over the dimensions. */
  method BuildDims(a: Args, cs: seq<nat>, old_: DT) returns (last: DT, sts: seq<nat>, ghost built: seq<DT>)
    requires ArgsOk(a) && InProcessGrid(a.psizes, cs, 0)
    requires Ok(old_) && old_.kind == Plain
    ensures Partway(DimsOf(a, cs), FastFirst(a.gsizes, a.order), old_, built, last, |a.gsizes|)
    ensures Offsets(a, cs, sts, |a.gsizes|)
  {
    var n := |a.gsizes|;
    last, built := old_, [old_];
    PartwayStart(DimsOf(a, cs), FastFirst(a.gsizes, a.order), old_);
    var i, step, endLoop := 0, 1, n;
    if a.order == Order.C {
      i, step, endLoop := n - 1, -1, -1;
    }
    sts := seq(n, _ => 0);
    ghost var p := 0;
    while i != endLoop
      invariant 0 <= p <= n && i == At(n, a.order, p) && Building(a, cs, old_, built, last, sts, p)
      decreases n - p
    {
      last, sts, built := BuildNext(a, cs, i, old_, built, last, sts, p);
      i := i + step;
      p := p + 1;
    }
  }

  ghost predicate Building(a: Args, cs: seq<nat>, old_: DT, built: seq<DT>, last: DT, sts: seq<nat>, p: nat)
    requires ArgsOk(a) && InProcessGrid(a.psizes, cs, 0) && p <= |a.gsizes|
  {
    Partway(DimsOf(a, cs), FastFirst(a.gsizes, a.order), old_, built, last, p) && Offsets(a, cs, sts, p)
  }

  method BuildNext(a: Args, cs: seq<nat>, i: nat, old_: DT, ghost built: seq<DT>, last: DT, sts: seq<nat>, ghost p: nat)
    returns (next: DT, nextSts: seq<nat>, ghost nextBuilt: seq<DT>)
    requires ArgsOk(a) && InProcessGrid(a.psizes, cs, 0) && p < |a.gsizes| && i == At(|a.gsizes|, a.order, p)
    requires Building(a, cs, old_, built, last, sts, p)
    ensures Building(a, cs, old_, nextBuilt, next, nextSts, p + 1)
  {
    var offset;
    next, offset := NextDim(a, cs, i, old_, built, last, p);
    nextBuilt := built + [next];
    OffsetsStep(a, cs, sts, p, offset);
    nextSts := sts[i := offset];
  }

  /** ompi_datatype_create_darray.c, lines 257 to 262: the position of the first element. */
  method FirstElement(gsizes: seq<nat>, sts: seq<nat>, order: Order) returns (displ: int)
    requires |gsizes| == |sts| > 0
    ensures displ == Origin(FastFirst(gsizes, order), FastFirst(sts, order), |gsizes|)
  {
    var n := |gsizes|;
    ghost var (fs, ft) := (FastFirst(gsizes, order), FastFirst(sts, order));
    var i, step, endLoop := 0, 1, n;
    if order == Order.C {
      i, step, endLoop := n - 1, -1, -1;
    }
    displ := sts[i];
    var tmpSize := 1;
    assert Prod(fs, 0) == 1 && Origin(fs, ft, 0) == 0 && Origin(fs, ft, 1) == displ;
    i := i + step;
    ghost var p := 1;
    while i != endLoop
      invariant 1 <= p <= n && i == At(n, order, p)
      invariant tmpSize == Prod(fs, p - 1) && displ == Origin(fs, ft, p)
      decreases n - p
    {
      assert gsizes[i - step] == fs[p - 1] && sts[i] == ft[p];
      tmpSize := tmpSize * gsizes[i - step];
      displ := displ + sts[i] * tmpSize;
      i := i + step;
      p := p + 1;
    }
  }

  lemma {:induction false} OffsetsAreStarts(a: Args, cs: seq<nat>, sts: seq<nat>)
    requires ArgsOk(a) && InProcessGrid(a.psizes, cs, 0) && Offsets(a, cs, sts, |a.gsizes|)
    ensures FastFirst(sts, a.order) == Starts(DimsOf(a, cs))
  {
    var n := |a.gsizes|;
    forall q | 0 <= q < n
      ensures FastFirst(sts, a.order)[q] == Starts(DimsOf(a, cs))[q]
    {
      assert FastFirst(sts, a.order)[q] == sts[At(n, a.order, q)];
    }
  }

  /** What a rank's type lists are the positions it owns. */
  lemma {:induction false} TypePositions(a: Args, rank: nat, cs: seq<nat>, e: int)
    requires ArgsOk(a) && rank < Tail(a.psizes, 0) && cs == CoordsOf(a.psizes, rank, 0) && InProcessGrid(a.psizes, cs, 0)
    ensures var (n, fs, ds) := (|a.gsizes|, FastFirst(a.gsizes, a.order), DimsOf(a, cs));
            Plus(Origin(fs, Starts(ds), n) * e, RelGrid(Relatives(ds), fs, e, n)) == Scaled(PositionsOf(a, rank), e)
  {
    var (n, fs, ds) := (|a.gsizes|, FastFirst(a.gsizes, a.order), DimsOf(a, cs));
    SizesOfDims(a, cs);
    RelGridIsGrid(OwnedRows(ds), Relatives(ds), fs, Starts(ds), e, n);
  }

  /** ompi_datatype_create_darray: the elements are the old type at exactly the positions the rank
      owns, if and only if each dimension meets a type with the right extent; `built` are the
      types that the dimensions meet. For a tame old type that is a condition on the arguments.
      The bounds are those of the whole array. */
  method CreateDarray(a: Args, size: nat, rank: nat, old_: DT) returns (r: DT, ghost built: seq<DT>)
    requires ArgsOk(a) && size == Tail(a.psizes, 0) && rank < size
    requires Ok(old_) && old_.kind == Plain
    ensures |a.gsizes| == 0 ==> r == FRESH
    ensures |a.gsizes| > 0 ==> Met(a, CoordsOf(a.psizes, rank, 0), old_, built)
    ensures |a.gsizes| > 0 && Extent(old_) != -1 ==>
              (r.elems == Place(old_.elems, Scaled(PositionsOf(a, rank), Extent(old_)))
               <==> old_.elems == [] || AllMeetRight(a, CoordsOf(a.psizes, rank, 0), old_, built))
    ensures |a.gsizes| > 0 && Tame(old_) ==>
              (r.elems == Place(old_.elems, Scaled(PositionsOf(a, rank), Extent(old_))) <==> old_.elems == [] || ArgsFit(a, rank))
    ensures |a.gsizes| > 0 && !old_.userLb ==> r.lb == 0
    ensures |a.gsizes| > 0 && !old_.userUb ==> r.ub == GlobalSize(a) * Extent(old_)
  {
    var n, origExtent := |a.gsizes|, Extent(old_);
    built := [];
    if n < 1 {
      return FRESH, built;
    }
    var coords := GridCoords(size, rank, a.psizes);
    var last, sts;
    last, sts, built := BuildDims(a, coords, old_);
    var displ := FirstElement(a.gsizes, sts, a.order);
    var top := WholeSize(a, origExtent);
    r := Frame(last, displ * origExtent, top);
    OffsetsAreStarts(a, coords, sts);
    if origExtent != -1 {
      FramedRight(a, rank, coords, old_, built, last, displ, r.elems);
    }
    if Tame(old_) {
      SizesOfDims(a, coords);
      FitDecides(DimsOf(a, coords), built, origExtent);
    }
  }

  /** `built` are the types met, for a rank with these coordinates. */
  ghost predicate Met(a: Args, cs: seq<nat>, old_: DT, built: seq<DT>)
    requires ArgsOk(a)
  {
    && InProcessGrid(a.psizes, cs, 0) && |built| > 0 && built[0] == old_
    && Chain(DimsOf(a, cs), FastFirst(a.gsizes, a.order), built, Extent(old_), |a.gsizes|)
  }

  ghost predicate AllMeetRight(a: Args, cs: seq<nat>, old_: DT, built: seq<DT>)
    requires ArgsOk(a)
  {
    Met(a, cs, old_, built) && GridRight(DimsOf(a, cs), FastFirst(a.gsizes, a.order), built, Extent(old_), |a.gsizes|)
  }

  /** Framing moves the elements to where they belong. */
  lemma {:induction false} FramedRight(a: Args, rank: nat, cs: seq<nat>, old_: DT, built: seq<DT>, last: DT, displ: int, elems: seq<Entry>)
    requires ArgsOk(a) && rank < Tail(a.psizes, 0) && cs == CoordsOf(a.psizes, rank, 0) && InProcessGrid(a.psizes, cs, 0)
    requires Partway(DimsOf(a, cs), FastFirst(a.gsizes, a.order), old_, built, last, |a.gsizes|)
    requires displ == Origin(FastFirst(a.gsizes, a.order), Starts(DimsOf(a, cs)), |a.gsizes|)
    requires elems == Shift(last.elems, displ * Extent(old_)) && Extent(old_) != -1
    ensures elems == Place(old_.elems, Scaled(PositionsOf(a, rank), Extent(old_)))
            <==> old_.elems == [] || GridRight(DimsOf(a, cs), FastFirst(a.gsizes, a.order), built, Extent(old_), |a.gsizes|)
  {
    var (e, grid) := (Extent(old_), RelGrid(Relatives(DimsOf(a, cs)), FastFirst(a.gsizes, a.order), Extent(old_), |a.gsizes|));
    TypePositions(a, rank, cs, e);
    ShiftPlace(old_.elems, grid, displ * e);
    ShiftSame(last.elems, Place(old_.elems, grid), displ * e);
  }

  /** ompi_datatype_create_darray.c, lines 266 to 269. */
  method WholeSize(a: Args, origExtent: int) returns (top: int)
    ensures top == GlobalSize(a) * origExtent
  {
    top := origExtent;
    for i := 0 to |a.gsizes|
      invariant top == Prod(a.gsizes, i) * origExtent
    {
      Exchange(Prod(a.gsizes, i), origExtent, a.gsizes[i]);
      top := top * a.gsizes[i];
    }
    ProdMirrored(a.gsizes, a.order);
  }

  /** The product of all sizes does not depend on where it starts. */
  lemma {:induction false} ProdMirrored(sizes: seq<nat>, order: Order)
    ensures Prod(FastFirst(sizes, order), |sizes|) == Prod(sizes, |sizes|)
  {
    if order == Order.C {
      ProdFromEnd(sizes, FastFirst(sizes, order), |sizes|);
    }
  }

  lemma {:induction false} ProdFromEnd(sizes: seq<nat>, mirror: seq<nat>, k: nat)
    requires k <= |sizes| == |mirror| && forall i :: 0 <= i < |sizes| ==> mirror[i] == sizes[|sizes| - 1 - i]
    ensures Prod(mirror, k) * Prod(sizes, |sizes| - k) == Prod(sizes, |sizes|)
  {
    if k == 0 {
      assert Prod(mirror, 0) == 1;
    } else {
      ProdFromEnd(sizes, mirror, k - 1);
      var (m, s, x) := (Prod(mirror, k - 1), Prod(sizes, |sizes| - k), mirror[k - 1]);
      assert Prod(mirror, k) == m * x && Prod(sizes, |sizes| - k + 1) == s * x;
      assert (m * x) * s == m * (s * x);
    }
  }

  /** A condition on the arguments alone: in the order from the fastest dimension, a cyclic
      dimension with blocks of more than one index is first or follows a cyclic one. All-BLOCK and
      all-CYCLIC grids are of this kind. */
  predicate GridFits(a: Args)
    requires ArgsOk(a)
  {
    var n := |a.gsizes|;
    forall p :: 0 < p < n && a.kinds[At(n, a.order, p)] == DistributeCyclic && a.dargs[At(n, a.order, p)] > 1 ==>
                a.kinds[At(n, a.order, p - 1)] == DistributeCyclic
  }

  /** In such a grid every rank's type is right. */
  lemma {:induction false} FittingGridsAreRight(a: Args, cs: seq<nat>, old_: DT, built: seq<DT>)
    requires ArgsOk(a) && Met(a, cs, old_, built) && GridFits(a)
    ensures AllMeetRight(a, cs, old_, built)
  {
    var (n, ds, fs, e) := (|a.gsizes|, DimsOf(a, cs), FastFirst(a.gsizes, a.order), Extent(old_));
    forall p | 0 <= p < n
      ensures DimRight(ds[p], Prod(fs, p) * e, Extent(built[p]))
    {
      assert ds[p] == DimAt(a, cs, At(n, a.order, p));
      if p == 0 {
        assert Prod(fs, 0) * e == e;
      } else {
        assert ds[p - 1] == DimAt(a, cs, At(n, a.order, p - 1));
        assert MadeFrom(ds[p - 1], built[p - 1], built[p - 1 + 1], Prod(fs, p - 1) * e, Prod(fs, p - 1 + 1) * e);
      }
    }
  }

  // ---------------------------------------------------------------------------
  // The condition on the arguments
  // ---------------------------------------------------------------------------

  /** The old type has a positive extent that needs no rounding. */
  predicate Tame(t: DT) {
    Ok(t) && Extent(t) > 0 && t.lb <= LONG_MAX && LONG_MIN <= t.ub && Unrounded(t, Extent(t))
  }

  /** `x` bytes more or less leave the bounds as they are. */
  predicate Unrounded(t: DT, x: int)
    requires t.align > 0
  {
    t.userUb || x % t.align == 0
  }

  /** From dimension `p` inwards to the next CYCLIC one, every BLOCK dimension belongs wholly to
      this process. */
  predicate WholeInside(ds: seq<Dim>, p: nat)
    requires DimsOk(ds) && p <= |ds|
  {
    p == 0 || ds[p - 1].dist == Cyclic || (MySize(ds[p - 1]) == ds[p - 1].size && WholeInside(ds, p - 1))
  }

  /** The process owns nothing, or a CYCLIC dimension of which it owns two indices, in blocks of
      more than one, has only whole BLOCK dimensions directly inside. */
  predicate DimsFit(ds: seq<Dim>)
    requires DimsOk(ds)
  {
    || SomeEmpty(Relatives(ds), |ds|)
    || forall p :: 0 <= p < |ds| && ds[p].dist == Cyclic && BlockSize(ds[p]) > 1 && LocalSize(ds[p]) > 1 ==> WholeInside(ds, p)
  }

  lemma {:induction false} OwnsSome(d: Dim)
    requires DimOk(d) && Relative(d) != []
    ensures if d.dist == Block then 0 < MySize(d) <= d.size else d.size > 0
  {
  }

  lemma {:induction false} MultipleMod(q: nat, a: nat)
    requires a > 0
    ensures (q * a) % a == 0
  {
    if q > 0 {
      MultipleMod(q - 1, a);
      AddMod((q - 1) * a, a);
      assert (q - 1) * a + a == q * a;
    }
  }

  /** Multiples of a multiple. */
  lemma {:induction false} StillUnrounded(t: DT, e: nat, x: nat, q: nat)
    requires Ok(t) && Unrounded(t, e) && x == q * e
    ensures Unrounded(t, x)
  {
    if !t.userUb {
      var c := e / t.align;
      assert e == c * t.align;
      MultipleMod(q * c, t.align);
      assert q * (c * t.align) == (q * c) * t.align;
    }
  }

  /** The bounds that a BLOCK dimension leaves. */
  lemma {:induction false} BlockExtent(child: DT, n: nat, unit: nat, more: int)
    requires Ok(child) && child.kind == Plain && n > 0 && more == unit * (n - 1) >= 0
    requires child.lb <= LONG_MAX && LONG_MIN <= child.ub && 0 <= Extent(child) && Unrounded(child, Extent(child) + more)
    ensures var r := Add(FRESH, child, n, 0, unit);
            r.lb == child.lb && r.ub == child.ub + more && r.align == child.align && r.userUb == child.userUb
  {
    var r := Add(FRESH, child, n, 0, unit);
    assert r.lb == child.lb && Max(LONG_MIN, more + child.ub) == more + child.ub;
  }

  /** A type that a dimension meets: its extent is `e` times `q`, and it can grow by multiples of `e`
      without rounding. */
  ghost predicate Grows(t: DT, e: nat, q: nat) {
    && Ok(t) && t.lb <= LONG_MAX && LONG_MIN <= t.ub
    && Unrounded(t, e) && Extent(t) == q * e
  }

  /** How many old extents the type met by dimension `p` spans. */
  function Spanned(ds: seq<Dim>, sizes: seq<nat>, p: nat): int
    requires DimsOk(ds) && p <= |ds| && p <= |sizes|
  {
    if p == 0 then 1
    else if ds[p - 1].dist == Cyclic then Prod(sizes, p)
    else Spanned(ds, sizes, p - 1) + Prod(sizes, p - 1) * (MySize(ds[p - 1]) - 1)
  }

  /** That is all of the inner dimensions exactly when those directly inside are whole. */
  lemma {:induction false} SpannedIsAll(ds: seq<Dim>, p: nat)
    requires DimsOk(ds) && p <= |ds| && !SomeEmpty(Relatives(ds), p)
    ensures 0 < Spanned(ds, Sizes(ds), p) <= Prod(Sizes(ds), p)
    ensures Spanned(ds, Sizes(ds), p) == Prod(Sizes(ds), p) <==> WholeInside(ds, p)
  {
    if p > 0 {
      var (d, inner, before) := (ds[p - 1], Prod(Sizes(ds), p - 1), Spanned(ds, Sizes(ds), p - 1));
      assert Relatives(ds)[p - 1] == Relative(d) != [];
      assert !SomeEmpty(Relatives(ds), p - 1);
      SpannedIsAll(ds, p - 1);
      OwnsSome(d);
      assert Sizes(ds)[p - 1] == d.size;
      if d.dist == Cyclic {
        Positive(inner, d.size);
      } else {
        Distributes(MySize(d) - 1, d.size - MySize(d), inner);
        TimesMonotone(1, MySize(d), inner);
        LessThanAll(before, inner, MySize(d), d.size);
      }
    }
  }

  lemma {:induction false} LessThanAll(before: int, inner: int, mine: nat, size: nat)
    requires 0 < before <= inner && 0 < mine <= size
    ensures 0 < before + inner * (mine - 1) <= inner * size
    ensures before + inner * (mine - 1) == inner * size <==> mine == size && before == inner
  {
    assert inner * size == inner + inner * (mine - 1) + inner * (size - mine);
    assert inner * (mine - 1) >= 0 && (if mine == size then inner * (size - mine) == 0 else inner * (size - mine) > 0);
  }

  /** One dimension. */
  lemma {:induction false} GrowsStep(d: Dim, last: DT, next: DT, e: nat, q: nat, inner: nat, span: nat)
    requires DimOk(d) && e > 0 && q > 0 && Grows(last, e, q) && Ok(next) && last.kind == Plain && (d.dist == Block ==> MySize(d) > 0)
    requires MadeFrom(d, last, next, inner * e, span * e)
    ensures Grows(next, e, if d.dist == Cyclic then span else q + inner * (MySize(d) - 1))
  {
    if d.dist == Block {
      var (k, n) := (inner * (MySize(d) - 1), MySize(d));
      assert k >= 0;
      assert (inner * e) * (n - 1) == k * e by { Exchange(inner, e, n - 1); }
      Distributes(q, k, e);
      assert k * e >= 0 && q * e > 0;
      StillUnrounded(last, e, (q + k) * e, q + k);
      BlockExtent(last, n, inner * e, k * e);
    }
  }

  lemma {:induction false} TypesMet(ds: seq<Dim>, built: seq<DT>, e: nat, p: nat)
    requires DimsOk(ds) && p <= |ds| && Chain(ds, Sizes(ds), built, e, |ds|) && !SomeEmpty(Relatives(ds), |ds|)
    requires Tame(built[0])
    ensures Spanned(ds, Sizes(ds), p) > 0 && Grows(built[p], e, Spanned(ds, Sizes(ds), p))
  {
    if p == 0 {
      assert Extent(built[0]) == 1 * e;
    } else {
      var (d, sizes) := (ds[p - 1], Sizes(ds));
      TypesMet(ds, built, e, p - 1);
      assert !SomeEmpty(Relatives(ds), p) && Relatives(ds)[p - 1] == Relative(d) != [];
      OwnsSome(d);
      SpannedIsAll(ds, p);
      assert MadeFrom(ds[p - 1], built[p - 1], built[p - 1 + 1], Prod(sizes, p - 1) * e, Prod(sizes, p - 1 + 1) * e);
      GrowsStep(d, built[p - 1], built[p], e, Spanned(ds, sizes, p - 1), Prod(sizes, p - 1), Prod(sizes, p));
    }
  }

  /** The extent that dimension `p` meets is the right one exactly when all directly inside is
      whole. */
  lemma {:induction false} ExtentMet(ds: seq<Dim>, built: seq<DT>, e: nat, p: nat)
    requires DimsOk(ds) && p <= |ds| && Chain(ds, Sizes(ds), built, e, |ds|) && !SomeEmpty(Relatives(ds), |ds|)
    requires Tame(built[0])
    ensures Extent(built[p]) == Prod(Sizes(ds), p) * e <==> WholeInside(ds, p)
  {
    TypesMet(ds, built, e, p);
    assert !SomeEmpty(Relatives(ds), p);
    SpannedIsAll(ds, p);
    SameProduct(Spanned(ds, Sizes(ds), p), Prod(Sizes(ds), p), e);
  }

  lemma {:induction false} SameProduct(a: nat, b: nat, e: nat)
    requires a <= b && e > 0
    ensures a * e == b * e <==> a == b
  {
    if a < b {
      Positive(b - a, e);
      Distributes(a, b - a, e);
    }
  }

  /** For a tame old type the condition on the types that are met is one on the arguments. */
  lemma {:induction false} FitDecides(ds: seq<Dim>, built: seq<DT>, e: nat)
    requires DimsOk(ds) && Chain(ds, Sizes(ds), built, e, |ds|) && Tame(built[0])
    ensures GridRight(ds, Sizes(ds), built, e, |ds|) <==> DimsFit(ds)
  {
    if !SomeEmpty(Relatives(ds), |ds|) {
      forall p | 0 <= p < |ds|
        ensures DimRight(ds[p], Prod(Sizes(ds), p) * e, Extent(built[p])) <==>
                (ds[p].dist == Cyclic && BlockSize(ds[p]) > 1 && LocalSize(ds[p]) > 1 ==> WholeInside(ds, p))
      {
        ExtentMet(ds, built, e, p);
        BlkFits(ds[p]);
      }
    }
  }

  /** A condition on the arguments: does the rank with these coordinates get the right type? */
  predicate ArgsFit(a: Args, rank: nat)
    requires ArgsOk(a) && rank < Tail(a.psizes, 0)
  {
    RankRoundTrip(a.psizes, rank, 0);
    DimsFit(DimsOf(a, CoordsOf(a.psizes, rank, 0)))
  }

  /** Two of four bytes by BLOCK, then four rows by CYCLIC(2), each over two processes: the rank 0
      gets other bytes than it owns. */
  method MixedGridWrong() returns (r: DT)
    ensures var byteType := DT(Plain, [Entry(0, 0)], 0, 1, false, false, 1);
            var a := Args([4, 4], [DistributeBlock, DistributeCyclic], [DFLT_DARG, 2], [2, 2], Fortran);
            && ArgsOk(a) && Tail(a.psizes, 0) == 4
            && r.elems != Place(byteType.elems, Scaled(PositionsOf(a, 0), 1))
  {
    var byteType := DT(Plain, [Entry(0, 0)], 0, 1, false, false, 1);
    var a := Args([4, 4], [DistributeBlock, DistributeCyclic], [DFLT_DARG, 2], [2, 2], Fortran);
    MixedArgs(a);
    assert byteType.elems != [];
    ghost var built;
    r, built := CreateDarray(a, 4, 0, byteType);
  }

  lemma {:induction false} MixedArgs(a: Args)
    requires a == Args([4, 4], [DistributeBlock, DistributeCyclic], [DFLT_DARG, 2], [2, 2], Fortran)
    ensures ArgsOk(a) && Tail(a.psizes, 0) == 4 && !ArgsFit(a, 0)
  {
    assert Tail(a.psizes, 2) == 1 && Tail(a.psizes, 1) == 2;
    RankRoundTrip(a.psizes, 0, 0);
    var cs := CoordsOf(a.psizes, 0, 0);
    assert CoordsOf(a.psizes, 0, 1) == [0];
    assert cs == [0, 0];
    MixedDims(DimsOf(a, cs));
  }

  lemma {:induction false} MixedDims(ds: seq<Dim>)
    requires |ds| == 2 && ds[0] == Dim(4, Block, DFLT_DARG, 2, 0) && ds[1] == Dim(4, Cyclic, 2, 2, 0)
    ensures DimsOk(ds) && !DimsFit(ds)
  {
    var outer := ds[1];
    assert MySize(ds[0]) == 2 && |Relative(ds[0])| == 2;
    assert LocalSize(outer) == Local(4, 4, 2) == 2;
    assert !WholeInside(ds, 1);
    LaidStarts(1, 0, 2, 4, 1);
    LaidRight(outer, 1, 1);
    assert |Relative(outer)| == 2;
    assert forall q :: 0 <= q < 2 ==> Relatives(ds)[q] != [];
  }
}
