/** The packed description of a datatype: a tree of constructor calls written into a buffer of
    32-bit words and rebuilt from it. An address-sized displacement takes two words; there is no
    alignment padding. */
module PackDescription {

  const MAX_PREDEFINED := 47

  datatype Combiner =
    | Dup | Contiguous | Vector | HvectorInteger | Hvector | Indexed | HindexedInteger | Hindexed
    | IndexedBlock | StructInteger | Struct | Subarray | Darray | Resized | HindexedBlock

  const NAMED := 0

  /** The values of the MPI_COMBINER constants. */
  function Code(c: Combiner): (r: int)
    ensures r != NAMED && Decode(r) == Some(c)
  {
    match c
    case Dup => 1
    case Contiguous => 2
    case Vector => 3
    case HvectorInteger => 4
    case Hvector => 5
    case Indexed => 6
    case HindexedInteger => 7
    case Hindexed => 8
    case IndexedBlock => 9
    case StructInteger => 10
    case Struct => 11
    case Subarray => 12
    case Darray => 13
    case Resized => 17
    case HindexedBlock => 18
  }

  datatype Option<T> = None | Some(value: T)

  function Decode(code: int): Option<Combiner> {
    match code
    case 1 => Some(Dup)
    case 2 => Some(Contiguous)
    case 3 => Some(Vector)
    case 4 => Some(HvectorInteger)
    case 5 => Some(Hvector)
    case 6 => Some(Indexed)
    case 7 => Some(HindexedInteger)
    case 8 => Some(Hindexed)
    case 9 => Some(IndexedBlock)
    case 10 => Some(StructInteger)
    case 11 => Some(Struct)
    case 12 => Some(Subarray)
    case 13 => Some(Darray)
    case 17 => Some(Resized)
    case 18 => Some(HindexedBlock)
    case _ => None
  }

  /** A predefined type, or a call: its integers, displacements and types. */
  datatype Tree =
    | Named(id: nat)
    | Node(combiner: Combiner, ints: seq<int>, aints: seq<int>, kids: seq<Tree>)

  // ---------------------------------------------------------------------------
  // What set_args stores
  // ---------------------------------------------------------------------------

  /** NULL, a read or write outside an array, or a result. */
  datatype Outcome<T> = Null | Outside | Got(value: T)

  /** `n` integers from a pointer. */
  function Copy(from: seq<int>, n: int): Option<seq<int>> {
    if 0 <= n <= |from| then Some(from[..n]) else None
  }

  function Join(a: Option<seq<int>>, b: Option<seq<int>>): Option<seq<int>> {
    if a.Some? && b.Some? then Some(a.value + b.value) else None
  }

  /** The integers a combiner stores, from the pointers it is given; None when a pointer is
      missing or too short. */
  function Stored(c: Combiner, i: seq<seq<int>>): Option<seq<int>> {
    if |i| > 0 && |i[0]| == 0 then None
    else
      match c
      case Contiguous => if |i| < 1 then None else Some([i[0][0]])
      case Vector => if |i| < 3 then None else Join(Some([i[0][0]]), Join(Copy(i[1], 1), Copy(i[2], 1)))
      case HvectorInteger => if |i| < 2 then None else Join(Some([i[0][0]]), Copy(i[1], 1))
      case Hvector => if |i| < 2 then None else Join(Some([i[0][0]]), Copy(i[1], 1))
      case Indexed => if |i| < 3 then None else Join(Some([i[0][0]]), Join(Copy(i[1], i[0][0]), Copy(i[2], i[0][0])))
      case HindexedInteger => if |i| < 2 then None else Join(Some([i[0][0]]), Copy(i[1], i[0][0]))
      case Hindexed => if |i| < 2 then None else Join(Some([i[0][0]]), Copy(i[1], i[0][0]))
      case IndexedBlock => if |i| < 3 then None else Join(Some([i[0][0]]), Join(Copy(i[1], 1), Copy(i[2], i[0][0])))
      case StructInteger => if |i| < 2 then None else Join(Some([i[0][0]]), Copy(i[1], i[0][0]))
      case Struct => if |i| < 2 then None else Join(Some([i[0][0]]), Copy(i[1], i[0][0]))
      case Subarray =>
        if |i| < 5 then None
        else
          var n := i[0][0];
          Join(Some([n]), Join(Copy(i[1], n), Join(Copy(i[2], n), Join(Copy(i[3], n), Copy(i[4], 1)))))
      case Darray =>
        if |i| < 8 || |i[2]| == 0 then None
        else
          var n := i[2][0];
          Join(Some([i[0][0]]), Join(Copy(i[1], 1), Join(Some([n]),
            Join(Copy(i[3], n), Join(Copy(i[4], n), Join(Copy(i[5], n), Join(Copy(i[6], n), Copy(i[7], 1))))))))
      case HindexedBlock => if |i| < 2 then None else Join(Some([i[0][0]]), Copy(i[1], 1))
      case Resized => Some([])
      case Dup => Some([])
  }

  /** A cell of the recorded integers; None is a value nobody wrote. */
  type Cells = seq<Option<int>>

  function Written(i: seq<int>): (r: Cells)
    ensures |r| == |i|
  {
    seq(|i|, k requires 0 <= k < |i| => Some(i[k]))
  }

  function Unwritten(n: nat): (r: Cells)
    ensures |r| == n
  {
    seq(n, _ => None)
  }

  /** A datatype made by calling a constructor, with the integers recorded for it; the
      displacements and types recorded are those of the call. */
  datatype Type =
    | Basic(id: nat)
    | Created(call: Combiner, ints: seq<int>, aints: seq<int>, kids: seq<Type>, record: Cells)

  /** A constructor called with what the pointers point to, and ompi_datatype_set_args, which makes room for
      `ci` integers and then copies those of the call. */
  function Make(c: Combiner, ci: int, i: seq<seq<int>>, ca: int, a: seq<int>, cd: int, d: seq<Type>): Outcome<Type> {
    var ints := Stored(c, i);
    if ints.None? || !(0 <= ca <= |a|) || !(0 <= cd <= |d|) || ci < |ints.value| then Outside
    else Got(Created(c, ints.value, a[..ca], d[..cd], Written(ints.value) + Unwritten(ci - |ints.value|)))
  }

  /** A pointer into an array. */
  function From(xs: seq<int>, k: int): seq<int> {
    if 0 <= k <= |xs| then xs[k..] else []
  }

  /** __ompi_datatype_create_from_args */
  function CreateFromArgs(i: seq<int>, a: seq<int>, d: seq<Type>, c: Combiner): Outcome<Type> {
    if c in {Dup, Resized} then Null
    else if i == [] then Outside
    else
      var n := i[0];
      match c
      case Contiguous => Make(Contiguous, 1, [i], 0, [], 1, d)
      case Vector => Make(Vector, 3, [i, From(i, 1), From(i, 2)], 0, [], 1, d)
      case HvectorInteger | Hvector => Make(Hvector, 2, [i, From(i, 1)], 1, a, 1, d)
      case Indexed => Make(Indexed, 2 * n + 1, [i, From(i, 1), From(i, 1 + n)], 0, [], 1, d)
      case HindexedInteger | Hindexed => Make(Hindexed, n + 1, [i, From(i, 1)], n, a, 1, d)
      case IndexedBlock => Make(IndexedBlock, 2 * n, [i, From(i, 1), From(i, 2)], 0, [], 1, d)
      case StructInteger | Struct => Make(Struct, n + 1, [i, From(i, 1)], n, a, n, d)
      case Subarray =>
        Make(Subarray, 3 * n + 2, [i, From(i, 1), From(i, 1 + n), From(i, 1 + 2 * n), From(i, 1 + 3 * n)], 0, [], 1, d)
      case Darray =>
        Make(Darray, 4 * n + 4,
             [i, From(i, 1), From(i, 2), From(i, 3), From(i, 3 + n), From(i, 3 + 2 * n), From(i, 3 + 3 * n), From(i, 3 + 4 * n)],
             0, [], 1, d)
      case HindexedBlock => Make(HindexedBlock, 2 + n, [i, From(i, 1)], n, a, 1, d)
  }

  /** The shape the MPI functions give each call. */
  predicate Shape(c: Combiner, i: seq<int>, ca: nat, cd: nat) {
    match c
    case Dup => i == [] && ca == 0 && cd == 1
    case Contiguous => |i| == 1 && ca == 0 && cd == 1
    case Vector => |i| == 3 && ca == 0 && cd == 1
    case HvectorInteger | Hvector => |i| == 2 && ca == 1 && cd == 1
    case Indexed => |i| > 0 && i[0] >= 0 && |i| == 2 * i[0] + 1 && ca == 0 && cd == 1
    case HindexedInteger | Hindexed => |i| > 0 && |i| == i[0] + 1 && ca == i[0] && cd == 1
    case IndexedBlock => |i| > 0 && i[0] >= 0 && |i| == 2 + i[0] && ca == 0 && cd == 1
    case StructInteger | Struct => |i| > 0 && |i| == i[0] + 1 && ca == i[0] && cd == i[0]
    case Subarray => |i| > 0 && i[0] >= 0 && |i| == 3 * i[0] + 2 && ca == 0 && cd == 1
    case Darray => |i| > 2 && i[2] >= 0 && |i| == 4 * i[2] + 4 && ca == 0 && cd == 1
    case Resized => i == [] && ca == 2 && cd == 1
    case HindexedBlock => |i| == 2 && i[0] >= 0 && ca == i[0] && cd == 1
  }

  function Normal(c: Combiner): Combiner {
    match c
    case HvectorInteger => Hvector
    case HindexedInteger => Hindexed
    case StructInteger => Struct
    case _ => c
  }

  /** What becomes of a call: RESIZED gives no datatype; an INDEXED_BLOCK of fewer than two blocks
      records past the end, and a DARRAY takes the number of processes for that of dimensions;
      the others are made again. */
  predicate Remade(c: Combiner, i: seq<int>) {
    match c
    case IndexedBlock => |i| > 0 && i[0] >= 2
    case Darray => |i| > 2 && i[0] == i[2]
    case _ => true
  }

  /** The integers recorded beyond those of the call. */
  function Spare(c: Combiner, i: seq<int>): int {
    match c
    case IndexedBlock => if |i| > 0 then i[0] - 2 else 0
    case HindexedBlock => if |i| > 0 then i[0] else 0
    case _ => 0
  }

  function RecordOf(c: Combiner, i: seq<int>): Cells {
    Written(i) + Unwritten(if Spare(c, i) < 0 then 0 else Spare(c, i))
  }

  /** The constructor is called with the same arguments again, or nothing is made. */
  ghost predicate Kept(c: Combiner, i: seq<int>, a: seq<int>, d: seq<Type>) {
    CreateFromArgs(i, a, d, c) ==
    if c == Resized then Null
    else if !Remade(c, i) then Outside
    else Got(Created(Normal(c), i, a, d, RecordOf(c, i)))
  }

  lemma {:induction false} KeepsContiguous(i: seq<int>, a: seq<int>, d: seq<Type>)
    requires Shape(Contiguous, i, |a|, |d|)
    ensures Kept(Contiguous, i, a, d)
  {
    assert a[..|a|] == a && d[..|d|] == d;
    assert [i[0]] == i;
  }

  lemma {:induction false} KeepsVector(i: seq<int>, a: seq<int>, d: seq<Type>)
    requires Shape(Vector, i, |a|, |d|)
    ensures Kept(Vector, i, a, d)
  {
    assert a[..|a|] == a && d[..|d|] == d;
    assert [i[0]] + (i[1..][..1] + i[2..][..1]) == i;
  }

  lemma {:induction false} KeepsHvectorInteger(i: seq<int>, a: seq<int>, d: seq<Type>)
    requires Shape(HvectorInteger, i, |a|, |d|)
    ensures Kept(HvectorInteger, i, a, d)
  {
    assert a[..|a|] == a && d[..|d|] == d;
    assert [i[0]] + i[1..][..1] == i;
  }

  lemma {:induction false} KeepsHvector(i: seq<int>, a: seq<int>, d: seq<Type>)
    requires Shape(Hvector, i, |a|, |d|)
    ensures Kept(Hvector, i, a, d)
  {
    assert a[..|a|] == a && d[..|d|] == d;
    assert [i[0]] + i[1..][..1] == i;
  }

  lemma {:induction false} KeepsIndexed(i: seq<int>, a: seq<int>, d: seq<Type>)
    requires Shape(Indexed, i, |a|, |d|)
    ensures Kept(Indexed, i, a, d)
  {
    assert a[..|a|] == a && d[..|d|] == d;
    assert [i[0]] + (i[1..][..i[0]] + i[1 + i[0]..][..i[0]]) == i;
  }

  lemma {:induction false} KeepsHindexedInteger(i: seq<int>, a: seq<int>, d: seq<Type>)
    requires Shape(HindexedInteger, i, |a|, |d|)
    ensures Kept(HindexedInteger, i, a, d)
  {
    assert a[..|a|] == a && d[..|d|] == d;
    assert [i[0]] + i[1..][..i[0]] == i;
  }

  lemma {:induction false} KeepsHindexed(i: seq<int>, a: seq<int>, d: seq<Type>)
    requires Shape(Hindexed, i, |a|, |d|)
    ensures Kept(Hindexed, i, a, d)
  {
    assert a[..|a|] == a && d[..|d|] == d;
    assert [i[0]] + i[1..][..i[0]] == i;
  }

  lemma {:induction false} KeepsIndexedBlock(i: seq<int>, a: seq<int>, d: seq<Type>)
    requires Shape(IndexedBlock, i, |a|, |d|)
    ensures Kept(IndexedBlock, i, a, d)
  {
    assert a[..|a|] == a && d[..|d|] == d;
    assert [i[0]] + (i[1..][..1] + i[2..][..i[0]]) == i;
  }

  lemma {:induction false} KeepsStructInteger(i: seq<int>, a: seq<int>, d: seq<Type>)
    requires Shape(StructInteger, i, |a|, |d|)
    ensures Kept(StructInteger, i, a, d)
  {
    assert a[..|a|] == a && d[..|d|] == d;
    assert [i[0]] + i[1..][..i[0]] == i;
  }

  lemma {:induction false} KeepsStruct(i: seq<int>, a: seq<int>, d: seq<Type>)
    requires Shape(Struct, i, |a|, |d|)
    ensures Kept(Struct, i, a, d)
  {
    assert a[..|a|] == a && d[..|d|] == d;
    assert [i[0]] + i[1..][..i[0]] == i;
  }

  lemma {:induction false} KeepsHindexedBlock(i: seq<int>, a: seq<int>, d: seq<Type>)
    requires Shape(HindexedBlock, i, |a|, |d|)
    ensures Kept(HindexedBlock, i, a, d)
  {
    assert a[..|a|] == a && d[..|d|] == d;
    assert [i[0]] + i[1..][..1] == i;
  }

  lemma {:induction false} FourPieces(i: seq<int>, n: nat)
    requires |i| == 3 * n + 2
    ensures [i[0]] + (i[1..1 + n] + (i[1 + n..1 + 2 * n] + (i[1 + 2 * n..1 + 3 * n] + i[1 + 3 * n..]))) == i
  {
    assert i[1 + 2 * n..1 + 3 * n] + i[1 + 3 * n..] == i[1 + 2 * n..];
    assert i[1 + n..1 + 2 * n] + i[1 + 2 * n..] == i[1 + n..];
    assert i[1..1 + n] + i[1 + n..] == i[1..];
  }

  lemma {:induction false} CopyPiece(i: seq<int>, k: nat, n: nat)
    requires k + n <= |i|
    ensures Copy(From(i, k), n) == Some(i[k..k + n])
  {
    assert i[k..][..n] == i[k..k + n];
  }

  lemma {:induction false} StoredSubarray(p: seq<seq<int>>, n: nat, x: seq<int>, y: seq<int>, z: seq<int>, w: seq<int>)
    requires |p| == 5 && p[0] != [] && p[0][0] == n
    requires Copy(p[1], n) == Some(x) && Copy(p[2], n) == Some(y) && Copy(p[3], n) == Some(z) && Copy(p[4], 1) == Some(w)
    ensures Stored(Subarray, p) == Some([n] + (x + (y + (z + w))))
  {
  }

  lemma {:induction false} SubarrayStoresAll(i: seq<int>, n: nat)
    requires |i| == 3 * n + 2 && i[0] == n
    ensures Stored(Subarray, [From(i, 0), From(i, 1), From(i, 1 + n), From(i, 1 + 2 * n), From(i, 1 + 3 * n)]) == Some(i)
  {
    var p := [From(i, 0), From(i, 1), From(i, 1 + n), From(i, 1 + 2 * n), From(i, 1 + 3 * n)];
    CopyPiece(i, 1, n);
    CopyPiece(i, 1 + n, n);
    CopyPiece(i, 1 + 2 * n, n);
    CopyPiece(i, 1 + 3 * n, 1);
    assert i[1 + 3 * n..1 + 3 * n + 1] == i[1 + 3 * n..];
    StoredSubarray(p, n, i[1..1 + n], i[1 + n..1 + 2 * n], i[1 + 2 * n..1 + 3 * n], i[1 + 3 * n..]);
    FourPieces(i, n);
  }

  lemma {:induction false} KeepsSubarray(i: seq<int>, a: seq<int>, d: seq<Type>)
    requires Shape(Subarray, i, |a|, |d|)
    ensures Kept(Subarray, i, a, d)
  {
    assert a[..|a|] == a && d[..|d|] == d;
    SubarrayStoresAll(i, i[0]);
  }

  lemma {:induction false} StoredDarray(p: seq<seq<int>>, n: nat, u: seq<int>, v: seq<seq<int>>, w: seq<int>)
    requires |p| == 8 && p[0] != [] && p[2] != [] && p[2][0] == n && |v| == 4
    requires Copy(p[1], 1) == Some(u) && Copy(p[7], 1) == Some(w)
    requires Copy(p[3], n) == Some(v[0]) && Copy(p[4], n) == Some(v[1]) && Copy(p[5], n) == Some(v[2]) && Copy(p[6], n) == Some(v[3])
    ensures Stored(Darray, p) == Some([p[0][0]] + (u + ([n] + (v[0] + (v[1] + (v[2] + (v[3] + w)))))))
  {
  }

  lemma {:induction false} EightPieces(i: seq<int>, n: nat)
    requires |i| == 4 * n + 4 && i[2] == n
    ensures [i[0]] + (i[1..2] + ([n] + (i[3..3 + n] + (i[3 + n..3 + 2 * n] + (i[3 + 2 * n..3 + 3 * n] + (i[3 + 3 * n..3 + 4 * n] + i[3 + 4 * n..])))))) == i
  {
    assert i[3 + 3 * n..3 + 4 * n] + i[3 + 4 * n..] == i[3 + 3 * n..];
    assert i[3 + 2 * n..3 + 3 * n] + i[3 + 3 * n..] == i[3 + 2 * n..];
    assert i[3 + n..3 + 2 * n] + i[3 + 2 * n..] == i[3 + n..];
    assert i[3..3 + n] + i[3 + n..] == i[3..];
    assert [n] + i[3..] == i[2..] && i[1..2] + i[2..] == i[1..];
  }

  lemma {:induction false} DarrayStoresAll(i: seq<int>, n: nat)
    requires |i| == 4 * n + 4 && i[2] == n
    ensures Stored(Darray, [i, From(i, 1), From(i, 2), From(i, 3), From(i, 3 + n), From(i, 3 + 2 * n), From(i, 3 + 3 * n), From(i, 3 + 4 * n)])
            == Some(i)
  {
    var p := [i, From(i, 1), From(i, 2), From(i, 3), From(i, 3 + n), From(i, 3 + 2 * n), From(i, 3 + 3 * n), From(i, 3 + 4 * n)];
    DarrayCopies(i, n);
    StoredDarray(p, n, i[1..2], [i[3..3 + n], i[3 + n..3 + 2 * n], i[3 + 2 * n..3 + 3 * n], i[3 + 3 * n..3 + 4 * n]], i[3 + 4 * n..]);
    EightPieces(i, n);
  }

  lemma {:induction false} DarrayCopies(i: seq<int>, n: nat)
    requires |i| == 4 * n + 4
    ensures Copy(From(i, 1), 1) == Some(i[1..2]) && Copy(From(i, 3), n) == Some(i[3..3 + n])
    ensures Copy(From(i, 3 + n), n) == Some(i[3 + n..3 + 2 * n]) && Copy(From(i, 3 + 2 * n), n) == Some(i[3 + 2 * n..3 + 3 * n])
    ensures Copy(From(i, 3 + 3 * n), n) == Some(i[3 + 3 * n..3 + 4 * n]) && Copy(From(i, 3 + 4 * n), 1) == Some(i[3 + 4 * n..])
  {
    CopyPiece(i, 1, 1);
    CopyPiece(i, 3, n);
    CopyPiece(i, 3 + n, n);
    CopyPiece(i, 3 + 2 * n, n);
    CopyPiece(i, 3 + 3 * n, n);
    CopyPiece(i, 3 + 4 * n, 1);
    assert i[3 + 4 * n..3 + 4 * n + 1] == i[3 + 4 * n..];
  }

  lemma {:induction false} DarrayRemade(i: seq<int>, n: nat, d: seq<Type>)
    requires |i| == 4 * n + 4 && i[0] == n && i[2] == n && |d| == 1
    ensures CreateFromArgs(i, [], d, Darray) == Got(Created(Darray, i, [], d, Written(i) + Unwritten(0)))
  {
    DarrayStoresAll(i, n);
    assert d[..1] == d;
  }

  /** With fewer dimensions than processes the order is read behind the array; with more, more is
      copied than there is room for. */
  lemma {:induction false} DarrayMisread(i: seq<int>, d: seq<Type>)
    requires |i| > 2 && i[2] >= 0 && |i| == 4 * i[2] + 4 && i[0] != i[2]
    ensures CreateFromArgs(i, [], d, Darray) == Outside
  {
    var k := i[0];
    var p := [i, From(i, 1), From(i, 2), From(i, 3), From(i, 3 + k), From(i, 3 + 2 * k), From(i, 3 + 3 * k), From(i, 3 + 4 * k)];
    if 0 <= k < i[2] {
      DarrayStoresMore(p, i[2]);
    } else {
      assert From(i, 3 + 4 * k) == [] || k == -1;
    }
  }

  lemma {:induction false} DarrayStoresMore(p: seq<seq<int>>, n: nat)
    requires |p| == 8 && p[0] != [] && p[2] != [] && p[2][0] == n
    ensures Stored(Darray, p).Some? ==> |Stored(Darray, p).value| == 4 * n + 4
  {
  }

  lemma {:induction false} KeepsDarray(i: seq<int>, a: seq<int>, d: seq<Type>)
    requires Shape(Darray, i, |a|, |d|)
    ensures Kept(Darray, i, a, d)
  {
    if i[0] == i[2] {
      DarrayRemade(i, i[0], d);
    } else {
      DarrayMisread(i, d);
    }
  }

  lemma {:induction false} CreateKeepsArgs(c: Combiner, i: seq<int>, a: seq<int>, d: seq<Type>)
    requires c != Dup && Shape(c, i, |a|, |d|)
    ensures Kept(c, i, a, d)
  {
    match c
    case Contiguous => KeepsContiguous(i, a, d);
    case Vector => KeepsVector(i, a, d);
    case HvectorInteger => KeepsHvectorInteger(i, a, d);
    case Hvector => KeepsHvector(i, a, d);
    case Indexed => KeepsIndexed(i, a, d);
    case HindexedInteger => KeepsHindexedInteger(i, a, d);
    case Hindexed => KeepsHindexed(i, a, d);
    case IndexedBlock => KeepsIndexedBlock(i, a, d);
    case StructInteger => KeepsStructInteger(i, a, d);
    case Struct => KeepsStruct(i, a, d);
    case HindexedBlock => KeepsHindexedBlock(i, a, d);
    case Subarray => KeepsSubarray(i, a, d);
    case Darray => KeepsDarray(i, a, d);
    case Resized =>
  }

  // ---------------------------------------------------------------------------
  // The words of a description
  // ---------------------------------------------------------------------------

  const WORD := 0x1_0000_0000

  /** A displacement as two words. */
  function AintWords(a: seq<int>): (r: seq<int>)
    ensures |r| == 2 * |a|
  {
    if a == [] then [] else [a[0] % WORD, a[0] / WORD] + AintWords(a[1..])
  }

  function AintsOf(w: seq<int>, n: nat): (r: seq<int>)
    requires |w| == 2 * n
    ensures |r| == n
  {
    if n == 0 then [] else [w[0] + w[1] * WORD] + AintsOf(w[2..], n - 1)
  }

  lemma {:induction false} AintsRoundTrip(a: seq<int>)
    ensures AintsOf(AintWords(a), |a|) == a
  {
    if a != [] {
      AintsRoundTrip(a[1..]);
      assert AintWords(a)[2..] == AintWords(a[1..]);
    }
  }

  /** Trees the MPI functions build; a duplicate has one type. */
  predicate WellShaped(t: Tree)
    decreases t
  {
    match t
    case Named(id) => id < MAX_PREDEFINED
    case Node(c, ints, aints, kids) =>
      Shape(c, ints, |aints|, |kids|) && forall k :: 0 <= k < |kids| ==> WellShaped(kids[k])
  }

  predicate AllShaped(kids: seq<Tree>) {
    forall k :: 0 <= k < |kids| ==> WellShaped(kids[k])
  }

  datatype Packed = Packed(words: seq<int>, next: int)
  datatype PackedKids = PackedKids(ids: seq<int>, words: seq<int>, next: int)

  /** __ompi_datatype_pack_description: what is written, and the next free index. */
  function Pack(t: Tree, next: int): (p: Packed)
    requires WellShaped(t)
    ensures p.next >= next && |p.words| >= 2
    decreases t
  {
    match t
    case Named(id) => Packed([NAMED, id], next)
    case Node(c, ints, aints, kids) =>
      if c == Dup then Pack(kids[0], next)
      else
        var k := PackKids(kids, next);
        Packed([Code(c), |ints|, |aints|, |kids|] + (AintWords(aints) + (k.ids + (ints + k.words))), k.next)
  }

  /** The types of a call: predefined ones by their id, others by a fresh index and their own
      description behind. */
  function PackKids(kids: seq<Tree>, next: int): (p: PackedKids)
    requires AllShaped(kids)
    ensures p.next >= next && |p.ids| == |kids|
    decreases kids
  {
    if kids == [] then PackedKids([], [], next)
    else if kids[0].Named? then
      var rest := PackKids(kids[1..], next);
      PackedKids([kids[0].id] + rest.ids, rest.words, rest.next)
    else
      var first := Pack(kids[0], next + 1);
      var rest := PackKids(kids[1..], first.next);
      PackedKids([next] + rest.ids, first.words + rest.words, rest.next)
  }

  // ---------------------------------------------------------------------------
  // Unpacking
  // ---------------------------------------------------------------------------

  /** What was made, and the words behind its description. */
  datatype Unpacked<T> = Unpacked(made: T, rest: seq<int>)

  /** The four arrays behind the header of a call. */
  datatype Parts = Parts(code: int, aints: seq<int>, ids: seq<int>, ints: seq<int>, rest: seq<int>)

  /** Where the header says the arrays are; None when they are not all there. */
  function PartsOf(w: seq<int>): (p: Option<Parts>)
    ensures p.Some? ==> |p.value.aints| % 2 == 0 && |p.value.rest| + 4 <= |w|
  {
    if |w| < 4 || w[1] < 0 || w[2] < 0 || w[3] < 0 || |w| < 4 + 2 * w[2] + w[3] + w[1] then None
    else
      var (ci, ca, cd, body) := (w[1], w[2], w[3], w[4..]);
      Some(Parts(w[0], body[..2 * ca], body[2 * ca..2 * ca + cd], body[2 * ca + cd..2 * ca + cd + ci], body[2 * ca + cd + ci..]))
  }

  /** __ompi_datatype_create_from_packed_description: the datatype and the words behind its
      description. */
  function Unpack(w: seq<int>): (u: Outcome<Unpacked<Type>>)
    ensures u.Got? ==> |u.value.rest| < |w|
    decreases |w|, 0
  {
    if |w| < 2 then Outside
    else if w[0] == NAMED then
      if 0 <= w[1] < MAX_PREDEFINED then Got(Unpacked(Basic(w[1]), w[2..])) else Outside
    else
      var parts := PartsOf(w);
      if parts.None? then Outside else Rebuilt(parts.value, UnpackKids(parts.value.ids, parts.value.rest))
  }

  /** The call made again from its parts and its types. */
  function Rebuilt(p: Parts, k: Outcome<Unpacked<seq<Type>>>): (u: Outcome<Unpacked<Type>>)
    requires |p.aints| % 2 == 0
    ensures u.Got? ==> k.Got? && u.value.rest == k.value.rest
  {
    match k
    case Null => Null
    case Outside => Outside
    case Got(kids) =>
      if Decode(p.code).None? then Null
      else
        match CreateFromArgs(p.ints, AintsOf(p.aints, |p.aints| / 2), kids.made, Decode(p.code).value)
        case Null => Null
        case Outside => Outside
        case Got(t) => Got(Unpacked(t, kids.rest))
  }

  /** The types of a call, from the first on; one that is not made ends it. */
  function UnpackKids(ids: seq<int>, w: seq<int>): (u: Outcome<Unpacked<seq<Type>>>)
    ensures u.Got? ==> |u.value.rest| <= |w| && |u.value.made| == |ids|
    decreases |w|, |ids| + 1
  {
    if ids == [] then Got(Unpacked([], w))
    else if ids[0] < MAX_PREDEFINED then
      if ids[0] < 0 then Outside else Before(Basic(ids[0]), UnpackKids(ids[1..], w))
    else
      match Unpack(w)
      case Null => Null
      case Outside => Outside
      case Got(first) => Before(first.made, UnpackKids(ids[1..], first.rest))
  }

  function Before(first: Type, u: Outcome<Unpacked<seq<Type>>>): (r: Outcome<Unpacked<seq<Type>>>)
    ensures r.Got? <==> u.Got?
    ensures r.Got? ==> r.value.rest == u.value.rest && |r.value.made| == |u.value.made| + 1
  {
    match u
    case Null => Null
    case Outside => Outside
    case Got(kids) => Got(Unpacked([first] + kids.made, kids.rest))
  }

  /** The datatype of a tree made again: the same calls without duplicates, the combiners
      normalised, each with what is recorded for it. */
  function CopyOf(t: Tree): Type
    requires WellShaped(t)
    decreases t
  {
    match t
    case Named(id) => Basic(id)
    case Node(c, ints, aints, kids) =>
      if c == Dup then CopyOf(kids[0]) else Created(Normal(c), ints, aints, CopyAll(kids), RecordOf(c, ints))
  }

  function CopyAll(kids: seq<Tree>): (r: seq<Type>)
    requires AllShaped(kids)
    ensures |r| == |kids|
    decreases kids
  {
    if kids == [] then [] else [CopyOf(kids[0])] + CopyAll(kids[1..])
  }

  datatype Verdict = Made | NoDatatype | Misplaced

  /** What rebuilding comes to: the first call, types before the calls on them, that is not made
      again decides. */
  function Fate(t: Tree): Verdict
    requires WellShaped(t)
    decreases t
  {
    match t
    case Named(id) => Made
    case Node(c, ints, aints, kids) =>
      if c == Dup then Fate(kids[0])
      else if FateOfAll(kids) != Made then FateOfAll(kids)
      else if c == Resized then NoDatatype
      else if !Remade(c, ints) then Misplaced
      else Made
  }

  function FateOfAll(kids: seq<Tree>): Verdict
    requires AllShaped(kids)
    decreases kids
  {
    if kids == [] then Made
    else if Fate(kids[0]) != Made then Fate(kids[0])
    else FateOfAll(kids[1..])
  }

  /** Unpacking what was packed makes the same calls again and stops exactly at the end of what
      was written, if every call can be made again. */
  lemma {:induction false} UnpackPack(t: Tree, next: int, tail: seq<int>)
    requires WellShaped(t) && next >= MAX_PREDEFINED
    ensures Unpack(Pack(t, next).words + tail) == Fated(Fate(t), CopyOf(t), tail)
    decreases t
  {
    match t
    case Named(id) =>
      assert ([NAMED, id] + tail)[2..] == tail;
    case Node(c, ints, aints, kids) =>
      if c == Dup {
        UnpackPack(kids[0], next, tail);
      } else {
        var k := PackKids(kids, next);
        UnpackPackKids(kids, next, tail);
        NodeLayout(c, ints, aints, kids, next, tail);
        RebuiltNode(c, ints, aints, k.ids, CopyAll(kids), k.words + tail, tail);
      }
  }

  function Fated<T>(v: Verdict, made: T, tail: seq<int>): Outcome<Unpacked<T>> {
    match v
    case Made => Got(Unpacked(made, tail))
    case NoDatatype => Null
    case Misplaced => Outside
  }

  lemma {:induction false} BodySlices(a: seq<int>, b: seq<int>, c: seq<int>, rest: seq<int>)
    ensures var body := a + (b + (c + rest));
            && body[..|a|] == a && body[|a|..|a| + |b|] == b
            && body[|a| + |b|..|a| + |b| + |c|] == c && body[|a| + |b| + |c|..] == rest
  {
  }

  lemma {:induction false} Regroup(head: seq<int>, a: seq<int>, b: seq<int>, c: seq<int>, d: seq<int>, tail: seq<int>)
    ensures (head + (a + (b + (c + d)))) + tail == head + (a + (b + (c + (d + tail))))
  {
  }

  lemma {:induction false} PartsBehind(code: int, ca: nat, a: seq<int>, ids: seq<int>, ints: seq<int>, rest: seq<int>)
    requires |a| == 2 * ca
    ensures PartsOf([code, |ints|, ca, |ids|] + (a + (ids + (ints + rest)))) == Some(Parts(code, a, ids, ints, rest))
  {
    var body := a + (ids + (ints + rest));
    BodySlices(a, ids, ints, rest);
    assert ([code, |ints|, ca, |ids|] + body)[4..] == body;
  }

  /** The parts of a packed call are what was packed. */
  lemma {:induction false} NodeLayout(c: Combiner, ints: seq<int>, aints: seq<int>, kids: seq<Tree>, next: int, tail: seq<int>)
    requires c != Dup && Shape(c, ints, |aints|, |kids|) && AllShaped(kids)
    ensures var k := PackKids(kids, next);
            PartsOf(Pack(Node(c, ints, aints, kids), next).words + tail) ==
            Some(Parts(Code(c), AintWords(aints), k.ids, ints, k.words + tail))
  {
    var k := PackKids(kids, next);
    var head := [Code(c), |ints|, |aints|, |kids|];
    var body := AintWords(aints) + (k.ids + (ints + (k.words + tail)));
    Regroup(head, AintWords(aints), k.ids, ints, k.words, tail);
    PartsBehind(Code(c), |aints|, AintWords(aints), k.ids, ints, k.words + tail);
    assert Pack(Node(c, ints, aints, kids), next).words + tail == head + body;
  }

  /** Rebuilding from parts and types that came through unchanged. */
  lemma {:induction false} RebuiltNode(c: Combiner, ints: seq<int>, aints: seq<int>, ids: seq<int>, kids: seq<Type>, rest: seq<int>, tail: seq<int>)
    requires c != Dup && Shape(c, ints, |aints|, |kids|)
    ensures Rebuilt(Parts(Code(c), AintWords(aints), ids, ints, rest), Got(Unpacked(kids, tail))) ==
            if c == Resized then Null
            else if !Remade(c, ints) then Outside
            else Got(Unpacked(Created(Normal(c), ints, aints, kids, RecordOf(c, ints)), tail))
  {
    AintsRoundTrip(aints);
    CreateKeepsArgs(c, ints, aints, kids);
  }

  lemma {:induction false} UnpackPackKids(kids: seq<Tree>, next: int, tail: seq<int>)
    requires AllShaped(kids) && next >= MAX_PREDEFINED
    ensures UnpackKids(PackKids(kids, next).ids, PackKids(kids, next).words + tail) == Fated(FateOfAll(kids), CopyAll(kids), tail)
    decreases kids
  {
    if kids == [] {
      assert [] + tail == tail;
    } else if kids[0].Named? {
      UnpackPackKids(kids[1..], next, tail);
      UnpackNamed(kids, next, tail);
    } else {
      var first := Pack(kids[0], next + 1);
      UnpackPack(kids[0], next + 1, PackKids(kids[1..], first.next).words + tail);
      UnpackPackKids(kids[1..], first.next, tail);
      UnpackCreated(kids, next, tail);
    }
  }

  lemma {:induction false} UnpackNamed(kids: seq<Tree>, next: int, tail: seq<int>)
    requires AllShaped(kids) && kids != [] && kids[0].Named?
    requires UnpackKids(PackKids(kids[1..], next).ids, PackKids(kids[1..], next).words + tail) ==
             Fated(FateOfAll(kids[1..]), CopyAll(kids[1..]), tail)
    ensures UnpackKids(PackKids(kids, next).ids, PackKids(kids, next).words + tail) == Fated(FateOfAll(kids), CopyAll(kids), tail)
  {
    assert WellShaped(kids[0]);
    BasicFirst(kids[0].id, PackKids(kids[1..], next).ids, PackKids(kids[1..], next).words + tail);
    BeforeFated(CopyOf(kids[0]), FateOfAll(kids[1..]), CopyAll(kids[1..]), tail);
  }

  /** A type with a description of its own, given that it and those behind it are unpacked. */
  lemma {:induction false} UnpackCreated(kids: seq<Tree>, next: int, tail: seq<int>)
    requires AllShaped(kids) && next >= MAX_PREDEFINED && kids != [] && kids[0].Node?
    requires var (first, rest) := (Pack(kids[0], next + 1), PackKids(kids[1..], Pack(kids[0], next + 1).next));
             && Unpack(first.words + (rest.words + tail)) == Fated(Fate(kids[0]), CopyOf(kids[0]), rest.words + tail)
             && UnpackKids(rest.ids, rest.words + tail) == Fated(FateOfAll(kids[1..]), CopyAll(kids[1..]), tail)
    ensures UnpackKids(PackKids(kids, next).ids, PackKids(kids, next).words + tail) == Fated(FateOfAll(kids), CopyAll(kids), tail)
  {
    var first := Pack(kids[0], next + 1);
    var rest := PackKids(kids[1..], first.next);
    Reassociate(first.words, rest.words, tail);
    CreatedFirst(next, rest.ids, first.words + (rest.words + tail), Fate(kids[0]), CopyOf(kids[0]), rest.words + tail);
    BeforeFated(CopyOf(kids[0]), FateOfAll(kids[1..]), CopyAll(kids[1..]), tail);
  }

  lemma {:induction false} BasicFirst(id: nat, ids: seq<int>, w: seq<int>)
    requires id < MAX_PREDEFINED
    ensures UnpackKids([id] + ids, w) == Before(Basic(id), UnpackKids(ids, w))
  {
    IdsSplit(id, ids);
  }

  lemma {:induction false} CreatedFirst(id: int, ids: seq<int>, w: seq<int>, v: Verdict, made: Type, rest: seq<int>)
    requires id >= MAX_PREDEFINED && Unpack(w) == Fated(v, made, rest)
    ensures UnpackKids([id] + ids, w) == if v == Made then Before(made, UnpackKids(ids, rest)) else Fated(v, [], rest)
  {
    IdsSplit(id, ids);
  }

  lemma {:induction false} BeforeFated(first: Type, v: Verdict, kids: seq<Type>, tail: seq<int>)
    ensures Before(first, Fated(v, kids, tail)) == Fated(v, [first] + kids, tail)
  {
  }

  lemma {:induction false} IdsSplit(x: int, xs: seq<int>)
    ensures ([x] + xs)[0] == x && ([x] + xs)[1..] == xs
  {
  }

  // ---------------------------------------------------------------------------
  // When a datatype comes back, and what is recorded for it
  // ---------------------------------------------------------------------------

  /** Some call in the tree, duplicates left out, has this combiner and integers. */
  predicate Calls(t: Tree, which: (Combiner, seq<int>) -> bool)
    decreases t
  {
    match t
    case Named(id) => false
    case Node(c, ints, aints, kids) => (c != Dup && which(c, ints)) || exists k :: 0 <= k < |kids| && Calls(kids[k], which)
  }

  function Unmade(): (Combiner, seq<int>) -> bool {
    (c: Combiner, i: seq<int>) => c == Resized || !Remade(c, i)
  }

  function Resizes(): (Combiner, seq<int>) -> bool {
    (c: Combiner, i: seq<int>) => c == Resized
  }

  function Misplaces(): (Combiner, seq<int>) -> bool {
    (c: Combiner, i: seq<int>) => !Remade(c, i)
  }

  function LeavesUnwritten(): (Combiner, seq<int>) -> bool {
    (c: Combiner, i: seq<int>) => Spare(c, i) > 0
  }

  /** A datatype comes back exactly when every call can be made again; NULL comes only from a
      RESIZED, and comes from one if nothing is misplaced. */
  lemma {:induction false} FateIs(t: Tree)
    requires WellShaped(t)
    ensures Fate(t) == Made <==> !Calls(t, Unmade())
    ensures Fate(t) == Misplaced ==> Calls(t, Misplaces())
    ensures Fate(t) == NoDatatype ==> Calls(t, Resizes())
    decreases t
  {
    if t.Node? {
      FateOfAllIs(t.kids);
      if t.combiner == Dup {
        FateIs(t.kids[0]);
      }
    }
  }

  lemma {:induction false} FateOfAllIs(kids: seq<Tree>)
    requires AllShaped(kids)
    ensures FateOfAll(kids) == Made <==> forall k :: 0 <= k < |kids| ==> !Calls(kids[k], Unmade())
    ensures FateOfAll(kids) == Misplaced ==> exists k :: 0 <= k < |kids| && Calls(kids[k], Misplaces())
    ensures FateOfAll(kids) == NoDatatype ==> exists k :: 0 <= k < |kids| && Calls(kids[k], Resizes())
    decreases kids
  {
    if kids != [] {
      FateIs(kids[0]);
      FateOfAllIs(kids[1..]);
      assert forall k :: 0 < k < |kids| ==> kids[k] == kids[1..][k - 1];
    }
  }

  /** Every call has its own integers recorded. */
  predicate RecordedRight(t: Type)
    decreases t
  {
    match t
    case Basic(id) => true
    case Created(call, ints, aints, kids, record) =>
      record == Written(ints) && forall k :: 0 <= k < |kids| ==> RecordedRight(kids[k])
  }

  /** What comes back has the right integers recorded exactly when no INDEXED_BLOCK in it has more than
      two blocks and no HINDEXED_BLOCK any. */
  lemma {:induction false} RecordsRight(t: Tree)
    requires WellShaped(t)
    ensures RecordedRight(CopyOf(t)) <==> !Calls(t, LeavesUnwritten())
    decreases t
  {
    if t.Node? {
      var kids := t.kids;
      forall k | 0 <= k < |kids|
        ensures RecordedRight(CopyAll(kids)[k]) <==> !Calls(kids[k], LeavesUnwritten())
      {
        RecordsRight(kids[k]);
        CopyAllAt(kids, k);
      }
      if t.combiner == Dup {
        RecordsRight(kids[0]);
      } else {
        RecordLength(t.combiner, t.ints);
        assert LeavesUnwritten()(t.combiner, t.ints) <==> Spare(t.combiner, t.ints) > 0;
        assert CopyOf(t) == Created(Normal(t.combiner), t.ints, t.aints, CopyAll(kids), RecordOf(t.combiner, t.ints));
      }
    }
  }

  lemma {:induction false} RecordLength(c: Combiner, i: seq<int>)
    ensures RecordOf(c, i) == Written(i) <==> Spare(c, i) <= 0
  {
    assert |RecordOf(c, i)| == |i| + (if Spare(c, i) < 0 then 0 else Spare(c, i));
    assert Unwritten(0) == [];
  }

  lemma {:induction false} CopyAllAt(kids: seq<Tree>, k: nat)
    requires AllShaped(kids) && k < |kids|
    ensures CopyAll(kids)[k] == CopyOf(kids[k])
  {
    if k > 0 {
      CopyAllAt(kids[1..], k - 1);
    }
  }

  /** Three blocks come back as the same call, with one integer recorded that nobody wrote. */
  lemma {:induction false} ThreeBlocks(d: seq<Type>)
    requires |d| == 1
    ensures CreateFromArgs([3, 1, 0, 4, 8], [], d, IndexedBlock) ==
            Got(Created(IndexedBlock, [3, 1, 0, 4, 8], [], d, Written([3, 1, 0, 4, 8]) + [None]))
  {
    KeepsIndexedBlock([3, 1, 0, 4, 8], [], d);
    assert Unwritten(1) == [None];
  }

  /** One block is recorded past the end. */
  lemma {:induction false} OneBlock(d: seq<Type>)
    requires |d| == 1
    ensures CreateFromArgs([1, 1, 0], [], d, IndexedBlock) == Outside
  {
    KeepsIndexedBlock([1, 1, 0], [], d);
  }

  // ---------------------------------------------------------------------------
  // Packing in place
  // ---------------------------------------------------------------------------

  /** The number of words a description takes. */
  function Size(t: Tree): (r: nat)
    requires WellShaped(t)
    ensures r >= 2
    decreases t
  {
    match t
    case Named(id) => 2
    case Node(c, ints, aints, kids) =>
      if c == Dup then Size(kids[0]) else 4 + 2 * |aints| + |kids| + |ints| + KidsSize(kids)
  }

  function KidsSize(kids: seq<Tree>): nat
    requires AllShaped(kids)
    decreases kids
  {
    if kids == [] then 0 else (if kids[0].Named? then 0 else Size(kids[0])) + KidsSize(kids[1..])
  }

  lemma {:induction false} PackSize(t: Tree, next: int)
    requires WellShaped(t)
    ensures |Pack(t, next).words| == Size(t)
    decreases t
  {
    if t.Node? {
      if t.combiner == Dup {
        PackSize(t.kids[0], next);
      } else {
        PackKidsSize(t.kids, next);
      }
    }
  }

  lemma {:induction false} PackKidsSize(kids: seq<Tree>, next: int)
    requires AllShaped(kids)
    ensures |PackKids(kids, next).words| == KidsSize(kids)
    decreases kids
  {
    if kids != [] {
      if kids[0].Named? {
        PackKidsSize(kids[1..], next);
      } else {
        PackSize(kids[0], next + 1);
        PackKidsSize(kids[1..], Pack(kids[0], next + 1).next);
      }
    }
  }

  /** Between `pos` and `end` the buffer now holds `words`; elsewhere it is as before. */
  ghost predicate Wrote(before: seq<int>, after: seq<int>, pos: nat, words: seq<int>, end: nat) {
    && end == pos + |words| <= |before| && |after| == |before|
    && after[pos..end] == words
    && forall k :: 0 <= k < |before| && !(pos <= k < end) ==> after[k] == before[k]
  }

  lemma {:induction false} WroteKeeps(before: seq<int>, after: seq<int>, pos: nat, words: seq<int>, end: nat, x: nat, y: nat)
    requires Wrote(before, after, pos, words, end) && x <= y <= |before| && (y <= pos || end <= x)
    ensures after[x..y] == before[x..y]
  {
  }

  /** Stores `words` at `pos`, as memcpy does. */
  method Store(buffer: array<int>, pos: nat, words: seq<int>) returns (end: nat)
    requires pos + |words| <= buffer.Length
    modifies buffer
    ensures Wrote(old(buffer[..]), buffer[..], pos, words, end)
  {
    end := pos + |words|;
    forall k | 0 <= k < |words| {
      buffer[pos + k] := words[k];
    }
    assert buffer[pos..end] == words;
  }

  /** Two neighbouring writes are one. */
  lemma {:induction false} WroteBoth(a: seq<int>, b: seq<int>, c: seq<int>, pos: nat, v: seq<int>, mid: nat, w: seq<int>, end: nat)
    requires Wrote(a, b, pos, v, mid) && Wrote(b, c, mid, w, end)
    ensures Wrote(a, c, pos, v + w, end)
  {
    WroteKeeps(b, c, mid, w, end, pos, mid);
    assert c[pos..end] == c[pos..mid] + c[mid..end];
  }

  /** The recursive packer: writes the description of `t` at `pos`, in place, and nothing
      else. */
  method PackInto(t: Tree, buffer: array<int>, pos: nat, next: int) returns (end: nat, newNext: int)
    requires WellShaped(t) && pos + Size(t) <= buffer.Length
    modifies buffer
    ensures Wrote(old(buffer[..]), buffer[..], pos, Pack(t, next).words, end)
    ensures newNext == Pack(t, next).next
    decreases t, 2
  {
    match t {
      case Named(id) =>
        end := Store(buffer, pos, [NAMED, id]);
        newNext := next;
      case Node(c, ints, aints, kids) =>
        if c == Dup {
          end, newNext := PackInto(kids[0], buffer, pos, next);
        } else {
          end, newNext := PackCall(c, ints, aints, kids, buffer, pos, next);
        }
    }
  }

  /** ompi_datatype_args.c, lines 447 to 488: the header and the displacements, room for the type entries, the
      integers, then the types. */
  method PackCall(c: Combiner, ints: seq<int>, aints: seq<int>, kids: seq<Tree>, buffer: array<int>, pos: nat, next: int)
    returns (end: nat, newNext: int)
    requires c != Dup && Shape(c, ints, |aints|, |kids|) && AllShaped(kids)
    requires pos + Size(Node(c, ints, aints, kids)) <= buffer.Length
    modifies buffer
    ensures Wrote(old(buffer[..]), buffer[..], pos, Pack(Node(c, ints, aints, kids), next).words, end)
    ensures newNext == PackKids(kids, next).next
    decreases kids, 1
  {
    ghost var before := buffer[..];
    var position := PackFront(c, |ints|, aints, |kids|, buffer, pos);
    ghost var second := buffer[..];
    var nextPacked := Store(buffer, position + |kids|, ints);
    ghost var third := buffer[..];
    end, newNext := PackTypes(kids, buffer, position, nextPacked, next);
    ghost var (front, k) := ([Code(c), |ints|, |aints|, |kids|] + AintWords(aints), PackKids(kids, next));
    CallWritten(before, second, third, buffer[..], pos, front, position, |kids|, ints, nextPacked, k.ids, k.words, end);
    Reassociate([Code(c), |ints|, |aints|, |kids|], AintWords(aints), k.ids + (ints + k.words));
  }

  method PackFront(c: Combiner, ci: nat, aints: seq<int>, cd: nat, buffer: array<int>, pos: nat) returns (end: nat)
    requires pos + 4 + 2 * |aints| <= buffer.Length
    modifies buffer
    ensures Wrote(old(buffer[..]), buffer[..], pos, [Code(c), ci, |aints|, cd] + AintWords(aints), end)
  {
    ghost var before := buffer[..];
    end := Store(buffer, pos, [Code(c), ci, |aints|, cd]);
    ghost var first := buffer[..];
    end := Store(buffer, end, AintWords(aints));
    WroteBoth(before, first, buffer[..], pos, [Code(c), ci, |aints|, cd], pos + 4, AintWords(aints), end);
  }

  /** The entry of one type, its description, and the next free index. */
  function One(kid: Tree, next: int): (int, seq<int>, int)
    requires WellShaped(kid)
  {
    if kid.Named? then (kid.id, [], next) else (next, Pack(kid, next + 1).words, Pack(kid, next + 1).next)
  }

  lemma {:induction false} OneAndRest(kids: seq<Tree>, i: nat, next: int)
    requires AllShaped(kids) && i < |kids|
    ensures AllShaped(kids[i..]) && AllShaped(kids[i + 1..])
    ensures var (one, rest) := (One(kids[i], next), PackKids(kids[i + 1..], One(kids[i], next).2));
            PackKids(kids[i..], next) == PackedKids([one.0] + rest.ids, one.1 + rest.words, rest.next)
    ensures KidsSize(kids[i..]) == |One(kids[i], next).1| + KidsSize(kids[i + 1..])
  {
    assert kids[i..][1..] == kids[i + 1..] && kids[i..][0] == kids[i];
    if !kids[i].Named? {
      PackSize(kids[i], next + 1);
    } else {
      assert [] + PackKids(kids[i + 1..], next).words == PackKids(kids[i + 1..], next).words;
    }
  }

  /** One turn of the loop. */
  method PackOne(kid: Tree, buffer: array<int>, slot: nat, from: nat, next: int) returns (end: nat, newNext: int)
    requires WellShaped(kid) && slot < from && from + |One(kid, next).1| <= buffer.Length && slot < buffer.Length
    modifies buffer
    ensures OneType(old(buffer[..]), buffer[..], slot, One(kid, next).0, from, One(kid, next).1)
    ensures end == from + |One(kid, next).1| && newNext == One(kid, next).2
    decreases kid, 3
  {
    ghost var before := buffer[..];
    if kid.Named? {
      buffer[slot] := kid.id;
      end, newNext := from, next;
    } else {
      buffer[slot] := next;
      ghost var marked := buffer[..];
      PackSize(kid, next + 1);
      end, newNext := PackInto(kid, buffer, from, next + 1);
      MarkedThenWrote(before, marked, buffer[..], slot, next, from, Pack(kid, next + 1).words, end);
    }
  }

  /** The loop over the types of a call: `position` is where their entries go, `cursor` where
      the descriptions of those that are not predefined go. */
  method PackTypes(kids: seq<Tree>, buffer: array<int>, position: nat, cursor: nat, next: int)
    returns (end: nat, newNext: int)
    requires AllShaped(kids) && position + |kids| <= cursor && cursor + KidsSize(kids) <= buffer.Length
    modifies buffer
    ensures TypesWritten(old(buffer[..]), buffer[..], position, PackKids(kids, next).ids, cursor, PackKids(kids, next).words, end)
    ensures newNext == PackKids(kids, next).next
    decreases kids, 0
  {
    end, newNext := cursor, next;
    var i := 0;
    ghost var (before, all) := (buffer[..], PackKids(kids, next));
    TypesStart(before, position, kids, cursor, next);
    while i < |kids|
      invariant i <= |kids| && PartlyPacked(all, before, buffer[..], position, kids, i, cursor, end, newNext)
    {
      end, newNext := PackNext(all, before, buffer, position, kids, i, cursor, end, newNext);
      i := i + 1;
    }
    TypesEnd(all, before, buffer[..], position, kids, cursor, end, newNext);
  }

  method PackNext(ghost all: PackedKids, ghost before: seq<int>, buffer: array<int>, position: nat, kids: seq<Tree>, i: nat,
                  ghost cursor: nat, end: nat, next: int)
    returns (newEnd: nat, newNext: int)
    requires i < |kids| && PartlyPacked(all, before, buffer[..], position, kids, i, cursor, end, next)
    requires position + |kids| <= cursor && cursor + KidsSize(kids) <= buffer.Length
    modifies buffer
    ensures PartlyPacked(all, before, buffer[..], position, kids, i + 1, cursor, newEnd, newNext)
    decreases kids[i], 4
  {
    OneFits(all, before, buffer[..], position, kids, i, cursor, end, next);
    ghost var soFar := buffer[..];
    newEnd, newNext := PackOne(kids[i], buffer, position + i, end, next);
    LoopStep(all, before, soFar, buffer[..], position, kids, i, cursor, end, next);
  }

  /** The entries at `position` and the descriptions at `cursor` are written; the rest is as
      before. */
  ghost predicate TypesWritten(before: seq<int>, after: seq<int>, position: nat, ids: seq<int>, cursor: nat, words: seq<int>, end: nat) {
    && |after| == |before| && position + |ids| <= cursor && end == cursor + |words| <= |before|
    && after[position..position + |ids|] == ids && after[cursor..end] == words
    && forall k :: 0 <= k < |before| && !(position <= k < position + |ids|) && !(cursor <= k < end) ==> after[k] == before[k]
  }

  /** In the middle of the loop: `i` entries and the descriptions up to `end` are written, and
      what remains to be written completes them. */
  ghost predicate Suffix(all: PackedKids, before: seq<int>, now: seq<int>, position: nat, i: nat, cursor: nat, end: nat, rest: PackedKids) {
    && |now| == |before| && position + |all.ids| <= cursor <= end <= |now| && i + |rest.ids| == |all.ids|
    && now[position..position + i] + rest.ids == all.ids && now[cursor..end] + rest.words == all.words
    && rest.next == all.next
    && forall k :: 0 <= k < |before| && !(position <= k < position + i) && !(cursor <= k < end) ==> now[k] == before[k]
  }

  /** An entry and a description were written. */
  ghost predicate OneType(now: seq<int>, then_: seq<int>, slot: nat, id: int, from: nat, words: seq<int>) {
    && |then_| == |now| && slot < from && from + |words| <= |now|
    && then_[slot] == id && then_[from..from + |words|] == words
    && forall k :: 0 <= k < |now| && k != slot && !(from <= k < from + |words|) ==> then_[k] == now[k]
  }

  lemma {:induction false} MarkedThenWrote(a: seq<int>, b: seq<int>, c: seq<int>, slot: nat, id: int, from: nat, words: seq<int>, end: nat)
    requires slot < |a| && b == a[slot := id] && slot < from && Wrote(b, c, from, words, end)
    ensures OneType(a, c, slot, id, from, words) && end == from + |words|
  {
  }

  lemma {:induction false} SuffixStep(all: PackedKids, before: seq<int>, now: seq<int>, then_: seq<int>, position: nat, i: nat, cursor: nat, end: nat,
                                      rest: PackedKids, id: int, words: seq<int>, later: PackedKids)
    requires Suffix(all, before, now, position, i, cursor, end, rest)
    requires rest.ids == [id] + later.ids && rest.words == words + later.words && rest.next == later.next
    requires OneType(now, then_, position + i, id, end, words)
    ensures Suffix(all, before, then_, position, i + 1, cursor, end + |words|, later)
  {
    assert then_[position..position + i] == now[position..position + i];
    assert then_[position..position + i + 1] == then_[position..position + i] + [id];
    assert then_[cursor..end] == now[cursor..end];
    assert then_[cursor..end + |words|] == then_[cursor..end] + words;
    Reassociate(now[position..position + i], [id], later.ids);
    Reassociate(now[cursor..end], words, later.words);
  }

  ghost predicate PartlyPacked(all: PackedKids, before: seq<int>, now: seq<int>, position: nat, kids: seq<Tree>, i: nat, cursor: nat, end: nat, next: int) {
    && i <= |kids| && AllShaped(kids[i..]) && AllShaped(kids) && end + KidsSize(kids[i..]) == cursor + KidsSize(kids)
    && Suffix(all, before, now, position, i, cursor, end, PackKids(kids[i..], next))
  }

  lemma {:induction false} OneFits(all: PackedKids, before: seq<int>, now: seq<int>, position: nat, kids: seq<Tree>, i: nat, cursor: nat, end: nat, next: int)
    requires i < |kids| && PartlyPacked(all, before, now, position, kids, i, cursor, end, next)
    requires position + |kids| <= cursor
    ensures WellShaped(kids[i]) && position + i < end && end + |One(kids[i], next).1| <= cursor + KidsSize(kids)
  {
    OneAndRest(kids, i, next);
  }

  lemma {:induction false} LoopStep(all: PackedKids, before: seq<int>, now: seq<int>, then_: seq<int>, position: nat, kids: seq<Tree>, i: nat,
                                    cursor: nat, end: nat, next: int)
    requires i < |kids| && PartlyPacked(all, before, now, position, kids, i, cursor, end, next)
    requires WellShaped(kids[i]) && OneType(now, then_, position + i, One(kids[i], next).0, end, One(kids[i], next).1)
    ensures PartlyPacked(all, before, then_, position, kids, i + 1, cursor, end + |One(kids[i], next).1|, One(kids[i], next).2)
  {
    OneAndRest(kids, i, next);
    var (one, rest) := (One(kids[i], next), PackKids(kids[i + 1..], One(kids[i], next).2));
    SuffixStep(all, before, now, then_, position, i, cursor, end, PackKids(kids[i..], next), one.0, one.1, rest);
  }

  lemma {:induction false} Reassociate(a: seq<int>, b: seq<int>, c: seq<int>)
    ensures (a + b) + c == a + (b + c)
  {
  }

  lemma {:induction false} TypesStart(before: seq<int>, position: nat, kids: seq<Tree>, cursor: nat, next: int)
    requires AllShaped(kids) && position + |kids| <= cursor <= |before|
    ensures PartlyPacked(PackKids(kids, next), before, before, position, kids, 0, cursor, cursor, next)
  {
    assert kids[0..] == kids;
  }

  lemma {:induction false} TypesEnd(all: PackedKids, before: seq<int>, now: seq<int>, position: nat, kids: seq<Tree>, cursor: nat, end: nat, next: int)
    requires PartlyPacked(all, before, now, position, kids, |kids|, cursor, end, next)
    ensures TypesWritten(before, now, position, all.ids, cursor, all.words, end) && next == all.next
  {
    assert kids[|kids|..] == [];
    assert now[position..position + |kids|] + [] == now[position..position + |kids|];
    assert now[cursor..end] + [] == now[cursor..end];
  }

  lemma {:induction false} SliceKept(a: seq<int>, b: seq<int>, lo: nat, hi: nat)
    requires lo <= hi <= |a| == |b| && forall k :: lo <= k < hi ==> a[k] == b[k]
    ensures a[lo..hi] == b[lo..hi]
  {
  }

  lemma {:induction false} FourParts(s: seq<int>, p: nat, q: nat, r: nat, t: nat, end: nat)
    requires p <= q <= r <= t <= end <= |s|
    ensures s[p..end] == s[p..q] + (s[q..r] + (s[r..t] + s[t..end]))
  {
    assert s[p..end] == s[p..q] + s[q..end];
    assert s[q..end] == s[q..r] + s[r..end];
    assert s[r..end] == s[r..t] + s[t..end];
  }

  /** Header, entries, integers and descriptions lie side by side. */
  lemma {:induction false} CallWritten(before: seq<int>, second: seq<int>, third: seq<int>, after: seq<int>, pos: nat, front: seq<int>, position: nat,
                                       slots: nat, ints: seq<int>, cursor: nat, ids: seq<int>, words: seq<int>, end: nat)
    requires Wrote(before, second, pos, front, position) && |ids| == slots
    requires Wrote(second, third, position + slots, ints, cursor) && TypesWritten(third, after, position, ids, cursor, words, end)
    ensures Wrote(before, after, pos, front + (ids + (ints + words)), end)
  {
    SliceKept(second, third, pos, position);
    SliceKept(third, after, pos, position);
    SliceKept(third, after, position + slots, cursor);
    FourParts(after, pos, position, position + slots, cursor, end);
    forall k | 0 <= k < |before| && !(pos <= k < end)
      ensures after[k] == before[k]
    {
      assert after[k] == third[k] && third[k] == second[k];
    }
  }

  // ---------------------------------------------------------------------------
  // The size kept with every type
  // ---------------------------------------------------------------------------

  /** A type of a call: predefined, or one created before. */
  datatype Ref = Pre(id: nat) | User(index: nat)

  datatype Call = Call(combiner: Combiner, ints: seq<int>, aints: seq<int>, kids: seq<Ref>)

  predicate RefOk(r: Ref, bound: nat) {
    match r
    case Pre(id) => id < MAX_PREDEFINED
    case User(index) => index < bound
  }

  /** A call of the shape the MPI functions use, on types that exist. */
  predicate CallOk(c: Call, bound: nat) {
    Shape(c.combiner, c.ints, |c.aints|, |c.kids|) && forall k :: 0 <= k < |c.kids| ==> RefOk(c.kids[k], bound)
  }

  predicate CallsOk(calls: seq<Call>) {
    forall n :: 0 <= n < |calls| ==> CallOk(calls[n], n)
  }

  /** The tree behind a type. */
  function TreeOf(calls: seq<Call>, n: nat): (t: Tree)
    requires CallsOk(calls) && n < |calls|
    ensures WellShaped(t) && t.Node? && t.combiner == calls[n].combiner
    decreases n, 1
  {
    var c := calls[n];
    var kids := seq(|c.kids|, k requires 0 <= k < |c.kids| => KidTree(calls, n, c.kids[k]));
    Node(c.combiner, c.ints, c.aints, kids)
  }

  function KidTree(calls: seq<Call>, n: nat, r: Ref): (t: Tree)
    requires CallsOk(calls) && n < |calls| && RefOk(r, n)
    ensures WellShaped(t) && (t.Named? <==> r.Pre?)
    decreases n, 0
  {
    match r
    case Pre(id) => Named(id)
    case User(index) => TreeOf(calls, index)
  }

  lemma {:induction false} TreeKept(calls: seq<Call>, more: seq<Call>, n: nat)
    requires CallsOk(calls) && CallsOk(more) && calls <= more && n < |calls|
    ensures TreeOf(more, n) == TreeOf(calls, n)
    decreases n
  {
    var c := calls[n];
    forall k | 0 <= k < |c.kids|
      ensures KidTree(more, n, c.kids[k]) == KidTree(calls, n, c.kids[k])
    {
      if c.kids[k].User? {
        TreeKept(calls, more, c.kids[k].index);
      }
    }
    assert TreeOf(more, n).kids == TreeOf(calls, n).kids;
  }

  /** What the types of a call add to its size, in words: two for a predefined type. */
  function KidTotals(kids: seq<Ref>, totals: seq<nat>, k: nat): nat
    requires k <= |kids| && forall j :: 0 <= j < |kids| ==> RefOk(kids[j], |totals|)
  {
    if k == 0 then 0
    else KidTotals(kids, totals, k - 1) + (if kids[k - 1].Pre? then 2 else totals[kids[k - 1].index])
  }

  lemma {:induction false} KidsSizeUpTo(kids: seq<Tree>, refs: seq<Ref>, totals: seq<nat>, k: nat)
    requires AllShaped(kids) && |kids| == |refs| && k <= |kids|
    requires forall j :: 0 <= j < |refs| ==> RefOk(refs[j], |totals|)
    requires forall j :: 0 <= j < |refs| ==> (kids[j].Named? <==> refs[j].Pre?)
    requires forall j :: 0 <= j < |refs| && refs[j].User? ==> RefOk(refs[j], |totals|) && Size(kids[j]) <= totals[refs[j].index]
    ensures KidsSize(kids[k..]) <= KidTotals(refs, totals, |refs|) - KidTotals(refs, totals, k)
    decreases |kids| - k
  {
    if k < |kids| {
      KidsSizeUpTo(kids, refs, totals, k + 1);
      assert kids[k..][1..] == kids[k + 1..] && kids[k..][0] == kids[k];
    } else {
      assert kids[k..] == [];
    }
  }

  class Registry {
    var calls: seq<Call>
    /** total_pack_size of every type, in words. */
    var totals: seq<nat>
    /** packed_description; None is NULL. */
    var descriptions: seq<Option<seq<int>>>

    /** No description is longer than the size kept, and a description made is the one of the
        type, with exactly the size kept. */
    ghost predicate Valid()
      reads this
    {
      && CallsOk(calls) && |totals| == |descriptions| == |calls|
      && (forall n :: 0 <= n < |calls| ==> Size(TreeOf(calls, n)) <= totals[n])
      && forall n :: 0 <= n < |calls| && descriptions[n].Some? ==>
           descriptions[n].value == Pack(TreeOf(calls, n), MAX_PREDEFINED).words && |descriptions[n].value| == totals[n]
    }

    constructor ()
      ensures Valid() && calls == []
    {
      calls, totals, descriptions := [], [], [];
    }

    /** ompi_datatype_set_args on a new type. */
    method SetArgsOn(c: Call) returns (n: nat)
      requires Valid() && CallOk(c, |calls|)
      modifies this
      ensures Valid() && calls == old(calls) + [c] && n == old(|calls|)
      ensures forall m :: 0 <= m < old(|calls|) ==> TreeOf(calls, m) == TreeOf(old(calls), m)
    {
      var total: nat := if c.combiner == Dup then 0 else 4 + |c.ints| + 2 * |c.aints| + |c.kids|;
      var pos := 0;
      while pos < |c.kids|
        invariant 0 <= pos <= |c.kids|
        invariant total == (if c.combiner == Dup then 0 else 4 + |c.ints| + 2 * |c.aints| + |c.kids|) + KidTotals(c.kids, totals, pos)
      {
        assert RefOk(c.kids[pos], |calls|);
        if c.kids[pos].User? {
          total := total + totals[c.kids[pos].index];
        } else {
          total := total + 2;
        }
        pos := pos + 1;
      }
      n := |calls|;
      TotalCovers(calls, totals, c, total);
      forall m | 0 <= m < |calls|
        ensures CallsOk(calls + [c]) && TreeOf(calls + [c], m) == TreeOf(calls, m)
      {
        TreeKept(calls, calls + [c], m);
      }
      calls, totals, descriptions := calls + [c], totals + [total], descriptions + [None];
    }

    /** ompi_datatype_get_pack_description: the buffer has the size kept, nothing is written
        past it, and the size kept becomes the size of the description. */
    method GetPackDescription(n: nat) returns (words: seq<int>)
      requires Valid() && n < |calls|
      modifies this`totals, this`descriptions
      ensures Valid() && words == Pack(TreeOf(calls, n), MAX_PREDEFINED).words
      ensures descriptions[n] == Some(words) && totals[n] == |words|
      ensures forall m :: 0 <= m < |calls| && m != n ==> totals[m] == old(totals)[m] && descriptions[m] == old(descriptions)[m]
    {
      if descriptions[n].Some? {
        return descriptions[n].value;
      }
      var buffer := new int[totals[n]](_ => 0);
      var end, next := PackInto(TreeOf(calls, n), buffer, 0, MAX_PREDEFINED);
      words := buffer[..end];
      PackSize(TreeOf(calls, n), MAX_PREDEFINED);
      descriptions := descriptions[n := Some(words)];
      totals := totals[n := end];
    }

    /** ompi_datatype_pack_description_length */
    method DescriptionLength(n: nat) returns (length: nat)
      requires Valid() && n < |calls|
      modifies this`totals, this`descriptions
      ensures Valid() && length == |Pack(TreeOf(calls, n), MAX_PREDEFINED).words|
    {
      if descriptions[n].None? {
        var _ := GetPackDescription(n);
      }
      return totals[n];
    }

    /** What a peer rebuilds from a type's description. */
    method Rebuild(n: nat) returns (u: Outcome<Unpacked<Type>>)
      requires Valid() && n < |calls|
      modifies this`totals, this`descriptions
      ensures Valid()
      ensures u == Fated(Fate(TreeOf(calls, n)), CopyOf(TreeOf(calls, n)), [])
    {
      var words := GetPackDescription(n);
      UnpackPack(TreeOf(calls, n), MAX_PREDEFINED, []);
      assert words + [] == words;
      u := Unpack(words);
    }
  }

  /** The size computed for a new type covers its description. */
  lemma {:induction false} TotalCovers(calls: seq<Call>, totals: seq<nat>, c: Call, total: nat)
    requires CallsOk(calls) && |totals| == |calls| && CallOk(c, |calls|)
    requires forall n :: 0 <= n < |calls| ==> Size(TreeOf(calls, n)) <= totals[n]
    requires total == (if c.combiner == Dup then 0 else 4 + |c.ints| + 2 * |c.aints| + |c.kids|) + KidTotals(c.kids, totals, |c.kids|)
    ensures CallsOk(calls + [c]) && Size(TreeOf(calls + [c], |calls|)) <= total
  {
    var more := calls + [c];
    var n := |calls|;
    var kids := TreeOf(more, n).kids;
    forall k | 0 <= k < |c.kids|
      ensures kids[k].Named? <==> c.kids[k].Pre?
      ensures c.kids[k].User? ==> Size(kids[k]) <= totals[c.kids[k].index]
    {
      assert more[n] == c && kids[k] == KidTree(more, n, c.kids[k]) && RefOk(c.kids[k], n);
      if c.kids[k].User? {
        TreeKept(calls, more, c.kids[k].index);
      }
    }
    if c.combiner == Dup {
      assert KidTotals(c.kids, totals, 1) == KidTotals(c.kids, totals, 0) + (if c.kids[0].Pre? then 2 else totals[c.kids[0].index]);
    } else {
      KidsSizeUpTo(kids, c.kids, totals, 0);
      assert kids[0..] == kids;
    }
  }
}
