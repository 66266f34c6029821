/** Splitting a communicator: every process filters and sorts the colors and keys that all have
    contributed, and all of one color must arrive at the same list of ranks. */
module CommSplit {

  /** Two ints of the array `sorted`: the rank in the old communicator and its key. */
  datatype Entry = Entry(rank: int, key: int)

  datatype Status = Success | BadParam

  /** Rank `i` contributes its color at place 2i and its key at place 2i + 1. */
  ghost predicate Gathered(results: seq<int>, size: nat) {
    |results| == 2 * size
  }

  function Color(results: seq<int>, i: nat): int
    requires 2 * i < |results|
  {
    results[2 * i]
  }

  function Key(results: seq<int>, i: nat): int
    requires 2 * i + 1 < |results|
  {
    results[2 * i + 1]
  }

  // ---------------------------------------------------------------------------
  // The comparison, and what any sort by it yields
  // ---------------------------------------------------------------------------

  /** rankkeycompare */
  function RankKeyCompare(a: Entry, b: Entry): int {
    if a.key < b.key then -1
    else if a.key > b.key then 1
    else if a.rank < b.rank then -1
    else if a.rank == b.rank then 0
    else 1
  }

  ghost predicate Ordered(s: seq<Entry>) {
    forall i, j :: 0 <= i < j < |s| ==> RankKeyCompare(s[i], s[j]) <= 0
  }

  ghost predicate StrictlyOrdered(s: seq<Entry>) {
    forall i, j :: 0 <= i < j < |s| ==> RankKeyCompare(s[i], s[j]) < 0
  }

  /** What the C library promises of qsort: a permutation in order; equal elements anyhow. */
  ghost predicate Sorts(qsort: seq<Entry> -> seq<Entry>) {
    forall s :: Ordered(qsort(s)) && multiset(qsort(s)) == multiset(s)
  }

  lemma {:induction false} CompareTransitive(a: Entry, b: Entry, c: Entry)
    ensures RankKeyCompare(a, b) < 0 && RankKeyCompare(b, c) < 0 ==> RankKeyCompare(a, c) < 0
    ensures RankKeyCompare(a, b) == 0 <==> a == b
    ensures RankKeyCompare(a, b) < 0 <==> RankKeyCompare(b, a) > 0
  {
  }

  lemma {:induction false} Twice(s: seq<Entry>, i: nat, j: nat)
    requires i < j < |s| && s[i] == s[j]
    ensures multiset(s)[s[i]] >= 2
  {
    var (a, b) := (s[..j], s[j..]);
    assert s == a + b && s[i] == a[i] && s[j] == b[0];
    assert multiset(s)[s[i]] == multiset(a)[s[i]] + multiset(b)[s[i]];
    assert s[i] in a && s[i] in b;
  }

  /** Distinct entries in order are strictly in order. */
  lemma {:induction false} DistinctOrdered(s: seq<Entry>)
    requires Ordered(s) && forall e :: multiset(s)[e] <= 1
    ensures StrictlyOrdered(s)
  {
    forall i, j | 0 <= i < j < |s|
      ensures RankKeyCompare(s[i], s[j]) < 0
    {
      if s[i] == s[j] {
        Twice(s, i, j);
      }
    }
  }

  /** A strictly ordered sequence is given by its members. */
  lemma {:induction false} MembersDecide(s: seq<Entry>, t: seq<Entry>)
    requires StrictlyOrdered(s) && StrictlyOrdered(t) && forall e :: e in s <==> e in t
    ensures s == t
    decreases |s|
  {
    assert t != [] ==> t[0] in t;
    if s == [] {
    } else {
      assert s[0] in s && s[0] in t;
      assert t[0] in t && t[0] in s;
      HeadsAgree(s, t);
      forall e
        ensures e in s[1..] <==> e in t[1..]
      {
        TailMembers(s, e);
        TailMembers(t, e);
      }
      MembersDecide(s[1..], t[1..]);
      assert s == [s[0]] + s[1..] && t == [t[0]] + t[1..];
    }
  }

  lemma {:induction false} HeadsAgree(s: seq<Entry>, t: seq<Entry>)
    requires StrictlyOrdered(s) && StrictlyOrdered(t) && s != [] && t != [] && s[0] in t && t[0] in s
    ensures s[0] == t[0]
  {
    var i :| 0 <= i < |t| && t[i] == s[0];
    var j :| 0 <= j < |s| && s[j] == t[0];
    CompareTransitive(s[0], t[0], s[0]);
  }

  lemma {:induction false} TailMembers(s: seq<Entry>, e: Entry)
    requires StrictlyOrdered(s) && s != []
    ensures e in s[1..] <==> e in s && e != s[0]
  {
    assert s == [s[0]] + s[1..];
    forall k | 0 <= k < |s[1..]|
      ensures s[1..][k] != s[0]
    {
      CompareTransitive(s[0], s[k + 1], s[0]);
    }
  }

  // ---------------------------------------------------------------------------
  // The list of one color
  // ---------------------------------------------------------------------------

  function At(results: seq<int>, r: nat): Entry
    requires 2 * r + 1 < |results|
  {
    Entry(r, Key(results, r))
  }

  /** The entries of the ranks below `n` with this color, in rank order. */
  function Members(results: seq<int>, color: int, n: nat): seq<Entry>
    requires 2 * n <= |results|
  {
    if n == 0 then []
    else
      var before := Members(results, color, n - 1);
      if Color(results, n - 1) == color then before + [At(results, n - 1)] else before
  }

  lemma {:induction false} MembersExactly(results: seq<int>, color: int, n: nat, e: Entry)
    requires 2 * n <= |results|
    ensures multiset(Members(results, color, n))[e]
            == if 0 <= e.rank < n && e == At(results, e.rank) && Color(results, e.rank) == color then 1 else 0
  {
    if n > 0 {
      MembersExactly(results, color, n - 1, e);
    }
  }

  /** What MPI_Comm_split promises of the new group: the ranks of this color and no others, by key
      and, for equal keys, by old rank. */
  ghost predicate IsGroup(results: seq<int>, size: nat, color: int, ranks: seq<int>)
    requires Gathered(results, size)
  {
    && (forall r :: r in ranks <==> 0 <= r < size && Color(results, r) == color)
    && forall i, j :: 0 <= i < j < |ranks| && 0 <= ranks[i] < size && 0 <= ranks[j] < size ==>
         Key(results, ranks[i]) < Key(results, ranks[j])
         || (Key(results, ranks[i]) == Key(results, ranks[j]) && ranks[i] < ranks[j])
  }

  /** The comparison of the sort is by key and then by rank. */
  lemma {:induction false} ComparesByKey(results: seq<int>, p: nat, q: nat)
    requires 2 * p + 1 < |results| && 2 * q + 1 < |results|
    ensures RankKeyCompare(At(results, p), At(results, q)) < 0
            <==> Key(results, p) < Key(results, q) || (Key(results, p) == Key(results, q) && p < q)
  {
  }

  lemma {:induction false} GroupOrdered(results: seq<int>, size: nat, color: int, ranks: seq<int>)
    requires Gathered(results, size) && IsGroup(results, size, color, ranks)
    ensures forall i :: 0 <= i < |ranks| ==> 0 <= ranks[i] < size
    ensures StrictlyOrdered(Entries(results, ranks))
  {
    assert forall i :: 0 <= i < |ranks| ==> ranks[i] in ranks;
    var s := Entries(results, ranks);
    forall i, j | 0 <= i < j < |s|
      ensures RankKeyCompare(s[i], s[j]) < 0
    {
      ComparesByKey(results, ranks[i], ranks[j]);
    }
  }

  function Entries(results: seq<int>, ranks: seq<int>): (s: seq<Entry>)
    requires forall i :: 0 <= i < |ranks| ==> 0 <= ranks[i] && 2 * ranks[i] + 1 < |results|
    ensures |s| == |ranks| && forall i :: 0 <= i < |ranks| ==> s[i] == At(results, ranks[i])
  {
    if ranks == [] then [] else
      [At(results, ranks[0])] + Entries(results, ranks[1..])
  }

  lemma {:induction false} EntriesMembers(results: seq<int>, size: nat, color: int, ranks: seq<int>, e: Entry)
    requires Gathered(results, size) && IsGroup(results, size, color, ranks)
    requires forall i :: 0 <= i < |ranks| ==> 0 <= ranks[i] && 2 * ranks[i] + 1 < |results|
    ensures e in Entries(results, ranks) <==> 0 <= e.rank < size && e == At(results, e.rank) && Color(results, e.rank) == color
  {
    var s := Entries(results, ranks);
    if e in s {
      var i :| 0 <= i < |s| && s[i] == e;
      assert ranks[i] in ranks;
    }
    if 0 <= e.rank < size && e == At(results, e.rank) && Color(results, e.rank) == color {
      var i :| 0 <= i < |ranks| && ranks[i] == e.rank;
      assert s[i] == e;
    }
  }

  /** So every process of a color arrives at the same list, however its qsort works. */
  lemma {:induction false} OneGroup(results: seq<int>, size: nat, color: int, a: seq<int>, b: seq<int>)
    requires Gathered(results, size) && IsGroup(results, size, color, a) && IsGroup(results, size, color, b)
    ensures a == b
  {
    GroupOrdered(results, size, color, a);
    GroupOrdered(results, size, color, b);
    var (s, t) := (Entries(results, a), Entries(results, b));
    forall e
      ensures e in s <==> e in t
    {
      EntriesMembers(results, size, color, a, e);
      EntriesMembers(results, size, color, b, e);
    }
    MembersDecide(s, t);
    assert forall i :: 0 <= i < |a| ==> a[i] == s[i].rank && b[i] == t[i].rank;
  }

  /** The lists that all processes compute: those of one color compute the same one, those of
      different colors compute lists without a common rank, and every process is in its own. */
  lemma {:induction false} ProcessesAgree(results: seq<int>, size: nat, lists: seq<seq<int>>, i: nat, j: nat)
    requires Gathered(results, size) && |lists| == size && i < size && j < size
    requires forall p :: 0 <= p < size ==> IsGroup(results, size, Color(results, p), lists[p])
    ensures i in lists[i] && (Color(results, i) == Color(results, j) ==> lists[i] == lists[j])
    ensures Color(results, i) != Color(results, j) ==> forall r :: r in lists[i] ==> r !in lists[j]
  {
    if Color(results, i) == Color(results, j) {
      OneGroup(results, size, Color(results, i), lists[i], lists[j]);
    }
  }

  /** The ranks of this color with a smaller key than rank `r`, or with the same key and a lower rank. */
  ghost function BeforeSet(results: seq<int>, size: nat, color: int, r: nat): set<int>
    requires Gathered(results, size) && r < size
  {
    set p: int | 0 <= p < size && Color(results, p) == color
                 && (Key(results, p) < Key(results, r) || (Key(results, p) == Key(results, r) && p < r))
  }

  function SetOf(s: seq<int>): set<int> {
    set x | x in s
  }

  lemma {:induction false} PrefixCount(s: seq<int>, k: nat)
    requires k <= |s| && forall i, j :: 0 <= i < j < |s| ==> s[i] != s[j]
    ensures |SetOf(s[..k])| == k
  {
    if k == 0 {
      assert SetOf(s[..k]) == {};
    } else {
      PrefixCount(s, k - 1);
      assert s[..k] == s[..k - 1] + [s[k - 1]];
      assert s[k - 1] !in s[..k - 1];
      assert SetOf(s[..k]) == SetOf(s[..k - 1]) + {s[k - 1]};
    }
  }

  /** A process's rank in the new group is the number of processes of its color that come before it. */
  lemma {:induction false} NewRank(results: seq<int>, size: nat, color: int, ranks: seq<int>, k: nat)
    requires Gathered(results, size) && IsGroup(results, size, color, ranks) && k < |ranks|
    ensures ranks[k] in ranks && k == |BeforeSet(results, size, color, ranks[k])|
  {
    var r := ranks[k];
    assert forall i :: 0 <= i < |ranks| ==> ranks[i] in ranks;
    PrefixCount(ranks, k);
    var all := BeforeSet(results, size, color, r);
    forall p
      ensures p in all <==> p in SetOf(ranks[..k])
    {
      InPrefix(results, size, color, ranks, k, p);
    }
    assert all == SetOf(ranks[..k]);
  }

  lemma {:induction false} InPrefix(results: seq<int>, size: nat, color: int, ranks: seq<int>, k: nat, p: int)
    requires Gathered(results, size) && IsGroup(results, size, color, ranks) && k < |ranks|
    ensures ranks[k] in ranks && (p in BeforeSet(results, size, color, ranks[k]) <==> p in ranks[..k])
  {
    assert ranks[k] in ranks;
    if p in ranks {
      var i :| 0 <= i < |ranks| && ranks[i] == p;
      assert i < k ==> ranks[..k][i] == p;
      if p in ranks[..k] {
        var h :| 0 <= h < k && ranks[h] == p;
      }
    }
  }

  // ---------------------------------------------------------------------------
  // What each process does
  // ---------------------------------------------------------------------------

  const MPI_UNDEFINED := -32766

  lemma {:induction false} MembersDistinct(results: seq<int>, color: int, n: nat)
    requires 2 * n <= |results|
    ensures forall e :: multiset(Members(results, color, n))[e] <= 1
  {
    forall e
      ensures multiset(Members(results, color, n))[e] <= 1
    {
      MembersExactly(results, color, n, e);
    }
  }

  function Ranks(s: seq<Entry>): (ranks: seq<int>)
    ensures |ranks| == |s| && forall i :: 0 <= i < |s| ==> ranks[i] == s[i].rank
  {
    if s == [] then [] else [s[0].rank] + Ranks(s[1..])
  }

  /** The ranks of the sorted entries are what is promised. */
  lemma {:induction false} SortedIsGroup(results: seq<int>, size: nat, color: int, sorted: seq<Entry>)
    requires Gathered(results, size) && Ordered(sorted)
    requires multiset(sorted) == multiset(Members(results, color, size))
    ensures IsGroup(results, size, color, Ranks(sorted))
  {
    var ranks := Ranks(sorted);
    MembersDistinct(results, color, size);
    DistinctOrdered(sorted);
    forall i | 0 <= i < |sorted|
      ensures 0 <= ranks[i] < size && sorted[i] == At(results, ranks[i]) && Color(results, ranks[i]) == color
    {
      assert sorted[i] in multiset(sorted);
      MembersExactly(results, color, size, sorted[i]);
    }
    forall r | 0 <= r < size && Color(results, r) == color
      ensures r in ranks
    {
      MembersExactly(results, color, size, At(results, r));
      assert At(results, r) in sorted;
      var i :| 0 <= i < |sorted| && sorted[i] == At(results, r);
      assert ranks[i] == r;
    }
    forall i, j | 0 <= i < j < |ranks|
      ensures Key(results, ranks[i]) < Key(results, ranks[j]) || (Key(results, ranks[i]) == Key(results, ranks[j]) && ranks[i] < ranks[j])
    {
      ComparesByKey(results, ranks[i], ranks[j]);
    }
  }

  /** The C library's qsort, called for more than one element. */
  method SortInPlace(a: array<Entry>, qsort: seq<Entry> -> seq<Entry>)
    requires Sorts(qsort)
    modifies a
    ensures Ordered(a[..]) && multiset(a[..]) == multiset(old(a[..]))
  {
    if a.Length > 1 {
      var s := qsort(a[..]);
      assert |s| == |multiset(s)| == |multiset(a[..])| == a.Length;
      forall i | 0 <= i < a.Length {
        a[i] := s[i];
      }
      assert a[..] == s;
    }
  }

  /** comm.c, lines 460 to 465 and 523 to 528. */
  method CountMembers(results: seq<int>, size: nat, color: int) returns (count: nat)
    requires Gathered(results, size)
    ensures count == |Members(results, color, size)|
  {
    count := 0;
    for i := 0 to size
      invariant count == |Members(results, color, i)|
    {
      if results[2 * i] == color {
        count := count + 1;
      }
    }
  }

  lemma {:induction false} MembersGrow(results: seq<int>, color: int, m: nat, n: nat)
    requires m <= n && 2 * n <= |results|
    ensures Members(results, color, m) <= Members(results, color, n)
    decreases n
  {
    if m < n {
      MembersGrow(results, color, m, n - 1);
    }
  }

  /** comm.c, lines 479 to 486 and 537 to 544. */
  method Fill(results: seq<int>, size: nat, color: int, sorted: array<Entry>)
    requires Gathered(results, size) && sorted.Length == |Members(results, color, size)|
    modifies sorted
    ensures sorted[..] == Members(results, color, size)
  {
    var loc := 0;
    for i := 0 to size
      invariant loc == |Members(results, color, i)| <= sorted.Length
      invariant sorted[..loc] == Members(results, color, i)
    {
      MembersGrow(results, color, i + 1, size);
      if results[2 * i] == color {
        sorted[loc] := Entry(i, results[2 * i + 1]);
        loc := loc + 1;
      }
    }
  }

  /** comm.c, lines 495 to 502 and 553 to 561. */
  method PutInList(sorted: array<Entry>) returns (ranks: array<int>)
    ensures fresh(ranks) && ranks[..] == Ranks(sorted[..])
  {
    ranks := new int[sorted.Length];
    for i := 0 to sorted.Length
      invariant forall j :: 0 <= j < i ==> ranks[j] == sorted[j].rank
    {
      ranks[i] := sorted[i].rank;
    }
  }

  /** The members of a color, counted as `count`, in the order of the new group: comm.c, lines 473 to 502
      for the local group and 531 to 562 for the remote one. */
  method GroupList(results: seq<int>, size: nat, color: int, count: nat, qsort: seq<Entry> -> seq<Entry>)
    returns (ranks: array<int>)
    requires Gathered(results, size) && Sorts(qsort) && count == |Members(results, color, size)|
    ensures fresh(ranks) && IsGroup(results, size, color, ranks[..])
  {
    var sorted := new Entry[count];
    Fill(results, size, color, sorted);
    SortInPlace(sorted, qsort);
    SortedIsGroup(results, size, color, sorted[..]);
    ranks := PutInList(sorted);
  }

  /** The ranks of the local and of the remote group of the new communicator, and whether this
      process is in it: steps 1 and 2 of ompi_comm_split after the gathering, and comm.c, lines 626 to 632. */
  method Split(results: seq<int>, size: nat, inter: bool, rresults: seq<int>, rsize: nat, color: int,
               qsort: seq<Entry> -> seq<Entry>)
    returns (status: Status, lranks: seq<int>, rranks: seq<int>, member: bool)
    requires Gathered(results, size) && Gathered(rresults, rsize) && Sorts(qsort)
    ensures status == BadParam <==> forall r :: 0 <= r < size ==> Color(results, r) != color
    ensures status == Success ==> IsGroup(results, size, color, lranks)
    ensures status == Success && inter ==> IsGroup(rresults, rsize, color, rranks)
    ensures status == Success && !inter ==> rranks == []
    ensures status == Success ==>
              (member <==> color != MPI_UNDEFINED
                           && (inter ==> exists r :: 0 <= r < rsize && Color(rresults, r) == color))
  {
    lranks, rranks, member := [], [], false;
    var mySize := CountMembers(results, size, color);
    NoMembers(results, color, size);
    if mySize == 0 {
      return BadParam, [], [], false;
    }
    var l := GroupList(results, size, color, mySize, qsort);
    lranks := l[..];
    var myRsize := 0;
    if inter {
      myRsize := CountMembers(rresults, rsize, color);
      NoMembers(rresults, color, rsize);
      if myRsize > 0 {
        var r := GroupList(rresults, rsize, color, myRsize, qsort);
        rranks := r[..];
      }
    }
    member := !(color == MPI_UNDEFINED || (inter && myRsize == 0));
    status := Success;
  }

  lemma {:induction false} NoMembers(results: seq<int>, color: int, n: nat)
    requires 2 * n <= |results|
    ensures Members(results, color, n) != [] <==> exists r :: 0 <= r < n && Color(results, r) == color
  {
    if n > 0 {
      NoMembers(results, color, n - 1);
      if exists r :: 0 <= r < n && Color(results, r) == color {
        var r :| 0 <= r < n && Color(results, r) == color;
        assert r == n - 1 || 0 <= r < n - 1;
      }
    }
  }
}
