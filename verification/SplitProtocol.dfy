/** Splitting an inter-communicator as a whole: the gathering within each group, and then
    ompi_comm_split at every process of both groups on what it has gathered. */
module SplitProtocol {
  import opened CommSplit
  import A = AllgatherEmulation

  /** What a process contributes. */
  datatype Info = Info(color: int, key: int)

  /** What a process arrives at. */
  datatype Outcome = Outcome(status: Status, lranks: seq<int>, rranks: seq<int>, member: bool)

  /** The gathered buffer: color and key of rank 0, of rank 1, and so on. */
  function Flat(xs: seq<Info>): (r: seq<int>)
    ensures |r| == 2 * |xs| && forall i :: 0 <= i < |xs| ==> r[2 * i] == xs[i].color && r[2 * i + 1] == xs[i].key
  {
    seq(2 * |xs|, k requires 0 <= k < 2 * |xs| => if k % 2 == 0 then xs[k / 2].color else xs[k / 2].key)
  }

  /** The lists of process `i` are the groups of its color on both sides. */
  ghost predicate Right(own: seq<Info>, other: seq<Info>, i: nat, x: Outcome)
    requires i < |own|
  {
    match x
    case Outcome(status, lranks, rranks, member) =>
    && status == Success
    && IsGroup(Flat(own), |own|, own[i].color, lranks) && IsGroup(Flat(other), |other|, own[i].color, rranks)
    && (member <==> own[i].color != MPI_UNDEFINED && exists r :: 0 <= r < |other| && other[r].color == own[i].color)
  }

  ghost predicate AllRight(own: seq<Info>, other: seq<Info>, xs: seq<Outcome>) {
    |xs| <= |own| && forall i :: 0 <= i < |xs| ==> Right(own, other, i, xs[i])
  }

  lemma {:induction false} OneMoreRight(own: seq<Info>, other: seq<Info>, xs: seq<Outcome>, x: Outcome)
    requires |xs| < |own| && AllRight(own, other, xs) && Right(own, other, |xs|, x)
    ensures AllRight(own, other, xs + [x])
  {
  }

  /** The processes of one group, each with what it has gathered and a qsort of its own. */
  method SplitGroup(gathered: seq<seq<Info>>, own: seq<Info>, other: seq<Info>, qsorts: seq<seq<Entry> -> seq<Entry>>)
    returns (outcomes: seq<Outcome>)
    requires |gathered| == |own| == |qsorts| && forall i :: 0 <= i < |own| ==> gathered[i] == own && Sorts(qsorts[i])
    ensures |outcomes| == |own| && AllRight(own, other, outcomes)
  {
    outcomes := [];
    for i := 0 to |own|
      invariant |outcomes| == i && AllRight(own, other, outcomes)
    {
      var x := SplitOne(gathered[i], own, other, i, qsorts[i]);
      OneMoreRight(own, other, outcomes, x);
      outcomes := outcomes + [x];
    }
  }

  /** Process `i`, on what it has gathered in its own group; the allgather of the inter-communicator
      gives it what the other group contributes. */
  method SplitOne(gathered: seq<Info>, own: seq<Info>, other: seq<Info>, i: nat, qsort: seq<Entry> -> seq<Entry>)
    returns (x: Outcome)
    requires i < |own| && gathered == own && Sorts(qsort)
    ensures Right(own, other, i, x)
  {
    var color := own[i].color;
    assert Color(Flat(own), i) == color;
    var status, lranks, rranks, member := Split(Flat(gathered), |own|, true, Flat(other), |other|, color, qsort);
    ColorsOf(other, color);
    x := Outcome(status, lranks, rranks, member);
  }

  lemma {:induction false} ColorsOf(xs: seq<Info>, color: int)
    ensures (exists r :: 0 <= r < |xs| && Color(Flat(xs), r) == color) <==> exists r :: 0 <= r < |xs| && xs[r].color == color
  {
    assert forall r :: 0 <= r < |xs| ==> Color(Flat(xs), r) == xs[r].color;
  }

  /** MPI's promise for the whole: no process fails, processes of one color have one pair of lists,
      which those of the other group see the other way round, lists of different colors have no rank
      in common, and every process is in its own list. */
  ghost predicate Agreed(own: seq<Info>, other: seq<Info>, mine: seq<Outcome>, theirs: seq<Outcome>)
    requires |mine| == |own| && |theirs| == |other|
  {
    && (forall i :: 0 <= i < |own| ==> mine[i].status == Success && i in mine[i].lranks)
    && (forall i, j :: 0 <= i < j < |own| && own[i].color == own[j].color ==> mine[i] == mine[j])
    && (forall i, j :: 0 <= i < j < |own| && own[i].color != own[j].color ==> forall r :: r in mine[i].lranks ==> r !in mine[j].lranks)
    && forall i, j :: 0 <= i < |own| && 0 <= j < |other| && own[i].color == other[j].color ==>
         mine[i].lranks == theirs[j].rranks && mine[i].rranks == theirs[j].lranks && mine[i].member == theirs[j].member
  }

  lemma {:induction false} RightAgree(own: seq<Info>, other: seq<Info>, mine: seq<Outcome>, theirs: seq<Outcome>)
    requires |mine| == |own| && |theirs| == |other|
    requires AllRight(own, other, mine) && AllRight(other, own, theirs)
    ensures Agreed(own, other, mine, theirs)
  {
    var (a, b) := (Flat(own), Flat(other));
    forall i, j | 0 <= i < j < |own|
      ensures own[i].color == own[j].color ==> mine[i] == mine[j]
      ensures own[i].color != own[j].color ==> forall r :: r in mine[i].lranks ==> r !in mine[j].lranks
    {
      assert Right(own, other, i, mine[i]) && Right(own, other, j, mine[j]);
      if own[i].color == own[j].color {
        OneGroup(a, |own|, own[i].color, mine[i].lranks, mine[j].lranks);
        OneGroup(b, |other|, own[i].color, mine[i].rranks, mine[j].rranks);
      }
    }
    forall i, j | 0 <= i < |own| && 0 <= j < |other| && own[i].color == other[j].color
      ensures mine[i].lranks == theirs[j].rranks && mine[i].rranks == theirs[j].lranks && mine[i].member == theirs[j].member
    {
      assert Right(own, other, i, mine[i]) && Right(other, own, j, theirs[j]);
      OneGroup(a, |own|, own[i].color, mine[i].lranks, theirs[j].rranks);
      OneGroup(b, |other|, own[i].color, mine[i].rranks, theirs[j].lranks);
    }
    forall i | 0 <= i < |own|
      ensures mine[i].status == Success && i in mine[i].lranks
    {
      assert Right(own, other, i, mine[i]) && Color(a, i) == own[i].color;
    }
  }

  /** What the processes of one group hold when the gathering is over. */
  function Results(out: seq<A.Option<seq<Info>>>): (r: seq<seq<Info>>)
    requires forall i :: 0 <= i < |out| ==> out[i].Some?
    ensures |r| == |out| && forall i :: 0 <= i < |out| ==> r[i] == out[i].value
  {
    seq(|out|, i requires 0 <= i < |out| => out[i].value)
  }

  /** The whole protocol, for any run of the gathering that cannot go on. */
  method SplitBoth(a: seq<Info>, b: seq<Info>, states: seq<A.State<Info>>, moves: seq<A.Move>,
                   qsortsA: seq<seq<Entry> -> seq<Entry>>, qsortsB: seq<seq<Entry> -> seq<Entry>>)
    returns (sideA: seq<Outcome>, sideB: seq<Outcome>)
    requires a != [] && b != [] && A.Run(states, moves) && states[0] == A.Initial(a, b)
    requires forall v :: !A.Possible(states[|moves|], v)
    requires |qsortsA| == |a| && |qsortsB| == |b|
    requires (forall i :: 0 <= i < |a| ==> Sorts(qsortsA[i])) && forall i :: 0 <= i < |b| ==> Sorts(qsortsB[i])
    ensures |sideA| == |a| && |sideB| == |b|
    ensures Agreed(a, b, sideA, sideB) && Agreed(b, a, sideB, sideA)
    ensures AllRight(a, b, sideA) && AllRight(b, a, sideB)
  {
    A.EveryRunGathers(a, b, states, moves);
    var s := states[|moves|];
    sideA := SplitGroup(Results(s.a.out), a, b, qsortsA);
    sideB := SplitGroup(Results(s.b.out), b, a, qsortsB);
    RightAgree(a, b, sideA, sideB);
    RightAgree(b, a, sideB, sideA);
  }
}
