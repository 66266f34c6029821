/** The allgather within each group of an inter-communicator, built from messages to and from the
    other group: everybody sends to the other group's rank 0, which sends all of it back. */
module AllgatherEmulation {

  datatype Option<T> = None | Some(value: T)

  /** Where a process is: its contribution not sent yet, sent, the receive of the result posted
      after its contribution was received, finished. */
  datatype Phase = Begin | Sent | Waiting | Done

  /** One of the two groups. `input` are the contributions by rank and `out` the results; `posted`,
      `tmp` and `cast` belong to rank 0: whether its receives are posted, what they have received
      from the other group, and to how many of the other group it has sent that. */
  datatype Group<T> = Group(input: seq<T>, phase: seq<Phase>, out: seq<Option<seq<T>>>,
                            posted: bool, tmp: seq<Option<T>>, cast: nat)

  datatype Action =
    | Post                // comm.c, lines 1365 to 1371, at rank 0
    | Send(i: nat)        // the isend of rank i
    | Gather(i: nat)      // the contribution of rank i reaches the other group's rank 0
    | Advance(i: nat)     // rank i's waits are over, and it posts the receive of the result
    | Cast                // rank 0's next send is received
    | Finish(i: nat)      // rank i has its result

  /** One step of a process of `m`; `o` is the other group. Sends need not complete before they are
      received: nothing is buffered. */
  ghost predicate Enabled<T>(m: Group<T>, o: Group<T>, a: Action) {
    match a
    case Post => !m.posted
    case Send(i) => i < |m.phase| && m.phase[i].Begin? && (i == 0 ==> m.posted)
    case Gather(i) =>
      i < |m.phase| && i < |m.input| && i < |o.tmp| && !m.phase[i].Begin? && o.posted && o.tmp[i].None?
    case Advance(i) =>
      i < |m.phase| && i < |o.tmp| && m.phase[i].Sent? && o.tmp[i].Some? && (i == 0 ==> AllReceived(m.tmp))
    case Cast =>
      && m.phase != [] && m.phase[0].Waiting? && AllReceived(m.tmp)
      && m.cast < |o.phase| && m.cast < |o.out| && o.phase[m.cast].Waiting? && o.out[m.cast].None?
    case Finish(i) =>
      i < |m.phase| && i < |m.out| && m.phase[i].Waiting? && m.out[i].Some? && (i == 0 ==> m.cast == |o.phase|)
  }

  ghost predicate AllReceived<T>(tmp: seq<Option<T>>) {
    forall i :: 0 <= i < |tmp| ==> tmp[i].Some?
  }

  function Values<T>(tmp: seq<Option<T>>): seq<T>
    requires forall i :: 0 <= i < |tmp| ==> tmp[i].Some?
  {
    if tmp == [] then [] else [tmp[0].value] + Values(tmp[1..])
  }

  ghost function Step<T>(m: Group<T>, o: Group<T>, a: Action): (Group<T>, Group<T>)
    requires Enabled(m, o, a)
  {
    match a
    case Post => (m.(posted := true), o)
    case Send(i) => (m.(phase := m.phase[i := Phase.Sent]), o)
    case Gather(i) => (m, o.(tmp := o.tmp[i := Some(m.input[i])]))
    case Advance(i) => (m.(phase := m.phase[i := Waiting]), o)
    case Cast => (m.(cast := m.cast + 1), o.(out := o.out[m.cast := Some(Values(m.tmp))]))
    case Finish(i) => (m.(phase := m.phase[i := Done]), o)
  }

  /** Both groups; `first` in a move says which of them takes the step. */
  datatype State<T> = State(a: Group<T>, b: Group<T>)

  datatype Move = Move(first: bool, action: Action)

  ghost predicate Possible<T>(s: State<T>, v: Move) {
    if v.first then Enabled(s.a, s.b, v.action) else Enabled(s.b, s.a, v.action)
  }

  ghost function After<T>(s: State<T>, v: Move): State<T>
    requires Possible(s, v)
  {
    if v.first then
      var (a, b) := Step(s.a, s.b, v.action);
      State(a, b)
    else
      var (b, a) := Step(s.b, s.a, v.action);
      State(a, b)
  }

  // ---------------------------------------------------------------------------
  // The invariant
  // ---------------------------------------------------------------------------

  ghost predicate Shape<T>(m: Group<T>, o: Group<T>) {
    |m.phase| == |m.input| == |m.out| == |o.tmp| && |m.phase| > 0 && m.cast <= |o.phase|
  }

  /** The contributions that the other group's rank 0 has are right, and who goes on was received. */
  ghost predicate Gathered<T>(m: Group<T>, o: Group<T>)
    requires Shape(m, o)
  {
    forall i :: 0 <= i < |m.phase| ==>
      && (o.tmp[i].Some? ==> !m.phase[i].Begin? && o.posted && o.tmp[i].value == m.input[i])
      && (m.phase[i].Waiting? || m.phase[i].Done? ==> o.tmp[i].Some?)
  }

  /** Rank 0 of `m` sends once it has received everything, in rank order, and its receivers get
      what their own group contributed. */
  ghost predicate Casting<T>(m: Group<T>, o: Group<T>)
    requires Shape(m, o) && Shape(o, m)
  {
    && (m.phase[0].Waiting? || m.phase[0].Done? ==> AllReceived(m.tmp))
    && (m.cast > 0 ==> m.phase[0].Waiting? || m.phase[0].Done?)
    && (m.phase[0].Done? ==> m.cast == |o.phase|)
    && (forall j :: 0 <= j < |o.phase| ==> (o.out[j].Some? <==> j < m.cast))
    && (forall j :: 0 <= j < |o.phase| && o.out[j].Some? ==> o.out[j].value == o.input)
    && (forall j :: 0 <= j < |o.phase| && o.phase[j].Done? ==> o.out[j].Some?)
  }

  ghost predicate Half<T>(m: Group<T>, o: Group<T>) {
    Shape(m, o) && Shape(o, m) && Gathered(m, o) && Casting(m, o)
  }

  ghost predicate Inv<T>(s: State<T>) {
    Half(s.a, s.b) && Half(s.b, s.a)
  }

  function Nones<T>(n: nat): (s: seq<Option<T>>)
    ensures |s| == n && forall i :: 0 <= i < n ==> s[i].None?
  {
    if n == 0 then [] else [None] + Nones(n - 1)
  }

  function Begins(n: nat): (s: seq<Phase>)
    ensures |s| == n && forall i :: 0 <= i < n ==> s[i].Begin?
  {
    if n == 0 then [] else [Begin] + Begins(n - 1)
  }

  function Fresh<T>(input: seq<T>, remote: nat): Group<T> {
    Group(input, Begins(|input|), Nones(|input|), false, Nones(remote), 0)
  }

  function Initial<T>(a: seq<T>, b: seq<T>): State<T> {
    State(Fresh(a, |b|), Fresh(b, |a|))
  }

  lemma {:induction false} InitialInv<T>(a: seq<T>, b: seq<T>)
    requires a != [] && b != []
    ensures Inv(Initial(a, b))
  {
  }

  lemma {:induction false} ValuesAre<T>(tmp: seq<Option<T>>, input: seq<T>)
    requires |tmp| == |input| && forall i :: 0 <= i < |tmp| ==> tmp[i] == Some(input[i])
    ensures Values(tmp) == input
  {
    if tmp != [] {
      ValuesAre(tmp[1..], input[1..]);
      assert input == [input[0]] + input[1..];
    }
  }

  /** What rank 0 sends is what the receivers' group contributed. */
  lemma {:induction false} CastValue<T>(m: Group<T>, o: Group<T>)
    requires Half(o, m) && AllReceived(m.tmp)
    ensures Values(m.tmp) == o.input
  {
    ValuesAre(m.tmp, o.input);
  }

  lemma {:induction false} StepKeeps<T>(m: Group<T>, o: Group<T>, a: Action)
    requires Half(m, o) && Half(o, m) && Enabled(m, o, a)
    ensures var (m2, o2) := Step(m, o, a); Half(m2, o2) && Half(o2, m2)
  {
    if a.Cast? {
      CastValue(m, o);
    }
  }

  lemma {:induction false} MoveKeepsInv<T>(s: State<T>, v: Move)
    requires Inv(s) && Possible(s, v)
    ensures Inv(After(s, v))
  {
    if v.first {
      StepKeeps(s.a, s.b, v.action);
    } else {
      StepKeeps(s.b, s.a, v.action);
    }
  }

  /** The two messages from rank 0 to rank 0 cannot be taken for each other: the second one is sent,
      and received for, only when the first has arrived. */
  lemma {:induction false} ContributionComesFirst<T>(s: State<T>)
    requires Inv(s)
    ensures !s.a.phase[0].Begin? && !s.a.phase[0].Sent? ==> s.b.tmp[0].Some? && s.a.tmp[0].Some?
    ensures !s.b.phase[0].Begin? && !s.b.phase[0].Sent? ==> s.a.tmp[0].Some? && s.b.tmp[0].Some?
  {
  }

  // ---------------------------------------------------------------------------
  // Progress
  // ---------------------------------------------------------------------------

  ghost predicate AllDone<T>(s: State<T>) {
    && (forall i :: 0 <= i < |s.a.phase| ==> s.a.phase[i].Done?)
    && (forall i :: 0 <= i < |s.b.phase| ==> s.b.phase[i].Done?)
  }

  ghost predicate OnlyLate<T>(m: Group<T>, o: Group<T>) {
    forall a :: Enabled(m, o, a) ==> a.Cast? || a.Finish?
  }

  /** Nothing but casting and finishing is left: everybody has posted the receive of the result. */
  lemma {:induction false} SendersWait<T>(m: Group<T>, o: Group<T>, i: nat)
    requires Half(m, o) && Half(o, m) && OnlyLate(m, o) && OnlyLate(o, m) && i < |m.phase|
    ensures !m.phase[i].Begin? && o.tmp[i].Some?
  {
    assert !Enabled(m, o, Post) && !Enabled(o, m, Post);
    assert !Enabled(m, o, Action.Send(i)) && !Enabled(m, o, Gather(i));
  }

  lemma {:induction false} EveryoneWaits<T>(m: Group<T>, o: Group<T>)
    requires Half(m, o) && Half(o, m) && OnlyLate(m, o) && OnlyLate(o, m)
    ensures forall i :: 0 <= i < |m.phase| ==> m.phase[i].Waiting? || m.phase[i].Done?
  {
    forall j | 0 <= j < |o.phase|
      ensures m.tmp[j].Some?
    {
      SendersWait(o, m, j);
    }
    forall i | 0 <= i < |m.phase|
      ensures m.phase[i].Waiting? || m.phase[i].Done?
    {
      SendersWait(m, o, i);
      assert !Enabled(m, o, Advance(i));
    }
  }

  /** Then rank 0 can cast until the other group has its results. */
  lemma {:induction false} CastsAll<T>(m: Group<T>, o: Group<T>)
    requires Half(m, o) && Half(o, m) && forall i :: 0 <= i < |m.phase| ==> m.phase[i].Waiting? || m.phase[i].Done?
    requires forall i :: 0 <= i < |o.phase| ==> o.phase[i].Waiting? || o.phase[i].Done?
    ensures Enabled(m, o, Cast) || m.cast == |o.phase|
  {
  }

  /** As long as some process has not got its result, some step can be taken. */
  lemma {:induction false} NeverStuck<T>(s: State<T>)
    requires Inv(s) && !AllDone(s)
    ensures exists v :: Possible(s, v)
  {
    if !OnlyLate(s.a, s.b) {
      var a :| Enabled(s.a, s.b, a);
      assert Possible(s, Move(true, a));
    } else if !OnlyLate(s.b, s.a) {
      var a :| Enabled(s.b, s.a, a);
      assert Possible(s, Move(false, a));
    } else {
      LateStep(s);
    }
  }

  lemma {:induction false} LateStep<T>(s: State<T>)
    requires Inv(s) && !AllDone(s) && OnlyLate(s.a, s.b) && OnlyLate(s.b, s.a)
    ensures exists v :: Possible(s, v)
  {
    EveryoneWaits(s.a, s.b);
    EveryoneWaits(s.b, s.a);
    CastsAll(s.a, s.b);
    CastsAll(s.b, s.a);
    if Enabled(s.a, s.b, Cast) {
      assert Possible(s, Move(true, Cast));
    } else if Enabled(s.b, s.a, Cast) {
      assert Possible(s, Move(false, Cast));
    } else if i :| 0 <= i < |s.a.phase| && !s.a.phase[i].Done? {
      assert Possible(s, Move(true, Finish(i)));
    } else {
      var i :| 0 <= i < |s.b.phase| && !s.b.phase[i].Done?;
      assert Possible(s, Move(false, Finish(i)));
    }
  }

  /** How many steps a process still has to take. */
  function PhaseLeft(p: Phase): nat {
    match p
    case Begin => 3
    case Sent => 2
    case Waiting => 1
    case Done => 0
  }

  function PhasesLeft(phase: seq<Phase>): nat {
    if phase == [] then 0 else PhaseLeft(phase[0]) + PhasesLeft(phase[1..])
  }

  function Missing<T>(tmp: seq<Option<T>>): nat {
    if tmp == [] then 0 else (if tmp[0].None? then 1 else 0) + Missing(tmp[1..])
  }

  lemma {:induction false} PhaseTaken(phase: seq<Phase>, i: nat, p: Phase)
    requires i < |phase|
    ensures PhasesLeft(phase[i := p]) == PhasesLeft(phase) - PhaseLeft(phase[i]) + PhaseLeft(p)
  {
    if i > 0 {
      PhaseTaken(phase[1..], i - 1, p);
      assert phase[i := p][1..] == phase[1..][i - 1 := p];
    } else {
      assert phase[i := p][1..] == phase[1..];
    }
  }

  lemma {:induction false} SlotFilled<T>(tmp: seq<Option<T>>, i: nat, x: T)
    requires i < |tmp| && tmp[i].None?
    ensures Missing(tmp[i := Some(x)]) == Missing(tmp) - 1
  {
    if i > 0 {
      SlotFilled(tmp[1..], i - 1, x);
      assert tmp[i := Some(x)][1..] == tmp[1..][i - 1 := Some(x)];
    } else {
      assert tmp[i := Some(x)][1..] == tmp[1..];
    }
  }

  function GroupLeft<T>(m: Group<T>): int {
    (if m.posted then 0 else 1) + PhasesLeft(m.phase) + Missing(m.tmp) + (|m.tmp| - m.cast)
  }

  function Left<T>(s: State<T>): int {
    GroupLeft(s.a) + GroupLeft(s.b)
  }

  lemma {:induction false} StepCounts<T>(m: Group<T>, o: Group<T>, a: Action)
    requires Enabled(m, o, a)
    ensures var (m2, o2) := Step(m, o, a); GroupLeft(m2) + GroupLeft(o2) == GroupLeft(m) + GroupLeft(o) - 1
  {
    match a
    case Post =>
    case Send(i) => PhaseTaken(m.phase, i, Phase.Sent);
    case Gather(i) => SlotFilled(o.tmp, i, m.input[i]);
    case Advance(i) => PhaseTaken(m.phase, i, Waiting);
    case Cast =>
    case Finish(i) => PhaseTaken(m.phase, i, Done);
  }

  lemma {:induction false} MoveCounts<T>(s: State<T>, v: Move)
    requires Possible(s, v)
    ensures Left(After(s, v)) == Left(s) - 1
    ensures After(s, v).a.input == s.a.input && After(s, v).b.input == s.b.input
  {
    if v.first {
      StepCounts(s.a, s.b, v.action);
    } else {
      StepCounts(s.b, s.a, v.action);
    }
  }

  /** A run of steps. */
  ghost predicate Run<T>(states: seq<State<T>>, moves: seq<Move>) {
    && |states| == |moves| + 1
    && forall k :: 0 <= k < |moves| ==> Possible(states[k], moves[k]) && states[k + 1] == After(states[k], moves[k])
  }

  lemma {:induction false} RunInv<T>(a: seq<T>, b: seq<T>, states: seq<State<T>>, moves: seq<Move>, k: nat)
    requires a != [] && b != [] && Run(states, moves) && states[0] == Initial(a, b) && k < |states|
    ensures Inv(states[k]) && Left(states[k]) == Left(Initial(a, b)) - k
    ensures states[k].a.input == a && states[k].b.input == b
  {
    if k == 0 {
      InitialInv(a, b);
    } else {
      RunInv(a, b, states, moves, k - 1);
      var (s, v) := (states[k - 1], moves[k - 1]);
      assert states[k - 1 + 1] == After(s, v);
      MoveKeepsInv(s, v);
      MoveCounts(s, v);
    }
  }

  lemma {:induction false} InitialLeft<T>(a: seq<T>, b: seq<T>)
    ensures Left(Initial(a, b)) == 2 + 5 * |a| + 5 * |b|
  {
    BeginsLeft(|a|);
    BeginsLeft(|b|);
    NonesMissing<T>(|a|);
    NonesMissing<T>(|b|);
  }

  lemma {:induction false} BeginsLeft(n: nat)
    ensures PhasesLeft(Begins(n)) == 3 * n
  {
    if n > 0 {
      BeginsLeft(n - 1);
      assert Begins(n)[1..] == Begins(n - 1);
    }
  }

  lemma {:induction false} NonesMissing<T>(n: nat)
    ensures Missing<T>(Nones(n)) == n
  {
    if n > 0 {
      NonesMissing<T>(n - 1);
      assert Nones<T>(n)[1..] == Nones(n - 1);
    }
  }

  lemma {:induction false} LeftIsLeft<T>(m: Group<T>, o: Group<T>)
    requires Half(m, o) && Half(o, m)
    ensures GroupLeft(m) >= 0
  {
  }

  /** Every run is short, can go on until all are done, and when a process is done it has the
      contributions of its own group in rank order. */
  lemma {:induction false} EveryRunGathers<T>(a: seq<T>, b: seq<T>, states: seq<State<T>>, moves: seq<Move>)
    requires a != [] && b != [] && Run(states, moves) && states[0] == Initial(a, b)
    ensures |moves| <= 2 + 5 * |a| + 5 * |b|
    ensures var s := states[|moves|];
            && (AllDone(s) || exists v :: Possible(s, v))
            && |s.a.phase| == |s.a.out| == |a| && |s.b.phase| == |s.b.out| == |b|
            && (forall i :: 0 <= i < |a| && s.a.phase[i].Done? ==> s.a.out[i] == Some(a))
            && forall i :: 0 <= i < |b| && s.b.phase[i].Done? ==> s.b.out[i] == Some(b)
  {
    var s := states[|moves|];
    RunInv(a, b, states, moves, |moves|);
    InitialLeft(a, b);
    LeftIsLeft(s.a, s.b);
    LeftIsLeft(s.b, s.a);
    if !AllDone(s) {
      NeverStuck(s);
    }
  }
}
