/** Connection establishment between two processes that may connect to each other at the same
    time: the decision functions of one endpoint, the same code in place, and the system of two
    endpoints and all sockets ever opened between them. */
module TcpConnect {

  datatype State = Closed | Connecting | ConnectAck | Connected

  /** endpoint_state and endpoint_sd (-1 is None). */
  datatype Ep = Ep(state: State, sd: Option<nat>)
  datatype Option<T> = None | Some(value: T)

  const IDLE := Ep(Closed, None)

  /** mca_btl_tcp2_endpoint_close */
  function AfterClose(e: Ep): Ep {
    if e.sd.None? then e else IDLE
  }

  /** The condition of btl_tcp2_endpoint.c, lines 357 to 359: `peerIsLess` is cmpval < 0. */
  predicate Takes(e: Ep, peerIsLess: bool) {
    e.sd.None? || (e.state != Connected && peerIsLess)
  }

  function AfterAccept(e: Ep, peerIsLess: bool, sd: nat): Ep {
    if Takes(e, peerIsLess) then Ep(Connected, Some(sd)) else e
  }

  function AfterStart(sd: nat, immediate: bool): Ep {
    Ep(if immediate then ConnectAck else Connecting, Some(sd))
  }

  /** recv_connect_ack: the peer's name arrived, or the peer hung up. */
  function AfterAck(e: Ep, answered: bool): Ep {
    if answered then e.(state := Connected) else AfterClose(e)
  }

  class Endpoint {
    var state: State
    var sd: Option<nat>

    constructor ()
      ensures View() == IDLE
    {
      state, sd := Closed, None;
    }

    function View(): Ep
      reads this
    {
      Ep(state, sd)
    }

    /** Returns the socket it closed, if any. */
    method Close() returns (closed: Option<nat>)
      modifies this
      ensures View() == AfterClose(old(View())) && closed == old(sd)
    {
      closed := sd;
      if sd.None? {
        return;
      }
      state := Closed;
      sd := None;
    }

    method Accept(socket: nat, peerName: int, myName: int) returns (ok: bool, closed: Option<nat>)
      modifies this
      ensures ok == Takes(old(View()), peerName < myName)
      ensures View() == AfterAccept(old(View()), peerName < myName, socket)
      ensures closed == if ok then old(sd) else None
    {
      var cmpval := if peerName < myName then -1 else if peerName > myName then 1 else 0;
      if sd.None? || (state != Connected && cmpval < 0) {
        closed := Close();
        sd := Some(socket);
        state := Connected;
        return true, closed;
      }
      return false, None;
    }

    method StartConnect(socket: nat, inProgress: bool)
      modifies this
      ensures View() == AfterStart(socket, !inProgress)
    {
      sd := Some(socket);
      if inProgress {
        state := Connecting;
        return;
      }
      state := ConnectAck;
    }

    method RecvConnectAck(answered: bool)
      requires sd.Some?
      modifies this
      ensures View() == AfterAck(old(View()), answered)
    {
      if !answered {
        var _ := Close();
        return;
      }
      state := Connected;
    }
  }

  // ---------------------------------------------------------------------------
  // Two processes
  // ---------------------------------------------------------------------------

  type Side = x: int | 0 <= x < 2

  function Other(p: Side): Side {
    1 - p
  }

  /** A socket waits in the acceptor's backlog, then is taken or refused. */
  datatype Stage = Queued | Taken | Refused

  /** `greeted`: the opener's name is on the socket. The acceptor's answer is there exactly
      when it took the socket. */
  datatype Sock = Sock(opener: Side, greeted: bool, stage: Stage)

  datatype World = World(eps: seq<Ep>, socks: seq<Sock>)

  /** The two processes have different names. */
  predicate Names(names: seq<int>) {
    |names| == 2 && names[0] != names[1]
  }

  predicate PeerIsLess(names: seq<int>, p: Side)
    requires Names(names)
  {
    names[Other(p)] < names[p]
  }

  function Smaller(names: seq<int>): Side
    requires Names(names)
  {
    if names[0] < names[1] then 0 else 1
  }

  const START := World([IDLE, IDLE], [])

  predicate Shaped(w: World) {
    && |w.eps| == 2
    && forall p: Side :: w.eps[p].sd.Some? ==> w.eps[p].sd.value < |w.socks|
  }

  predicate Holds(w: World, p: Side, s: nat)
    requires |w.eps| == 2
  {
    w.eps[p].sd == Some(s)
  }

  datatype Step =
    | Start(p: Side, immediate: bool)
    | Finish(p: Side)
    | Accept(p: Side, s: nat)
    | Discard(p: Side, s: nat)
    | Ack(p: Side)
    | Hangup(p: Side)

  /** Start and Finish are start_connect and complete_connect, Accept and Discard the
      acceptor's handler for a fresh socket, Ack the CONNECT_ACK branch of the receive handler,
      Hangup a read that finds the peer's end closed. */
  predicate Enabled(w: World, step: Step)
    requires Shaped(w)
  {
    match step
    case Start(p, _) => w.eps[p].state == Closed
    case Finish(p) => w.eps[p].state == Connecting && w.eps[p].sd.Some?
    case Accept(p, s) =>
      s < |w.socks| && w.socks[s].opener == Other(p) && w.socks[s].greeted && w.socks[s].stage == Queued
    case Discard(p, s) =>
      && s < |w.socks| && w.socks[s].opener == Other(p) && !w.socks[s].greeted && w.socks[s].stage == Queued
      && !Holds(w, Other(p), s)
    case Ack(p) =>
      w.eps[p].state == ConnectAck && w.eps[p].sd.Some? && w.socks[w.eps[p].sd.value].stage != Queued
    case Hangup(p) =>
      && w.eps[p].state == Connected && w.eps[p].sd.Some? && !Holds(w, Other(p), w.eps[p].sd.value)
  }

  function Apply(names: seq<int>, w: World, step: Step): World
    requires Names(names) && Shaped(w) && Enabled(w, step)
  {
    match step
    case Start(p, immediate) =>
      World(w.eps[p := AfterStart(|w.socks|, immediate)], w.socks + [Sock(p, immediate, Queued)])
    case Finish(p) =>
      var s := w.eps[p].sd.value;
      World(w.eps[p := w.eps[p].(state := ConnectAck)], w.socks[s := w.socks[s].(greeted := true)])
    case Accept(p, s) =>
      var stage := if Takes(w.eps[p], PeerIsLess(names, p)) then Taken else Refused;
      World(w.eps[p := AfterAccept(w.eps[p], PeerIsLess(names, p), s)], w.socks[s := w.socks[s].(stage := stage)])
    case Discard(p, s) =>
      w.(socks := w.socks[s := w.socks[s].(stage := Refused)])
    case Ack(p) =>
      w.(eps := w.eps[p := AfterAck(w.eps[p], w.socks[w.eps[p].sd.value].stage == Taken)])
    case Hangup(p) =>
      w.(eps := w.eps[p := AfterClose(w.eps[p])])
  }

  // ---------------------------------------------------------------------------
  // What every reachable state satisfies
  // ---------------------------------------------------------------------------

  /** An endpoint's state fits the socket it holds. */
  predicate EpOk(w: World, p: Side)
    requires Shaped(w)
  {
    var e := w.eps[p];
    if e.sd.None? then e.state == Closed
    else
      var s := w.socks[e.sd.value];
      match e.state
      case Closed => false
      case Connecting => s.opener == p && !s.greeted && s.stage == Queued
      case ConnectAck => s.opener == p && s.greeted
      case Connected => s.stage == Taken
  }

  /** Socket `s`, with `a` the smaller name. The smaller side never lets go of a socket it
      opened and is never refused; a socket that was taken is held by both; and when the larger
      side dropped a socket that may still be accepted, it did so for one the smaller opened. */
  predicate SockOk(w: World, a: Side, s: nat)
    requires Shaped(w) && s < |w.socks|
  {
    var b := Other(a);
    var k := w.socks[s];
    && (k.stage == Taken ==> k.greeted && Holds(w, a, s) && Holds(w, b, s))
    && (k.opener == a ==> Holds(w, a, s) && k.stage != Refused)
    && (k.opener == b && k.stage == Queued && !Holds(w, b, s) ==>
          w.eps[b].sd.Some? && w.socks[w.eps[b].sd.value].opener == a)
    && (k.opener == b && k.stage == Refused && Holds(w, b, s) ==> w.eps[a].sd.Some?)
  }

  predicate Inv(w: World, a: Side) {
    && Shaped(w)
    && (forall p: Side :: EpOk(w, p))
    && (forall s :: 0 <= s < |w.socks| ==> SockOk(w, a, s))
  }

  /** What is known of the sockets the two endpoints hold and of the one a step is about. */
  lemma Instances(w: World, a: Side, s: nat)
    requires Inv(w, a)
    ensures EpOk(w, 0) && EpOk(w, 1)
    ensures s < |w.socks| ==> SockOk(w, a, s)
    ensures w.eps[0].sd.Some? ==> SockOk(w, a, w.eps[0].sd.value)
    ensures w.eps[1].sd.Some? ==> SockOk(w, a, w.eps[1].sd.value)
  {
  }

  lemma AcceptStep(names: seq<int>, w: World, p: Side, s: nat)
    requires Names(names) && Inv(w, Smaller(names)) && Enabled(w, Accept(p, s))
    ensures Inv(Apply(names, w, Accept(p, s)), Smaller(names))
  {
    var a := Smaller(names);
    var after := Apply(names, w, Accept(p, s));
    Instances(w, a, s);
    assert EpOk(after, p) && EpOk(after, Other(p));
    forall t | 0 <= t < |after.socks|
      ensures SockOk(after, a, t)
    {
      Instances(w, a, t);
    }
  }

  lemma StartStep(names: seq<int>, w: World, p: Side, immediate: bool)
    requires Names(names) && Inv(w, Smaller(names)) && Enabled(w, Start(p, immediate))
    ensures Inv(Apply(names, w, Start(p, immediate)), Smaller(names))
  {
    var a := Smaller(names);
    var after := Apply(names, w, Start(p, immediate));
    Instances(w, a, 0);
    assert EpOk(after, p) && EpOk(after, Other(p));
    forall t | 0 <= t < |after.socks|
      ensures SockOk(after, a, t)
    {
      Instances(w, a, t);
    }
  }

  lemma FinishStep(names: seq<int>, w: World, p: Side)
    requires Names(names) && Inv(w, Smaller(names)) && Enabled(w, Finish(p))
    ensures Inv(Apply(names, w, Finish(p)), Smaller(names))
  {
    var a := Smaller(names);
    var after := Apply(names, w, Finish(p));
    Instances(w, a, w.eps[p].sd.value);
    assert EpOk(after, p) && EpOk(after, Other(p));
    forall t | 0 <= t < |after.socks|
      ensures SockOk(after, a, t)
    {
      Instances(w, a, t);
    }
  }

  lemma DiscardStep(names: seq<int>, w: World, p: Side, s: nat)
    requires Names(names) && Inv(w, Smaller(names)) && Enabled(w, Discard(p, s))
    ensures Inv(Apply(names, w, Discard(p, s)), Smaller(names))
  {
    var a := Smaller(names);
    var after := Apply(names, w, Discard(p, s));
    Instances(w, a, s);
    assert EpOk(after, p) && EpOk(after, Other(p));
    forall t | 0 <= t < |after.socks|
      ensures SockOk(after, a, t)
    {
      Instances(w, a, t);
    }
  }

  lemma AckStep(names: seq<int>, w: World, p: Side)
    requires Names(names) && Inv(w, Smaller(names)) && Enabled(w, Ack(p))
    ensures Inv(Apply(names, w, Ack(p)), Smaller(names))
  {
    var a := Smaller(names);
    var after := Apply(names, w, Ack(p));
    Instances(w, a, w.eps[p].sd.value);
    assert EpOk(after, p) && EpOk(after, Other(p));
    forall t | 0 <= t < |after.socks|
      ensures SockOk(after, a, t)
    {
      Instances(w, a, t);
    }
  }

  /** A connected endpoint never finds the peer's end closed. */
  lemma NoHangup(w: World, a: Side, p: Side)
    requires Inv(w, a) && w.eps[p].state == Connected
    ensures w.eps[p].sd.Some? && w.eps[Other(p)].sd == w.eps[p].sd
  {
    Instances(w, a, 0);
    assert EpOk(w, p);
    assert SockOk(w, a, w.eps[p].sd.value);
  }

  lemma StepKeepsInv(names: seq<int>, w: World, step: Step)
    requires Names(names) && Inv(w, Smaller(names)) && Enabled(w, step)
    ensures Inv(Apply(names, w, step), Smaller(names))
  {
    match step
    case Start(p, immediate) => StartStep(names, w, p, immediate);
    case Accept(p, s) => AcceptStep(names, w, p, s);
    case Finish(p) => FinishStep(names, w, p);
    case Discard(p, s) => DiscardStep(names, w, p, s);
    case Ack(p) => AckStep(names, w, p);
    case Hangup(p) => NoHangup(w, Smaller(names), p);
  }

  /** A run: any schedule of steps from the state in which neither side has connected. */
  predicate Run(names: seq<int>, steps: seq<Step>, worlds: seq<World>)
    requires Names(names)
  {
    && |worlds| == |steps| + 1 && worlds[0] == START
    && forall i :: 0 <= i < |steps| ==>
         Shaped(worlds[i]) && Enabled(worlds[i], steps[i]) && worlds[i + 1] == Apply(names, worlds[i], steps[i])
  }

  lemma {:induction false} RunInv(names: seq<int>, steps: seq<Step>, worlds: seq<World>, i: nat)
    requires Names(names) && Run(names, steps, worlds) && i <= |steps|
    ensures Inv(worlds[i], Smaller(names))
    decreases i
  {
    if i > 0 {
      RunInv(names, steps, worlds, i - 1);
      StepKeepsInv(names, worlds[i - 1], steps[i - 1]);
    }
  }

  predicate BothConnected(w: World)
    requires |w.eps| == 2
  {
    w.eps[0].state == Connected && w.eps[1].state == Connected
  }

  /** Safety: in every reachable state, two connected endpoints use the same socket; and if the
      smaller-named side ever opened one, it is that one. */
  lemma SameSocket(names: seq<int>, steps: seq<Step>, worlds: seq<World>, i: nat)
    requires Names(names) && Run(names, steps, worlds) && i <= |steps|
    ensures Shaped(worlds[i])
    ensures BothConnected(worlds[i]) ==> worlds[i].eps[0].sd == worlds[i].eps[1].sd && worlds[i].eps[0].sd.Some?
    ensures forall s :: 0 <= s < |worlds[i].socks| && worlds[i].socks[s].opener == Smaller(names)
              ==> Holds(worlds[i], Smaller(names), s)
  {
    RunInv(names, steps, worlds, i);
    var (w, a) := (worlds[i], Smaller(names));
    Instances(w, a, 0);
    forall s | 0 <= s < |w.socks| && w.socks[s].opener == a
      ensures Holds(w, a, s)
    {
      Instances(w, a, s);
    }
  }

  /** A connection once established is kept, whatever else arrives. */
  lemma ConnectionKept(names: seq<int>, w: World, step: Step)
    requires Names(names) && Inv(w, Smaller(names)) && Enabled(w, step)
    ensures !step.Hangup?
    ensures BothConnected(w) ==> Apply(names, w, step).eps == w.eps
  {
    Instances(w, Smaller(names), 0);
  }

  /** Only the larger-named side can be refused, and only while the smaller side's own attempt
      is under way. */
  lemma OnlyLargerRefused(names: seq<int>, w: World, p: Side, s: nat)
    requires Names(names) && Inv(w, Smaller(names)) && Enabled(w, Accept(p, s))
    requires !Takes(w.eps[p], PeerIsLess(names, p))
    ensures p == Smaller(names) && w.eps[p].sd.Some? && w.socks[w.eps[p].sd.value].opener == p
  {
    Instances(w, Smaller(names), s);
  }

  predicate Internal(step: Step) {
    !step.Start?
  }

  /** Liveness, first half: while a connection is being made, something can happen. */
  lemma NeverStuck(names: seq<int>, w: World) returns (step: Step)
    requires Names(names) && Inv(w, Smaller(names))
    requires !BothConnected(w) && (w.eps[0].sd.Some? || w.eps[1].sd.Some?)
    ensures Internal(step) && Enabled(w, step)
  {
    var a := Smaller(names);
    Instances(w, a, 0);
    if w.eps[0].sd.Some? && w.eps[0].state != Connected {
      return NextFor(w, 0);
    } else if w.eps[1].sd.Some? && w.eps[1].state != Connected {
      return NextFor(w, 1);
    } else {
      assert false;
    }
  }

  /** What can happen to the attempt `p` is making. */
  function NextFor(w: World, p: Side): Step
    requires Shaped(w) && w.eps[p].sd.Some?
  {
    var s := w.eps[p].sd.value;
    if w.eps[p].state == Connecting then Finish(p)
    else if w.socks[s].stage == Queued then Accept(Other(p), s)
    else Ack(p)
  }

  function Weight(k: Sock): nat {
    (if k.greeted then 0 else 1) + (if k.stage == Queued then 1 else 0)
  }

  function Unsettled(socks: seq<Sock>): nat {
    if socks == [] then 0 else Weight(socks[0]) + Unsettled(socks[1..])
  }

  function Waiting(e: Ep): nat {
    if e.state == ConnectAck || e.state == Connecting then 1 else 0
  }

  /** Names not yet sent, sockets not yet decided, answers not yet read. */
  function Measure(w: World): nat
    requires Shaped(w)
  {
    Unsettled(w.socks) + Waiting(w.eps[0]) + Waiting(w.eps[1])
  }

  lemma {:induction false} UnsettledUpdate(socks: seq<Sock>, s: nat, k: Sock)
    requires s < |socks|
    ensures Unsettled(socks[s := k]) + Weight(socks[s]) == Unsettled(socks) + Weight(k)
  {
    if s > 0 {
      UnsettledUpdate(socks[1..], s - 1, k);
      assert socks[s := k][1..] == socks[1..][s - 1 := k];
    } else {
      assert socks[s := k][1..] == socks[1..];
    }
  }

  /** Liveness, second half: without new attempts the steps run out. */
  lemma StepDropsMeasure(names: seq<int>, w: World, step: Step)
    requires Names(names) && Inv(w, Smaller(names)) && Enabled(w, step) && Internal(step)
    ensures Shaped(Apply(names, w, step)) && Measure(Apply(names, w, step)) < Measure(w)
  {
    Instances(w, Smaller(names), 0);
    match step {
      case Finish(p) =>
        var s := w.eps[p].sd.value;
        UnsettledUpdate(w.socks, s, w.socks[s].(greeted := true));
      case Accept(p, s) =>
        UnsettledUpdate(w.socks, s, Apply(names, w, step).socks[s]);
      case Discard(p, s) =>
        UnsettledUpdate(w.socks, s, w.socks[s].(stage := Refused));
      case Ack(p) =>
      case Hangup(p) => NoHangup(w, Smaller(names), p);
    }
  }

  lemma StaysUnderWay(names: seq<int>, w: World, step: Step)
    requires Names(names) && Inv(w, Smaller(names)) && Enabled(w, step) && Internal(step) && UnderWay(w)
    ensures UnderWay(Apply(names, w, step))
  {
    ConnectionKept(names, w, step);
    Instances(w, Smaller(names), 0);
  }

  predicate UnderWay(w: World)
    requires |w.eps| == 2
  {
    w.eps[0].sd.Some? || w.eps[1].sd.Some?
  }

  /** Some steps in a row, none of them a new attempt. */
  predicate Settling(names: seq<int>, w: World, steps: seq<Step>, end: World)
    requires Names(names)
    decreases |steps|
  {
    if steps == [] then end == w
    else Shaped(w) && Enabled(w, steps[0]) && Internal(steps[0]) && Settling(names, Apply(names, w, steps[0]), steps[1..], end)
  }

  /** From any reachable state with an attempt under way, every schedule of the remaining steps
      is finite, and where nothing more can happen both sides are connected, on one socket. */
  lemma {:induction false} EveryScheduleConnects(names: seq<int>, w: World, steps: seq<Step>, end: World)
    requires Names(names) && Inv(w, Smaller(names)) && UnderWay(w) && Settling(names, w, steps, end)
    ensures Inv(end, Smaller(names)) && |steps| <= Measure(w)
    ensures (forall step :: Internal(step) ==> !Enabled(end, step)) ==> BothConnected(end) && end.eps[0].sd == end.eps[1].sd
    decreases |steps|
  {
    if steps == [] {
      Instances(w, Smaller(names), 0);
      if !BothConnected(w) {
        var step := NeverStuck(names, w);
      }
    } else {
      StepKeepsInv(names, w, steps[0]);
      StepDropsMeasure(names, w, steps[0]);
      StaysUnderWay(names, w, steps[0]);
      EveryScheduleConnects(names, Apply(names, w, steps[0]), steps[1..], end);
    }
  }
}
