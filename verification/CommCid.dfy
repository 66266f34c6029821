/** Context-id agreement among the processes of one communicator.

    Every process owns a table of communicator slots. To create a communicator the
    processes repeat rounds of: claim a free slot locally, MAX-reduce the claims,
    claim the maximum (releasing the first claim), MIN-reduce the votes, and either
    commit the slot or release it and try again.

    `Variant` selects the blocking loop (ompi_comm_nextcid) or the request-driven
    callbacks (ompi_comm_nextcid_nb). The functions on `Proc` are what one process does
    between two collectives; class `Process` is the same code in place. `Enabled` and
    `Apply` let the processes run in any order, with each reduction one atomic step
    that needs every process to have arrived. */
module CommCid {

  type Handle = nat

  /** The occupied slots of a communicator array; an absent index is a NULL entry. */
  type Table = map<nat, Handle>

  datatype Variant = Blocking | NonBlocking

  datatype Local =
    | Ready(start: nat)
    | Proposed(start: nat, mine: nat, flag: bool)
    | Reduced(start: nat, mine: nat, flag: bool, next: nat)
    | Voted(start: nat, next: nat, response: bool)
    | Tallied(start: nat, next: nat, response: bool, verdict: bool)
    | Won(id: nat)
    | Failed

  datatype Proc = Proc(table: Table, local: Local, comm: Handle, newcomm: Handle)

  /** What opal_pointer_array_set_item(.., NULL) does. */
  function Clear(t: Table, i: nat): Table {
    t - {i}
  }

  /** The first free slot at or after `start`, or `max` when there is none below `max`. */
  function Scan(t: Table, start: nat, max: nat): (i: nat)
    ensures start <= i || i == max
    ensures i < max ==> i !in t
    ensures i <= max
    ensures forall j :: start <= j < i ==> j in t
    decreases max - start
  {
    if start >= max then max
    else if start !in t then start
    else Scan(t, start + 1, max)
  }

  /** Claims a slot and enters the MAX reduction. */
  function ClaimStep(p: Proc, max: nat): Proc
    requires p.local.Ready?
  {
    var i := Scan(p.table, p.local.start, max);
    if i < max then p.(table := p.table[i := p.comm], local := Proposed(p.local.start, i, true))
    else p.(local := Proposed(p.local.start, max, false))
  }

  /** Leaves the MAX reduction. In the non-blocking variant a process that found no free
      slot has posted its contribution but returns an error instead of going on. */
  function ReceiveMax(v: Variant, p: Proc, next: nat): Proc
    requires p.local.Proposed?
  {
    if v.NonBlocking? && !p.local.flag then p.(local := Failed)
    else p.(local := Reduced(p.local.start, p.local.mine, p.local.flag, next))
  }

  /** Compares the maximum with the own claim, moves the claim if they differ, and votes. */
  function CheckStep(v: Variant, p: Proc, max: nat): Proc
    requires p.local.Reduced?
  {
    var Reduced(start, mine, flag, next) := p.local;
    if v.Blocking? && next == max && flag then
      p.(table := Clear(p.table, mine), local := Failed)
    else if next == mine then
      p.(local := Voted(start, next, true))
    else
      var released := Clear(p.table, mine);
      if next in released then p.(table := released, local := Voted(start, next, false))
      else p.(table := released[next := p.comm], local := Voted(start, next, true))
  }

  function ReceiveMin(p: Proc, verdict: bool): Proc
    requires p.local.Voted?
  {
    p.(local := Tallied(p.local.start, p.local.next, p.local.response, verdict))
  }

  /** Commits the slot, or releases it and picks where the next round starts. The blocking
      loop always moves past the rejected id, the callbacks only if they had claimed it. */
  function SettleStep(v: Variant, p: Proc): Proc
    requires p.local.Tallied?
  {
    var Tallied(start, next, response, verdict) := p.local;
    if verdict then
      p.(table := p.table[next := p.newcomm], local := Won(next))
    else
      var table := if response then Clear(p.table, next) else p.table;
      var restart := if v.Blocking? || response then next + 1 else start;
      p.(table := table, local := Ready(restart))
  }

  // ---------------------------------------------------------------------------
  // One process, in place
  // ---------------------------------------------------------------------------

  class Process {
    var table: Table
    var local: Local
    const comm: Handle
    const newcomm: Handle

    ghost function State(): Proc
      reads this
    {
      Proc(table, local, comm, newcomm)
    }

    constructor (table: Table, lowestFree: nat, comm: Handle, newcomm: Handle)
      ensures State() == Proc(table, Ready(lowestFree), comm, newcomm)
    {
      this.table := table;
      this.local := Ready(lowestFree);
      this.comm := comm;
      this.newcomm := newcomm;
    }

    method TestAndSet(i: nat, h: Handle) returns (claimed: bool)
      modifies this`table
      ensures claimed == (i !in old(table))
      ensures table == if claimed then old(table)[i := h] else old(table)
    {
      claimed := i !in table;
      if claimed {
        table := table[i := h];
      }
    }

    method Claim(max: nat)
      requires local.Ready?
      modifies this
      ensures State() == ClaimStep(old(State()), max)
    {
      var nextLocal := max;
      var flag := false;
      var i := local.start;
      while i < max && !flag
        invariant local == old(local)
        invariant !flag ==> table == old(table) && nextLocal == max
        invariant !flag ==> Scan(table, local.start, max) == Scan(table, i, max)
        invariant flag ==> nextLocal == Scan(old(table), local.start, max) < max
        invariant flag ==> table == old(table)[nextLocal := comm]
        decreases max - i, !flag
      {
        flag := TestAndSet(i, comm);
        if flag {
          nextLocal := i;
        } else {
          i := i + 1;
        }
      }
      local := Proposed(local.start, nextLocal, flag);
    }

    method Check(v: Variant, max: nat)
      requires local.Reduced?
      modifies this
      ensures State() == CheckStep(v, old(State()), max)
    {
      var Reduced(start, mine, flag, next) := local;
      if v.Blocking? && next == max {
        if flag {
          table := Clear(table, mine);
          local := Failed;
          return;
        }
      }
      var response := true;
      if next != mine {
        table := Clear(table, mine);
        response := TestAndSet(next, comm);
      }
      local := Voted(start, next, response);
    }

    method Settle(v: Variant)
      requires local.Tallied?
      modifies this
      ensures State() == SettleStep(v, old(State()))
    {
      var Tallied(start, next, response, verdict) := local;
      if verdict {
        table := table[next := newcomm];
        local := Won(next);
        return;
      }
      if response {
        table := Clear(table, next);
      }
      if v.Blocking? || response {
        start := next + 1;
      }
      local := Ready(start);
    }
  }

  // ---------------------------------------------------------------------------
  // All processes, in any order
  // ---------------------------------------------------------------------------

  datatype Step = Claim(p: nat) | MaxReduce | Check(p: nat) | MinReduce | Settle(p: nat)

  type State = seq<Proc>

  ghost predicate Enabled(s: State, step: Step) {
    match step
    case Claim(p) => p < |s| && s[p].local.Ready?
    case MaxReduce => |s| > 0 && forall q :: 0 <= q < |s| ==> s[q].local.Proposed?
    case Check(p) => p < |s| && s[p].local.Reduced?
    case MinReduce => |s| > 0 && forall q :: 0 <= q < |s| ==> s[q].local.Voted?
    case Settle(p) => p < |s| && s[p].local.Tallied?
  }

  function Maximum(s: State): (m: nat)
    requires |s| > 0 && forall q :: 0 <= q < |s| ==> s[q].local.Proposed?
    ensures forall q :: 0 <= q < |s| ==> s[q].local.mine <= m
    ensures exists q :: 0 <= q < |s| && s[q].local.mine == m
  {
    var last := |s| - 1;
    if last == 0 then s[0].local.mine
    else
      var m := Maximum(s[..last]);
      assert forall q :: 0 <= q < last ==> s[..last][q] == s[q];
      if s[last].local.mine > m then s[last].local.mine else m
  }

  ghost predicate Unanimous(s: State)
    requires forall q :: 0 <= q < |s| ==> s[q].local.Voted?
  {
    forall q :: 0 <= q < |s| ==> s[q].local.response
  }

  ghost function Apply(v: Variant, max: nat, s: State, step: Step): State
    requires Enabled(s, step)
  {
    match step
    case Claim(p) => s[p := ClaimStep(s[p], max)]
    case MaxReduce =>
      var next := Maximum(s);
      seq(|s|, q requires 0 <= q < |s| => ReceiveMax(v, s[q], next))
    case Check(p) => s[p := CheckStep(v, s[p], max)]
    case MinReduce =>
      var verdict := Unanimous(s);
      seq(|s|, q requires 0 <= q < |s| => ReceiveMin(s[q], verdict))
    case Settle(p) => s[p := SettleStep(v, s[p])]
  }

  /** A finite schedule: each state follows from the one before by one enabled step. */
  ghost predicate IsRun(v: Variant, max: nat, run: seq<State>) {
    && |run| > 0
    && forall k :: 0 < k < |run| ==> Moves(v, max, run[k - 1], run[k])
  }

  ghost predicate Moves(v: Variant, max: nat, s: State, s2: State) {
    exists step :: Enabled(s, step) && s2 == Apply(v, max, s, step)
  }

  ghost predicate Quiescent(s: State) {
    forall step :: !Enabled(s, step)
  }

  /** `lowest_free` of the pointer array: no slot below it is free. */
  ghost predicate Initial(s: State, tables: seq<Table>) {
    && |s| == |tables| > 0
    && forall q :: 0 <= q < |s| ==>
         s[q].table == tables[q] && s[q].local.Ready? &&
         forall j :: 0 <= j < s[q].local.start ==> j in tables[q]
  }

  ghost predicate FreeEverywhere(tables: seq<Table>, id: nat) {
    forall q :: 0 <= q < |tables| ==> id !in tables[q]
  }

  /** `id` is the least slot below `max` that is free in every table. */
  ghost predicate LeastCommon(tables: seq<Table>, max: nat, id: nat) {
    id < max && FreeEverywhere(tables, id) && forall j: nat :: j < id ==> !FreeEverywhere(tables, j)
  }

  // ---------------------------------------------------------------------------
  // Invariant
  // ---------------------------------------------------------------------------

  /** What one process's local state says about its table, relative to the original one. */
  ghost predicate LocalInv(v: Variant, max: nat, t0: Table, p: Proc) {
    match p.local
    case Ready(start) => p.table == t0
    case Proposed(start, mine, flag) => ClaimInv(max, t0, p, start, mine, flag)
    case Reduced(start, mine, flag, next) =>
      ClaimInv(max, t0, p, start, mine, flag) && mine <= next <= max && (v.NonBlocking? ==> flag)
    case Voted(start, next, response) => VoteInv(v, max, t0, p, start, next, response)
    case Tallied(start, next, response, verdict) =>
      && VoteInv(v, max, t0, p, start, next, response)
      && (verdict ==> response)
      && (v.Blocking? && next == max ==> verdict)
    case Won(id) =>
      id <= max && p.table == t0[id := p.newcomm] && (id < max ==> id !in t0)
    case Failed => p.table == t0
  }

  ghost predicate ClaimInv(max: nat, t0: Table, p: Proc, start: nat, mine: nat, flag: bool) {
    && mine == Scan(t0, start, max)
    && flag == (mine < max)
    && p.table == (if flag then t0[mine := p.comm] else t0)
  }

  ghost predicate VoteInv(v: Variant, max: nat, t0: Table, p: Proc, start: nat, next: nat, response: bool) {
    && Scan(t0, start, max) <= next <= max
    && (v.NonBlocking? ==> Scan(t0, start, max) < max)
    && if v.Blocking? && next == max then response && p.table == t0
       else response == (next !in t0) && p.table == if response then t0[next := p.comm] else t0
  }

  ghost predicate InClaiming(p: Proc) {
    p.local.Ready? || p.local.Proposed? || (p.local.Tallied? && !p.local.verdict)
  }

  ghost predicate InVoting(p: Proc, next: nat) {
    (p.local.Reduced? && p.local.next == next) || (p.local.Voted? && p.local.next == next) || p.local.Failed?
  }

  ghost predicate InCommitting(p: Proc, next: nat) {
    (p.local.Tallied? && p.local.verdict && p.local.next == next) || p.local == Won(next)
  }

  /** The process whose claim was the maximum. */
  ghost predicate Proposer(max: nat, t0: Table, p: Proc, next: nat) {
    Scan(t0, StartOf(p), max) == next
  }

  ghost predicate Claiming(s: State) {
    forall q :: 0 <= q < |s| ==> InClaiming(s[q])
  }

  ghost predicate Voting(max: nat, tables: seq<Table>, s: State, next: nat)
    requires |s| == |tables|
  {
    && (forall q :: 0 <= q < |s| ==> InVoting(s[q], next))
    && ((forall q :: 0 <= q < |s| ==> !s[q].local.Failed?) ==>
          exists q :: 0 <= q < |s| && Proposer(max, tables[q], s[q], next))
  }

  ghost predicate Committing(s: State, next: nat) {
    forall q :: 0 <= q < |s| ==> InCommitting(s[q], next)
  }

  ghost predicate Phased(max: nat, tables: seq<Table>, s: State)
    requires |s| == |tables|
  {
    Claiming(s) || (exists next :: Voting(max, tables, s, next)) || (exists next :: Committing(s, next))
  }

  /** Where the process starts, or will start, its next search. */
  ghost function StartOf(p: Proc): nat {
    match p.local
    case Ready(start) => start
    case Proposed(start, _, _) => start
    case Reduced(start, _, _, _) => start
    case Voted(start, _, _) => start
    case Tallied(start, _, _, _) => start
    case Won(id) => id
    case Failed => 0
  }

  ghost predicate Inv(v: Variant, max: nat, tables: seq<Table>, s: State) {
    && |s| == |tables| > 0
    && (forall q :: 0 <= q < |s| ==> LocalInv(v, max, tables[q], s[q]))
    && Phased(max, tables, s)
  }

  lemma InitialInv(v: Variant, max: nat, tables: seq<Table>, s: State)
    requires Initial(s, tables)
    ensures Inv(v, max, tables, s)
  {
    assert Claiming(s);
  }

  lemma CheckKeepsLocalInv(v: Variant, max: nat, t0: Table, p: Proc)
    requires p.local.Reduced? && LocalInv(v, max, t0, p)
    ensures LocalInv(v, max, t0, CheckStep(v, p, max))
  {
    var Reduced(start, mine, flag, next) := p.local;
    if flag {
      assert Clear(p.table, mine) == t0;
    } else {
      assert next == mine == max;
    }
  }

  lemma SettleKeepsLocalInv(v: Variant, max: nat, t0: Table, p: Proc)
    requires p.local.Tallied? && LocalInv(v, max, t0, p)
    ensures LocalInv(v, max, t0, SettleStep(v, p))
  {
    var Tallied(start, next, response, verdict) := p.local;
    if verdict {
      assert p.table[next := p.newcomm] == t0[next := p.newcomm];
    } else if response {
      assert Clear(p.table, next) == t0;
    }
  }

  lemma ClaimInvStep(v: Variant, max: nat, tables: seq<Table>, s: State, p: nat)
    requires Inv(v, max, tables, s) && Enabled(s, Claim(p))
    ensures Inv(v, max, tables, Apply(v, max, s, Claim(p)))
  {
    assert Claiming(s);
    assert Claiming(Apply(v, max, s, Claim(p)));
  }

  lemma MaxReduceInvStep(v: Variant, max: nat, tables: seq<Table>, s: State)
    requires Inv(v, max, tables, s) && Enabled(s, MaxReduce)
    ensures Inv(v, max, tables, Apply(v, max, s, MaxReduce))
  {
    var s2 := Apply(v, max, s, MaxReduce);
    var next := Maximum(s);
    var q :| 0 <= q < |s| && s[q].local.mine == next;
    assert LocalInv(v, max, tables[q], s[q]);
    assert next <= max;
    forall r | 0 <= r < |s|
      ensures LocalInv(v, max, tables[r], s2[r]) && InVoting(s2[r], next)
    {
      assert LocalInv(v, max, tables[r], s[r]);
      assert s[r].local.mine <= next;
      assert s2[r] == ReceiveMax(v, s[r], next);
    }
    assert s2[q] == ReceiveMax(v, s[q], next);
    assert !s2[q].local.Failed? ==> Proposer(max, tables[q], s2[q], next);
    assert Voting(max, tables, s2, next);
  }

  lemma CheckInvStep(v: Variant, max: nat, tables: seq<Table>, s: State, p: nat)
    requires Inv(v, max, tables, s) && Enabled(s, Check(p))
    ensures Inv(v, max, tables, Apply(v, max, s, Check(p)))
  {
    var s2 := Apply(v, max, s, Check(p));
    CheckKeepsLocalInv(v, max, tables[p], s[p]);
    var next :| Voting(max, tables, s, next);
    if forall q :: 0 <= q < |s2| ==> !s2[q].local.Failed? {
      assert forall q :: 0 <= q < |s| && q != p ==> s[q] == s2[q];
      var q :| 0 <= q < |s| && Proposer(max, tables[q], s[q], next);
      assert Proposer(max, tables[q], s2[q], next);
    }
    assert Voting(max, tables, s2, next);
  }

  lemma TallyKeepsLocalInv(v: Variant, max: nat, tables: seq<Table>, s: State, next: nat, q: nat)
    requires Inv(v, max, tables, s) && Enabled(s, MinReduce) && Voting(max, tables, s, next) && q < |s|
    ensures LocalInv(v, max, tables[q], ReceiveMin(s[q], Unanimous(s)))
  {
    assert LocalInv(v, max, tables[q], s[q]) && InVoting(s[q], next);
    if r :| 0 <= r < |s| && !s[r].local.response {
      assert LocalInv(v, max, tables[r], s[r]) && InVoting(s[r], next);
    }
  }

  lemma MinReduceInvStep(v: Variant, max: nat, tables: seq<Table>, s: State)
    requires Inv(v, max, tables, s) && Enabled(s, MinReduce)
    ensures Inv(v, max, tables, Apply(v, max, s, MinReduce))
  {
    var s2 := Apply(v, max, s, MinReduce);
    assert s[0].local.Voted?;
    var next :| Voting(max, tables, s, next);
    forall q | 0 <= q < |s|
      ensures LocalInv(v, max, tables[q], s2[q])
      ensures if Unanimous(s) then InCommitting(s2[q], next) else InClaiming(s2[q])
    {
      TallyKeepsLocalInv(v, max, tables, s, next, q);
      assert InVoting(s[q], next);
    }
    if Unanimous(s) {
      assert Committing(s2, next);
    } else {
      assert Claiming(s2);
    }
  }

  lemma SettleInvStep(v: Variant, max: nat, tables: seq<Table>, s: State, p: nat)
    requires Inv(v, max, tables, s) && Enabled(s, Settle(p))
    ensures Inv(v, max, tables, Apply(v, max, s, Settle(p)))
  {
    var s2 := Apply(v, max, s, Settle(p));
    SettleKeepsLocalInv(v, max, tables[p], s[p]);
    if s[p].local.verdict {
      var next :| Committing(s, next);
      assert Committing(s2, next);
    } else {
      assert Claiming(s);
      assert Claiming(s2);
    }
  }

  /** Every step of every process and every reduction keeps the invariant. */
  lemma StepInv(v: Variant, max: nat, tables: seq<Table>, s: State, step: Step)
    requires Inv(v, max, tables, s) && Enabled(s, step)
    ensures Inv(v, max, tables, Apply(v, max, s, step))
  {
    match step
    case Claim(p) => ClaimInvStep(v, max, tables, s, p);
    case MaxReduce => MaxReduceInvStep(v, max, tables, s);
    case Check(p) => CheckInvStep(v, max, tables, s, p);
    case MinReduce => MinReduceInvStep(v, max, tables, s);
    case Settle(p) => SettleInvStep(v, max, tables, s, p);
  }

  // ---------------------------------------------------------------------------
  // With a common free id below the maximum
  // ---------------------------------------------------------------------------

  /** Where the next search of this process will start once pending rounds are settled. */
  function Restart(v: Variant, p: Proc): nat {
    match p.local
    case Ready(start) => start
    case Proposed(start, _, _) => start
    case Reduced(start, _, _, _) => start
    case Voted(start, _, _) => start
    case Tallied(start, next, response, verdict) =>
      if !verdict && (v.Blocking? || response) then next + 1 else start
    case Won(id) => id
    case Failed => 0
  }

  /** No process overshoots `least`, and a positive vote is a vote for `least`. */
  ghost predicate OnCourse(v: Variant, least: nat, p: Proc) {
    && !p.local.Failed?
    && Restart(v, p) <= least
    && (p.local.Reduced? || p.local.Voted? ==> p.local.next <= least)
    && (p.local.Tallied? ==> if p.local.verdict then p.local.next == least else p.local.next < least)
    && (p.local.Won? ==> p.local.id == least)
  }

  ghost predicate AllOnCourse(v: Variant, least: nat, s: State) {
    forall q :: 0 <= q < |s| ==> OnCourse(v, least, s[q])
  }

  lemma InitialOnCourse(v: Variant, max: nat, tables: seq<Table>, s: State, least: nat)
    requires Initial(s, tables) && LeastCommon(tables, max, least)
    ensures AllOnCourse(v, least, s)
  {
  }

  lemma ProposalsStayBelow(max: nat, tables: seq<Table>, v: Variant, s: State, least: nat)
    requires Inv(v, max, tables, s) && AllOnCourse(v, least, s) && LeastCommon(tables, max, least)
    requires Enabled(s, MaxReduce)
    ensures Maximum(s) <= least && forall q :: 0 <= q < |s| ==> s[q].local.flag
  {
    forall q | 0 <= q < |s|
      ensures s[q].local.mine <= least && s[q].local.flag
    {
      assert LocalInv(v, max, tables[q], s[q]);
      assert OnCourse(v, least, s[q]);
      assert least !in tables[q];
    }
    var q :| 0 <= q < |s| && s[q].local.mine == Maximum(s);
  }

  /** The MIN reduction is positive exactly when the candidate is the least common id. */
  lemma VerdictDecidesLeast(max: nat, tables: seq<Table>, v: Variant, s: State, least: nat, next: nat)
    requires Inv(v, max, tables, s) && AllOnCourse(v, least, s) && LeastCommon(tables, max, least)
    requires Enabled(s, MinReduce) && Voting(max, tables, s, next)
    ensures Unanimous(s) <==> next == least
    ensures next <= least
  {
    forall q | 0 <= q < |s|
      ensures s[q].local.next == next <= least && s[q].local.response == (next !in tables[q])
    {
      assert LocalInv(v, max, tables[q], s[q]);
      assert OnCourse(v, least, s[q]);
    }
    assert s[0].local.next == next;
    if Unanimous(s) {
      assert FreeEverywhere(tables, next);
    }
  }

  lemma ReductionOnCourse(v: Variant, max: nat, tables: seq<Table>, s: State, least: nat)
    requires Inv(v, max, tables, s) && Enabled(s, MinReduce)
    requires AllOnCourse(v, least, s) && LeastCommon(tables, max, least)
    ensures AllOnCourse(v, least, Apply(v, max, s, MinReduce))
  {
    assert s[0].local.Voted?;
    var next :| Voting(max, tables, s, next);
    VerdictDecidesLeast(max, tables, v, s, least, next);
    var s2 := Apply(v, max, s, MinReduce);
    forall q | 0 <= q < |s|
      ensures OnCourse(v, least, s2[q])
    {
      assert InVoting(s[q], next) && OnCourse(v, least, s[q]);
      assert s2[q] == ReceiveMin(s[q], Unanimous(s));
    }
  }

  lemma StepOnCourse(v: Variant, max: nat, tables: seq<Table>, s: State, step: Step, least: nat)
    requires Inv(v, max, tables, s) && Enabled(s, step)
    requires AllOnCourse(v, least, s) && LeastCommon(tables, max, least)
    ensures AllOnCourse(v, least, Apply(v, max, s, step))
  {
    var s2 := Apply(v, max, s, step);
    match step
    case Claim(p) =>
      assert OnCourse(v, least, s2[p]);
    case MaxReduce =>
      ProposalsStayBelow(max, tables, v, s, least);
      forall q | 0 <= q < |s|
        ensures OnCourse(v, least, s2[q])
      {
        assert OnCourse(v, least, s[q]) && s2[q] == ReceiveMax(v, s[q], Maximum(s));
      }
    case Check(p) =>
      assert OnCourse(v, least, s[p]);
      assert OnCourse(v, least, s2[p]);
    case MinReduce =>
      ReductionOnCourse(v, max, tables, s, least);
    case Settle(p) =>
      assert OnCourse(v, least, s[p]);
      assert OnCourse(v, least, s2[p]);
  }

  ghost predicate AllWon(s: State, id: nat) {
    forall q :: 0 <= q < |s| ==> s[q].local == Won(id)
  }

  /** No deadlock: as long as somebody has not won, some step is possible. */
  lemma QuiescentMeansAgreed(v: Variant, max: nat, tables: seq<Table>, s: State, least: nat)
    requires Inv(v, max, tables, s) && AllOnCourse(v, least, s) && LeastCommon(tables, max, least)
    requires Quiescent(s)
    ensures AllWon(s, least)
  {
    assert !Enabled(s, MaxReduce) && !Enabled(s, MinReduce);
    forall q | 0 <= q < |s|
      ensures s[q].local.Proposed? || s[q].local.Voted? || s[q].local.Won?
    {
      assert !Enabled(s, Claim(q)) && !Enabled(s, Check(q)) && !Enabled(s, Settle(q));
      assert OnCourse(v, least, s[q]);
    }
    if Claiming(s) {
      assert false;
    } else if next :| Voting(max, tables, s, next) {
      assert false;
    } else {
      var next :| Committing(s, next);
      forall q | 0 <= q < |s|
        ensures s[q].local == Won(least)
      {
        assert InCommitting(s[q], next) && OnCourse(v, least, s[q]);
      }
    }
  }

  // ---------------------------------------------------------------------------
  // Termination
  // ---------------------------------------------------------------------------

  function Sum(xs: seq<nat>): nat {
    if xs == [] then 0 else xs[0] + Sum(xs[1..])
  }

  lemma {:induction false} SumMonotone(xs: seq<nat>, ys: seq<nat>)
    requires |xs| == |ys| && forall i :: 0 <= i < |xs| ==> xs[i] <= ys[i]
    ensures Sum(xs) <= Sum(ys)
    ensures (exists i :: 0 <= i < |xs| && xs[i] < ys[i]) ==> Sum(xs) < Sum(ys)
  {
    if xs != [] {
      SumMonotone(xs[1..], ys[1..]);
      if i :| 0 <= i < |xs| && xs[i] < ys[i] {
        if i > 0 {
          assert xs[1..][i - 1] < ys[1..][i - 1];
        }
      }
    }
  }

  lemma {:induction false} SumBound(xs: seq<nat>, b: nat)
    requires forall i :: 0 <= i < |xs| ==> xs[i] <= b
    ensures Sum(xs) <= b * |xs|
  {
    if xs != [] {
      SumBound(xs[1..], b);
      assert b * |xs| == b + b * |xs[1..]|;
    }
  }

  /** How many ids this process may still propose. */
  function Credit(v: Variant, max: nat, p: Proc): nat {
    if p.local.Won? || p.local.Failed? || (p.local.Tallied? && p.local.verdict) then 0
    else if Restart(v, p) <= max then max + 1 - Restart(v, p)
    else 0
  }

  /** How many local steps are left in this round. */
  function Rank(p: Proc): nat {
    match p.local
    case Ready(_) => 5
    case Proposed(_, _, _) => 4
    case Reduced(_, _, _, _) => 3
    case Voted(_, _, _) => 2
    case Tallied(_, _, _, verdict) => if verdict then 1 else 6
    case Won(_) => 0
    case Failed => 0
  }

  function Credits(v: Variant, max: nat, s: State): seq<nat> {
    seq(|s|, q requires 0 <= q < |s| => Credit(v, max, s[q]))
  }

  function Ranks(s: State): seq<nat> {
    seq(|s|, q requires 0 <= q < |s| => Rank(s[q]))
  }

  function Measure(v: Variant, max: nat, s: State): nat {
    Sum(Credits(v, max, s)) * (6 * |s| + 1) + Sum(Ranks(s))
  }

  lemma Lexicographic(c: nat, c2: nat, k: nat, r: nat, r2: nat)
    requires r2 < k && (c2 < c || (c2 == c && r2 < r))
    ensures c2 * k + r2 < c * k + r
  {
    if c2 < c {
      assert (c2 + 1) * k <= c * k;
    }
  }

  lemma MeasureDrops(v: Variant, max: nat, s: State, s2: State)
    requires |s2| == |s|
    requires Sum(Credits(v, max, s2)) <= Sum(Credits(v, max, s))
    requires Sum(Credits(v, max, s2)) < Sum(Credits(v, max, s)) || Sum(Ranks(s2)) < Sum(Ranks(s))
    ensures Measure(v, max, s2) < Measure(v, max, s)
  {
    SumBound(Ranks(s2), 6);
    Lexicographic(Sum(Credits(v, max, s)), Sum(Credits(v, max, s2)), 6 * |s| + 1, Sum(Ranks(s)), Sum(Ranks(s2)));
  }

  lemma RejectedCredit(v: Variant, max: nat, t0: Table, p: Proc)
    requires p.local.Voted? && LocalInv(v, max, t0, p)
    requires !(v.Blocking? && p.local.next == max)
    ensures Credit(v, max, ReceiveMin(p, false)) <= Credit(v, max, p)
    ensures Proposer(max, t0, p, p.local.next) ==> Credit(v, max, ReceiveMin(p, false)) < Credit(v, max, p)
  {
    var i := Scan(t0, p.local.start, max);
    assert p.local.start <= i || i == max;
  }

  lemma RejectedVote(v: Variant, max: nat, tables: seq<Table>, s: State, next: nat, q: nat)
    requires Inv(v, max, tables, s) && Enabled(s, MinReduce) && !Unanimous(s)
    requires Voting(max, tables, s, next) && q < |s|
    ensures !(v.Blocking? && s[q].local.next == max) && s[q].local.next == next
  {
    var r :| 0 <= r < |s| && !s[r].local.response;
    assert InVoting(s[r], next) && LocalInv(v, max, tables[r], s[r]);
    assert InVoting(s[q], next);
  }

  /** After a negative MIN reduction nobody may propose more ids than before, and the
      process that proposed the maximum may propose fewer: the candidate strictly grows. */
  lemma RejectionSpendsCredit(v: Variant, max: nat, tables: seq<Table>, s: State, next: nat)
    requires Inv(v, max, tables, s) && Enabled(s, MinReduce) && !Unanimous(s) && Voting(max, tables, s, next)
    ensures Sum(Credits(v, max, Apply(v, max, s, MinReduce))) < Sum(Credits(v, max, s))
  {
    var (c, c2) := (Credits(v, max, s), Credits(v, max, Apply(v, max, s, MinReduce)));
    forall q | 0 <= q < |s|
      ensures c2[q] <= c[q] && (Proposer(max, tables[q], s[q], next) ==> c2[q] < c[q])
    {
      RejectedVote(v, max, tables, s, next, q);
      RejectedCredit(v, max, tables[q], s[q]);
    }
    assert s[0].local.Voted?;
    var q :| 0 <= q < |s| && Proposer(max, tables[q], s[q], next);
    SumMonotone(c2, c);
  }

  lemma PointwiseDrop(v: Variant, max: nat, s: State, s2: State, p: nat)
    requires |s2| == |s| && p < |s|
    requires forall q :: 0 <= q < |s| ==> Credit(v, max, s2[q]) <= Credit(v, max, s[q]) && Rank(s2[q]) <= Rank(s[q])
    requires Rank(s2[p]) < Rank(s[p])
    ensures Measure(v, max, s2) < Measure(v, max, s)
  {
    SumMonotone(Credits(v, max, s2), Credits(v, max, s));
    assert Ranks(s2)[p] < Ranks(s)[p];
    SumMonotone(Ranks(s2), Ranks(s));
    MeasureDrops(v, max, s, s2);
  }

  lemma ReductionDropsMeasure(v: Variant, max: nat, tables: seq<Table>, s: State, step: Step)
    requires Inv(v, max, tables, s) && Enabled(s, step) && (step.MaxReduce? || step.MinReduce?)
    ensures Measure(v, max, Apply(v, max, s, step)) < Measure(v, max, s)
  {
    var s2 := Apply(v, max, s, step);
    if step.MinReduce? && !Unanimous(s) {
      assert s[0].local.Voted?;
      var next :| Voting(max, tables, s, next);
      RejectionSpendsCredit(v, max, tables, s, next);
      MeasureDrops(v, max, s, s2);
    } else {
      forall q | 0 <= q < |s|
        ensures Credit(v, max, s2[q]) <= Credit(v, max, s[q]) && Rank(s2[q]) < Rank(s[q])
      {
        assert s2[q] == if step.MaxReduce? then ReceiveMax(v, s[q], Maximum(s)) else ReceiveMin(s[q], true);
      }
      PointwiseDrop(v, max, s, s2, 0);
    }
  }

  lemma LocalDrop(v: Variant, max: nat, s: State, p: nat, moved: Proc)
    requires p < |s| && Credit(v, max, moved) <= Credit(v, max, s[p]) && Rank(moved) < Rank(s[p])
    ensures Measure(v, max, s[p := moved]) < Measure(v, max, s)
  {
    PointwiseDrop(v, max, s, s[p := moved], p);
  }

  /** Every step of every schedule lowers the measure. */
  lemma StepDropsMeasure(v: Variant, max: nat, tables: seq<Table>, s: State, step: Step)
    requires Inv(v, max, tables, s) && Enabled(s, step)
    ensures Measure(v, max, Apply(v, max, s, step)) < Measure(v, max, s)
  {
    match step
    case Claim(p) => LocalDrop(v, max, s, p, ClaimStep(s[p], max));
    case Check(p) => LocalDrop(v, max, s, p, CheckStep(v, s[p], max));
    case Settle(p) => LocalDrop(v, max, s, p, SettleStep(v, s[p]));
    case MaxReduce => ReductionDropsMeasure(v, max, tables, s, step);
    case MinReduce => ReductionDropsMeasure(v, max, tables, s, step);
  }

  // ---------------------------------------------------------------------------
  // Main results
  // ---------------------------------------------------------------------------

  lemma {:induction false} RunInv(v: Variant, max: nat, tables: seq<Table>, run: seq<State>)
    requires IsRun(v, max, run) && Initial(run[0], tables)
    ensures Inv(v, max, tables, run[|run| - 1])
    ensures Measure(v, max, run[|run| - 1]) + |run| - 1 <= Measure(v, max, run[0])
    ensures forall least :: LeastCommon(tables, max, least) ==> AllOnCourse(v, least, run[|run| - 1])
    decreases |run|
  {
    var n := |run| - 1;
    if n == 0 {
      InitialInv(v, max, tables, run[0]);
      forall least | LeastCommon(tables, max, least)
        ensures AllOnCourse(v, least, run[0])
      {
        InitialOnCourse(v, max, tables, run[0], least);
      }
    } else {
      RunInv(v, max, tables, run[..n]);
      assert Moves(v, max, run[n - 1], run[n]);
      var step :| Enabled(run[n - 1], step) && run[n] == Apply(v, max, run[n - 1], step);
      StepInv(v, max, tables, run[n - 1], step);
      StepDropsMeasure(v, max, tables, run[n - 1], step);
      forall least | LeastCommon(tables, max, least)
        ensures AllOnCourse(v, least, run[n])
      {
        StepOnCourse(v, max, tables, run[n - 1], step, least);
      }
    }
  }

  /** Every schedule is finite: its length is bounded before it begins. */
  lemma AllocationTerminates(v: Variant, max: nat, tables: seq<Table>, run: seq<State>)
    requires IsRun(v, max, run) && Initial(run[0], tables)
    ensures |run| <= Measure(v, max, run[0]) + 1
  {
    RunInv(v, max, tables, run);
  }

  /** Every schedule that cannot be extended ends with all processes holding the least id
      that was free in every table, and each table is the original one plus that slot. */
  lemma AllocationAgrees(v: Variant, max: nat, tables: seq<Table>, run: seq<State>, least: nat)
    requires IsRun(v, max, run) && Initial(run[0], tables)
    requires LeastCommon(tables, max, least)
    requires Quiescent(run[|run| - 1])
    ensures var s := run[|run| - 1];
            |s| == |tables| && forall q :: 0 <= q < |s| ==>
              s[q].local == Won(least) && s[q].table == tables[q][least := s[q].newcomm]
  {
    RunInv(v, max, tables, run);
    var s := run[|run| - 1];
    QuiescentMeansAgreed(v, max, tables, s, least);
    forall q | 0 <= q < |s|
      ensures s[q].table == tables[q][least := s[q].newcomm]
    {
      assert LocalInv(v, max, tables[q], s[q]);
    }
  }

  lemma LeastExists(tables: seq<Table>, max: nat, id: nat) returns (least: nat)
    requires id < max && FreeEverywhere(tables, id)
    ensures LeastCommon(tables, max, least) && least <= id
  {
    least := id;
    if j: nat :| j < id && FreeEverywhere(tables, j) {
      least := LeastExists(tables, max, j);
    }
  }

  /** The code keeps its promise exactly when some id below the maximum is free everywhere:
      otherwise no schedule at all lets any process win an id below the maximum. */
  lemma WinNeedsCommonId(v: Variant, max: nat, tables: seq<Table>, run: seq<State>, q: nat)
    requires IsRun(v, max, run) && Initial(run[0], tables)
    requires q < |run[|run| - 1]| && run[|run| - 1][q].local.Won? && run[|run| - 1][q].local.id < max
    ensures LeastCommon(tables, max, run[|run| - 1][q].local.id)
  {
    RunInv(v, max, tables, run);
    var s := run[|run| - 1];
    var id := s[q].local.id;
    assert InCommitting(s[q], id);
    var next :| Committing(s, next);
    forall r | 0 <= r < |s|
      ensures id !in tables[r]
    {
      assert InCommitting(s[r], next) && LocalInv(v, max, tables[r], s[r]);
    }
    assert FreeEverywhere(tables, id);
    var least := LeastExists(tables, max, id);
    assert OnCourse(v, least, s[q]);
  }

  ghost predicate NoCommonId(tables: seq<Table>, max: nat) {
    forall id: nat :: id < max ==> !FreeEverywhere(tables, id)
  }

  /** Some process gave up, and the others gave up too or wait for ever for the vote. */
  ghost predicate Stranded(s: State) {
    && (exists q :: 0 <= q < |s| && s[q].local.Failed?)
    && forall q :: 0 <= q < |s| ==> s[q].local.Failed? || s[q].local.Voted?
  }

  /** How every schedule ends, whatever the tables: all hold the least common id; or there is none, and
      all take the maximum for an id or are stranded. */
  lemma HowSchedulesEnd(v: Variant, max: nat, tables: seq<Table>, run: seq<State>)
    requires IsRun(v, max, run) && Initial(run[0], tables) && Quiescent(run[|run| - 1])
    ensures var s := run[|run| - 1];
            || (exists id :: AllWon(s, id) && LeastCommon(tables, max, id))
            || (NoCommonId(tables, max) && (AllWon(s, max) || Stranded(s)))
  {
    var s := run[|run| - 1];
    RunInv(v, max, tables, run);
    if id: nat :| id < max && FreeEverywhere(tables, id) {
      var least := LeastExists(tables, max, id);
      QuiescentMeansAgreed(v, max, tables, s, least);
      assert AllWon(s, least);
    } else {
      EndsWonOrStranded(v, max, tables, s);
      if id: nat :| AllWon(s, id) {
        assert s[0].local == Won(id) && LocalInv(v, max, tables[0], s[0]);
        if id < max {
          WinNeedsCommonId(v, max, tables, run, 0);
        }
      }
    }
  }

  lemma EndsWonOrStranded(v: Variant, max: nat, tables: seq<Table>, s: State)
    requires Inv(v, max, tables, s) && Quiescent(s)
    ensures Stranded(s) || exists id :: AllWon(s, id)
  {
    assert !Enabled(s, MaxReduce) && !Enabled(s, MinReduce);
    forall q | 0 <= q < |s|
      ensures s[q].local.Proposed? || s[q].local.Voted? || s[q].local.Won? || s[q].local.Failed?
    {
      assert !Enabled(s, Claim(q)) && !Enabled(s, Check(q)) && !Enabled(s, Settle(q));
    }
    if next :| Voting(max, tables, s, next) {
      assert forall q :: 0 <= q < |s| ==> InVoting(s[q], next);
    } else if next :| Committing(s, next) {
      assert forall q :: 0 <= q < |s| ==> InCommitting(s[q], next);
      assert AllWon(s, next);
    }
  }

  /** A process can indeed be left waiting for ever: two processes, blocking, where the only one with
      a free slot leaves with an error and the other one has already voted. */
  lemma ExhaustionStrandsAPeer() returns (run: seq<State>)
    ensures IsRun(Blocking, 1, run) && Initial(run[0], [map[], map[0 := 7]])
    ensures Quiescent(run[|run| - 1])
    ensures |run[|run| - 1]| == 2 && run[|run| - 1][0].local.Failed? && run[|run| - 1][1].local.Voted?
  {
    var s0 := [Proc(map[], Ready(0), 5, 6), Proc(map[0 := 7], Ready(1), 8, 9)];
    var s1 := Apply(Blocking, 1, s0, Claim(0));
    var s2 := Apply(Blocking, 1, s1, Claim(1));
    assert s2 == [Proc(map[0 := 5], Proposed(0, 0, true), 5, 6), Proc(map[0 := 7], Proposed(1, 1, false), 8, 9)];
    assert s2[0].local.mine == 0 && s2[1].local.mine == 1;
    assert Maximum(s2) == 1;
    var s3 := Apply(Blocking, 1, s2, MaxReduce);
    assert s3[0] == ReceiveMax(Blocking, s2[0], 1) && s3[1] == ReceiveMax(Blocking, s2[1], 1);
    var s4 := Apply(Blocking, 1, s3, Check(0));
    var s5 := Apply(Blocking, 1, s4, Check(1));
    assert s5[0].local.Failed? && s5[1].local.Voted?;
    run := [s0, s1, s2, s3, s4, s5];
    assert Moves(Blocking, 1, s0, s1) && Moves(Blocking, 1, s1, s2) && Moves(Blocking, 1, s2, s3);
    assert Moves(Blocking, 1, s3, s4) && Moves(Blocking, 1, s4, s5);
    forall k | 0 < k < |run|
      ensures Moves(Blocking, 1, run[k - 1], run[k])
    {
      assert k == 1 || k == 2 || k == 3 || k == 4 || k == 5;
    }
  }
}
