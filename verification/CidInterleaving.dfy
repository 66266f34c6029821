/** Several context-id allocations at once, on communicators that share processes.

    Each process has one slot table and one sorted list of registered parent ids; only the
    allocation whose parent id heads that list may claim. The steps of one process in one
    allocation are those of module CommCid; here they run on shared tables. */
module CidRegistry {

  ghost predicate Sorted(list: seq<nat>) {
    forall i, j :: 0 <= i < j < |list| ==> list[i] <= list[j]
  }

  ghost predicate StrictlySorted(list: seq<nat>) {
    forall i, j :: 0 <= i < j < |list| ==> list[i] < list[j]
  }

  function Inserted(list: seq<nat>, cid: nat): (r: seq<nat>) {
    if list == [] || list[0] > cid then [cid] + list
    else [list[0]] + Inserted(list[1..], cid)
  }

  function Removed(list: seq<nat>, cid: nat): seq<nat> {
    if list == [] then []
    else if list[0] == cid then list[1..]
    else [list[0]] + Removed(list[1..], cid)
  }

  lemma {:induction false} InsertedContents(list: seq<nat>, cid: nat)
    ensures multiset(Inserted(list, cid)) == multiset(list) + multiset{cid}
  {
    if list == [] || list[0] > cid {
    } else {
      InsertedContents(list[1..], cid);
      assert list == [list[0]] + list[1..];
    }
  }

  lemma {:induction false} RemovedContents(list: seq<nat>, cid: nat)
    ensures multiset(Removed(list, cid)) == multiset(list) - multiset{cid}
  {
    if list != [] {
      assert list == [list[0]] + list[1..];
      if list[0] != cid {
        RemovedContents(list[1..], cid);
      }
    }
  }

  lemma {:induction false} InsertedAt(list: seq<nat>, cid: nat, k: nat)
    requires k <= |list| && (k == |list| || list[k] > cid)
    requires forall i :: 0 <= i < k ==> list[i] <= cid
    ensures Inserted(list, cid) == list[..k] + [cid] + list[k..]
  {
    if k > 0 {
      InsertedAt(list[1..], cid, k - 1);
      assert list[1..][..k - 1] == list[1..k] && list[1..][k - 1..] == list[k..];
      assert [list[0]] + list[1..k] == list[..k];
    }
  }

  lemma {:induction false} RemovedAt(list: seq<nat>, cid: nat, k: nat)
    requires k < |list| && list[k] == cid && cid !in list[..k]
    ensures Removed(list, cid) == list[..k] + list[k + 1..]
  {
    if k > 0 {
      assert list[0] == list[..k][0];
      assert list[1..][..k - 1] == list[1..k] && list[1..][k..] == list[k + 1..];
      assert forall x :: x in list[1..k] ==> x in list[..k];
      RemovedAt(list[1..], cid, k - 1);
      assert [list[0]] + list[1..k] == list[..k];
    }
  }

  lemma {:induction false} RemovedAbsent(list: seq<nat>, cid: nat)
    requires cid !in list
    ensures Removed(list, cid) == list
  {
    if list != [] {
      RemovedAbsent(list[1..], cid);
    }
  }

  lemma Prepended(x: nat, list: seq<nat>)
    ensures Sorted(list) && (forall y :: y in list ==> x <= y) ==> Sorted([x] + list)
    ensures StrictlySorted(list) && (forall y :: y in list ==> x < y) ==> StrictlySorted([x] + list)
  {
    assert forall i :: 0 < i <= |list| ==> ([x] + list)[i] == list[i - 1] && list[i - 1] in list;
  }

  lemma {:induction false} InsertedElements(list: seq<nat>, cid: nat)
    ensures forall x :: x in Inserted(list, cid) <==> x in list || x == cid
  {
    InsertedContents(list, cid);
    forall x
      ensures x in Inserted(list, cid) <==> x in list || x == cid
    {
      assert x in Inserted(list, cid) <==> x in multiset(Inserted(list, cid));
      assert x in list <==> x in multiset(list);
    }
  }

  lemma {:induction false} InsertedSorted(list: seq<nat>, cid: nat)
    requires Sorted(list)
    ensures Sorted(Inserted(list, cid))
    ensures StrictlySorted(list) && cid !in list ==> StrictlySorted(Inserted(list, cid))
  {
    if list == [] || list[0] > cid {
      Prepended(cid, list);
    } else {
      var rest := list[1..];
      InsertedSorted(rest, cid);
      InsertedElements(rest, cid);
      Prepended(list[0], Inserted(rest, cid));
      assert list[0] in list;
    }
  }

  lemma {:induction false} RemovedSorted(list: seq<nat>, cid: nat)
    requires StrictlySorted(list)
    ensures StrictlySorted(Removed(list, cid))
    ensures forall x :: x in Removed(list, cid) <==> x in list && x != cid
  {
    if list != [] {
      var rest := list[1..];
      assert list == [list[0]] + rest;
      assert forall y :: y in rest ==> list[0] < y;
      if list[0] != cid {
        RemovedSorted(rest, cid);
        Prepended(list[0], Removed(rest, cid));
      }
    }
  }

  /** The registration list. `multiple` is the build with MPI_THREAD_MULTIPLE support,
      which refuses a parent id that is already registered. */
  class Registry {
    var list: seq<nat>

    constructor ()
      ensures list == []
    {
      list := [];
    }

    /** One pass of the registration loop; the caller repeats it until it succeeds. */
    method Register(cid: nat, multiple: bool) returns (registered: bool)
      requires Sorted(list)
      modifies this
      ensures Sorted(list)
      ensures registered <==> !(multiple && cid in old(list))
      ensures list == if registered then Inserted(old(list), cid) else old(list)
    {
      registered := false;
      if list == [] {
        list := [cid];
        registered := true;
        return;
      }
      var ok := true;
      var k := 0;
      while k < |list| && list[k] <= cid && ok
        invariant 0 <= k <= |list|
        invariant forall i :: 0 <= i < k ==> list[i] <= cid && !(multiple && list[i] == cid)
        invariant !ok ==> multiple && cid in list
      {
        if multiple && list[k] == cid {
          ok := false;
          break;
        }
        k := k + 1;
      }
      if ok {
        InsertedAt(list, cid, k);
        InsertedSorted(list, cid);
        list := list[..k] + [cid] + list[k..];
        registered := true;
      }
    }

    method Unregister(cid: nat)
      requires Sorted(list)
      modifies this
      ensures Sorted(list)
      ensures list == Removed(old(list), cid)
    {
      var k := 0;
      while k < |list|
        invariant 0 <= k <= |list|
        invariant cid !in list[..k]
        invariant list == old(list)
      {
        if list[k] == cid {
          RemovedAt(list, cid, k);
          list := list[..k] + list[k + 1..];
          return;
        }
        k := k + 1;
      }
      assert list[..k] == list;
      RemovedAbsent(list, cid);
    }

    /** The head of the list is the least registered id. */
    method LowestCid() returns (cid: nat)
      requires Sorted(list) && list != []
      ensures cid in list && forall c :: c in list ==> cid <= c
    {
      cid := list[0];
    }
  }
}

module CidInterleaving {
  import opened CommCid
  import opened CidRegistry

  /** One communicator creation: the parent's id, who takes part, and the two pointers the
      code stores in the tables. */
  datatype Allocation = Allocation(cid: nat, members: set<nat>, comm: Handle, newcomm: Handle)

  datatype Entry = Absent | Entered(local: Local)

  datatype System = System(tables: seq<Table>, registered: seq<seq<nat>>, entries: seq<seq<Entry>>)

  datatype Action =
    | Enter(a: nat, p: nat, start: nat)
    | Act(a: nat, p: nat)
    | ReduceMax(a: nat)
    | ReduceMin(a: nat)

  ghost predicate WellFormed(allocs: seq<Allocation>, s: System) {
    && |s.registered| == |s.tables|
    && |s.entries| == |allocs|
    && (forall a :: 0 <= a < |allocs| ==>
          |s.entries[a]| == |s.tables| && (forall p :: p in allocs[a].members ==> p < |s.tables|))
  }

  function Unregistered(v: Variant, l: Local): bool {
    l.Won? || (v.Blocking? && l.Failed?)
  }

  ghost predicate Active(v: Variant, e: Entry) {
    e.Entered? && !Unregistered(v, e.local)
  }

  function View(alloc: Allocation, t: Table, l: Local): Proc {
    Proc(t, l, alloc.comm, alloc.newcomm)
  }

  ghost predicate Can(v: Variant, allocs: seq<Allocation>, s: System, act: Action)
    requires WellFormed(allocs, s)
  {
    && act.a < |allocs|
    && match act
       case Enter(a, p, start) =>
         && p in allocs[a].members && s.entries[a][p].Absent?
         && allocs[a].cid !in s.registered[p]
         && (forall j :: 0 <= j < start ==> j in s.tables[p])
       case Act(a, p) =>
         && p in allocs[a].members && s.entries[a][p].Entered?
         && var l := s.entries[a][p].local;
            (l.Ready? && s.registered[p] != [] && s.registered[p][0] == allocs[a].cid) || l.Reduced? || l.Tallied?
       case ReduceMax(a) =>
         && allocs[a].members != {}
         && forall p :: p in allocs[a].members ==> s.entries[a][p].Entered? && s.entries[a][p].local.Proposed?
       case ReduceMin(a) =>
         && allocs[a].members != {}
         && forall p :: p in allocs[a].members ==> s.entries[a][p].Entered? && s.entries[a][p].local.Voted?
  }

  /** The local step of a process that is not inside a reduction. */
  function Advance(v: Variant, max: nat, p: Proc): Proc
    requires p.local.Ready? || p.local.Reduced? || p.local.Tallied?
  {
    if p.local.Ready? then ClaimStep(p, max)
    else if p.local.Reduced? then CheckStep(v, p, max)
    else SettleStep(v, p)
  }

  ghost predicate IsMaximum(s: System, a: nat, members: set<nat>, next: nat)
    requires a < |s.entries|
    requires forall p :: p in members ==> p < |s.entries[a]| && s.entries[a][p].Entered? && s.entries[a][p].local.Proposed?
  {
    && (forall p :: p in members ==> s.entries[a][p].local.mine <= next)
    && (exists p :: p in members && s.entries[a][p].local.mine == next)
  }

  ghost predicate Does(v: Variant, max: nat, allocs: seq<Allocation>, s: System, act: Action, s2: System)
    requires WellFormed(allocs, s) && Can(v, allocs, s, act)
  {
    && WellFormed(allocs, s2)
    && |s2.tables| == |s.tables|
    && match act
       case Enter(a, p, start) =>
         s2 == s.(registered := s.registered[p := Inserted(s.registered[p], allocs[a].cid)],
                  entries := s.entries[a := s.entries[a][p := Entered(Ready(start))]])
       case Act(a, p) =>
         var after := Advance(v, max, View(allocs[a], s.tables[p], s.entries[a][p].local));
         s2 == System(s.tables[p := after.table],
                      if Unregistered(v, after.local)
                      then s.registered[p := Removed(s.registered[p], allocs[a].cid)] else s.registered,
                      s.entries[a := s.entries[a][p := Entered(after.local)]])
       case ReduceMax(a) =>
         && s2.tables == s.tables
         && (exists next :: IsMaximum(s, a, allocs[a].members, next) && Delivered(v, allocs, s, a, next, s2))
       case ReduceMin(a) =>
         && s2.tables == s.tables && s2.registered == s.registered
         && var verdict := forall p :: p in allocs[a].members ==> s.entries[a][p].local.response;
            Announced(allocs, s, a, verdict, s2)
  }

  ghost predicate Delivered(v: Variant, allocs: seq<Allocation>, s: System, a: nat, next: nat, s2: System)
    requires WellFormed(allocs, s) && WellFormed(allocs, s2) && Can(v, allocs, s, ReduceMax(a)) && |s2.tables| == |s.tables|
  {
    && (forall b :: 0 <= b < |allocs| && b != a ==> s2.entries[b] == s.entries[b])
    && (forall p :: 0 <= p < |s.tables| && p !in allocs[a].members ==> s2.entries[a][p] == s.entries[a][p])
    && (forall p :: p in allocs[a].members ==>
          s2.entries[a][p] == Entered(ReceiveMax(v, View(allocs[a], s.tables[p], s.entries[a][p].local), next).local))
    && s2.registered == s.registered
  }

  ghost predicate Announced(allocs: seq<Allocation>, s: System, a: nat, verdict: bool, s2: System)
    requires WellFormed(allocs, s) && WellFormed(allocs, s2) && a < |allocs| && |s2.tables| == |s.tables|
    requires forall p :: p in allocs[a].members ==> s.entries[a][p].Entered? && s.entries[a][p].local.Voted?
  {
    && (forall b :: 0 <= b < |allocs| && b != a ==> s2.entries[b] == s.entries[b])
    && (forall p :: 0 <= p < |s.tables| && p !in allocs[a].members ==> s2.entries[a][p] == s.entries[a][p])
    && (forall p :: p in allocs[a].members ==>
          s2.entries[a][p] == Entered(ReceiveMin(View(allocs[a], s.tables[p], s.entries[a][p].local), verdict).local))
  }

  // ---------------------------------------------------------------------------
  // Invariant
  // ---------------------------------------------------------------------------

  /** The slot an allocation believes it owns at one process. */
  ghost predicate Holds(e: Entry, i: nat) {
    && e.Entered?
    && match e.local
       case Ready(_) => false
       case Proposed(_, mine, flag) => flag && mine == i
       case Reduced(_, mine, flag, _) => flag && mine == i
       case Voted(_, next, response) => response && next == i
       case Tallied(_, next, response, _) => response && next == i
       case Won(id) => id == i
       case Failed => false
  }

  /** Facts about one entry on its own. */
  ghost predicate EntryInv(max: nat, e: Entry) {
    e.Entered? ==>
      match e.local
      case Ready(_) => true
      case Proposed(start, mine, flag) => mine <= max && flag == (mine < max)
      case Reduced(start, mine, flag, next) => mine <= next <= max && flag == (mine < max)
      case Voted(start, next, response) => next <= max
      case Tallied(start, next, response, verdict) => next <= max && (verdict ==> response)
      case Won(id) => id <= max
      case Failed => true
  }

  /** Slots below the maximum: occupied iff occupied from the start or held, by one allocation
      only, and never a slot that was occupied from the start. */
  ghost predicate SlotInv(max: nat, allocs: seq<Allocation>, t0: Table, s: System, p: nat)
    requires WellFormed(allocs, s) && p < |s.tables|
  {
    && (forall i :: 0 <= i < max && i in t0 ==> i in s.tables[p] && s.tables[p][i] == t0[i])
    && (forall a, i {:trigger Holds(s.entries[a][p], i)} ::
          0 <= a < |allocs| && 0 <= i < max && Holds(s.entries[a][p], i) ==> i in s.tables[p] && i !in t0)
    && (forall a, b, i {:trigger Holds(s.entries[a][p], i), Holds(s.entries[b][p], i)} ::
          0 <= a < b < |allocs| && 0 <= i < max && Holds(s.entries[a][p], i) ==> !Holds(s.entries[b][p], i))
    && (forall i :: 0 <= i < max && i in s.tables[p] && i !in t0 ==>
          exists a :: 0 <= a < |allocs| && Holds(s.entries[a][p], i))
  }

  ghost predicate RegistryInv(v: Variant, allocs: seq<Allocation>, s: System, p: nat)
    requires WellFormed(allocs, s) && p < |s.tables|
  {
    && StrictlySorted(s.registered[p])
    && (forall c :: c in s.registered[p] ==>
          exists a :: 0 <= a < |allocs| && Active(v, s.entries[a][p]) && allocs[a].cid == c)
    && (forall a :: 0 <= a < |allocs| && Active(v, s.entries[a][p]) ==> allocs[a].cid in s.registered[p])
    && (forall a, b :: 0 <= a < b < |allocs| && Active(v, s.entries[a][p]) && Active(v, s.entries[b][p]) ==>
          allocs[a].cid != allocs[b].cid)
  }

  ghost predicate EClaiming(e: Entry) {
    e.Absent? || e.local.Ready? || e.local.Proposed? || (e.local.Tallied? && !e.local.verdict)
  }

  ghost predicate EVoting(e: Entry, next: nat) {
    && e.Entered?
    && ((e.local.Reduced? && e.local.next == next) || (e.local.Voted? && e.local.next == next) || e.local.Failed?)
  }

  ghost predicate ECommitting(e: Entry, next: nat) {
    && e.Entered?
    && ((e.local.Tallied? && e.local.verdict && e.local.next == next) || e.local == Won(next))
  }

  ghost predicate PhaseInv(allocs: seq<Allocation>, s: System, a: nat)
    requires WellFormed(allocs, s) && a < |allocs|
  {
    || (forall p :: p in allocs[a].members ==> EClaiming(s.entries[a][p]))
    || (exists next :: EveryoneVoting(allocs, s, a, next))
    || (exists next :: EveryoneCommitting(allocs, s, a, next))
  }

  ghost predicate EveryoneVoting(allocs: seq<Allocation>, s: System, a: nat, next: nat)
    requires WellFormed(allocs, s) && a < |allocs|
  {
    forall p :: p in allocs[a].members ==> EVoting(s.entries[a][p], next)
  }

  ghost predicate EveryoneCommitting(allocs: seq<Allocation>, s: System, a: nat, next: nat)
    requires WellFormed(allocs, s) && a < |allocs|
  {
    forall p :: p in allocs[a].members ==> ECommitting(s.entries[a][p], next)
  }

  ghost predicate SysInv(v: Variant, max: nat, allocs: seq<Allocation>, tables0: seq<Table>, s: System) {
    && WellFormed(allocs, s) && |tables0| == |s.tables|
    && (forall a, p :: 0 <= a < |allocs| && 0 <= p < |s.tables| ==> EntryInv(max, s.entries[a][p]))
    && (forall a, p :: 0 <= a < |allocs| && 0 <= p < |s.tables| && p !in allocs[a].members ==> s.entries[a][p].Absent?)
    && (forall p :: 0 <= p < |s.tables| ==> SlotInv(max, allocs, tables0[p], s, p))
    && (forall p :: 0 <= p < |s.tables| ==> RegistryInv(v, allocs, s, p))
    && (forall a :: 0 <= a < |allocs| ==> PhaseInv(allocs, s, a))
  }

  // ---------------------------------------------------------------------------
  // Slots
  // ---------------------------------------------------------------------------

  /** A table changes only at slots the acting allocation holds before or after, a slot it
      takes was free, and a slot it gives up is free again. */
  ghost predicate Effect(max: nat, t: Table, e: Entry, t2: Table, e2: Entry) {
    forall i {:trigger i in t} {:trigger i in t2} {:trigger Holds(e, i)} {:trigger Holds(e2, i)} :: 0 <= i < max ==>
      if Holds(e2, i) then i in t2 && (!Holds(e, i) ==> i !in t)
      else if Holds(e, i) then i !in t2
      else (i in t2 <==> i in t) && (i in t ==> t2[i] == t[i])
  }

  lemma AdvanceEffect(v: Variant, max: nat, p: Proc)
    requires p.local.Ready? || p.local.Reduced? || p.local.Tallied?
    requires EntryInv(max, Entered(p.local))
    requires forall i :: 0 <= i < max && Holds(Entered(p.local), i) ==> i in p.table
    ensures EntryInv(max, Entered(Advance(v, max, p).local))
    ensures Effect(max, p.table, Entered(p.local), Advance(v, max, p).table, Entered(Advance(v, max, p).local))
  {
  }

  lemma SlotsFollow(max: nat, allocs: seq<Allocation>, t0: Table, s: System, s2: System, a: nat, p: nat)
    requires WellFormed(allocs, s) && WellFormed(allocs, s2) && |s.tables| == |s2.tables|
    requires p < |s.tables| && a < |allocs| && SlotInv(max, allocs, t0, s, p)
    requires Effect(max, s.tables[p], s.entries[a][p], s2.tables[p], s2.entries[a][p])
    requires forall b :: 0 <= b < |allocs| && b != a ==> s2.entries[b][p] == s.entries[b][p]
    ensures SlotInv(max, allocs, t0, s2, p)
  {
    forall i | 0 <= i < max && i in s2.tables[p] && i !in t0
      ensures exists b :: 0 <= b < |allocs| && Holds(s2.entries[b][p], i)
    {
      if !Holds(s2.entries[a][p], i) {
        var b :| 0 <= b < |allocs| && Holds(s.entries[b][p], i);
        assert b != a && Holds(s2.entries[b][p], i);
      }
    }
  }

  // ---------------------------------------------------------------------------
  // Registration and phases
  // ---------------------------------------------------------------------------

  lemma RegistryFollows(v: Variant, allocs: seq<Allocation>, s: System, s2: System, a: nat, p: nat)
    requires WellFormed(allocs, s) && WellFormed(allocs, s2) && |s.tables| == |s2.tables|
    requires p < |s.tables| && a < |allocs| && RegistryInv(v, allocs, s, p)
    requires forall b :: 0 <= b < |allocs| && b != a ==> s2.entries[b][p] == s.entries[b][p]
    requires
      || (Active(v, s.entries[a][p]) == Active(v, s2.entries[a][p]) && s2.registered[p] == s.registered[p])
      || (!Active(v, s.entries[a][p]) && Active(v, s2.entries[a][p]) && allocs[a].cid !in s.registered[p] &&
          s2.registered[p] == Inserted(s.registered[p], allocs[a].cid))
      || (Active(v, s.entries[a][p]) && !Active(v, s2.entries[a][p]) &&
          s2.registered[p] == Removed(s.registered[p], allocs[a].cid))
    ensures RegistryInv(v, allocs, s2, p)
  {
    InsertedSorted(s.registered[p], allocs[a].cid);
    InsertedElements(s.registered[p], allocs[a].cid);
    RemovedSorted(s.registered[p], allocs[a].cid);
    forall c | c in s2.registered[p]
      ensures exists b :: 0 <= b < |allocs| && Active(v, s2.entries[b][p]) && allocs[b].cid == c
    {
      if c in s.registered[p] {
        var b :| 0 <= b < |allocs| && Active(v, s.entries[b][p]) && allocs[b].cid == c;
        assert Active(v, s2.entries[b][p]);
      } else {
        assert Active(v, s2.entries[a][p]) && allocs[a].cid == c;
      }
    }
  }

  lemma PhaseUnaffected(allocs: seq<Allocation>, s: System, s2: System, b: nat)
    requires WellFormed(allocs, s) && WellFormed(allocs, s2)
    requires b < |allocs| && s2.entries[b] == s.entries[b] && PhaseInv(allocs, s, b)
    ensures PhaseInv(allocs, s2, b)
  {
    if next :| EveryoneVoting(allocs, s, b, next) {
      assert EveryoneVoting(allocs, s2, b, next);
    } else if next :| EveryoneCommitting(allocs, s, b, next) {
      assert EveryoneCommitting(allocs, s2, b, next);
    }
  }

  lemma PhaseAfterAct(v: Variant, max: nat, allocs: seq<Allocation>, s: System, s2: System, a: nat, p: nat)
    requires WellFormed(allocs, s) && Can(v, allocs, s, Act(a, p)) && Does(v, max, allocs, s, Act(a, p), s2)
    requires PhaseInv(allocs, s, a)
    ensures PhaseInv(allocs, s2, a)
  {
    var l := s.entries[a][p].local;
    assert p in allocs[a].members;
    if l.Reduced? {
      var next :| EveryoneVoting(allocs, s, a, next);
      assert EveryoneVoting(allocs, s2, a, next);
    } else if l.Tallied? && l.verdict {
      var next :| EveryoneCommitting(allocs, s, a, next);
      assert EveryoneCommitting(allocs, s2, a, next);
    } else {
      assert forall q :: q in allocs[a].members ==> EClaiming(s2.entries[a][q]);
    }
  }

  lemma PhaseAfterReduction(v: Variant, max: nat, allocs: seq<Allocation>, s: System, s2: System, act: Action)
    requires WellFormed(allocs, s) && Can(v, allocs, s, act) && Does(v, max, allocs, s, act, s2)
    requires act.ReduceMax? || act.ReduceMin?
    requires PhaseInv(allocs, s, act.a)
    ensures PhaseInv(allocs, s2, act.a)
  {
    var a := act.a;
    var p :| p in allocs[a].members;
    if act.ReduceMax? {
      var next :| IsMaximum(s, a, allocs[a].members, next) && Delivered(v, allocs, s, a, next, s2);
      assert EveryoneVoting(allocs, s2, a, next);
    } else {
      var next :| EveryoneVoting(allocs, s, a, next);
      var verdict := forall p :: p in allocs[a].members ==> s.entries[a][p].local.response;
      if verdict {
        assert EveryoneCommitting(allocs, s2, a, next);
      } else {
        assert forall q :: q in allocs[a].members ==> EClaiming(s2.entries[a][q]);
      }
    }
  }

  // ---------------------------------------------------------------------------
  // Every action keeps the invariant
  // ---------------------------------------------------------------------------

  lemma EnterKeepsInv(v: Variant, max: nat, allocs: seq<Allocation>, tables0: seq<Table>, s: System, s2: System,
                      a: nat, p: nat, start: nat)
    requires SysInv(v, max, allocs, tables0, s)
    requires Can(v, allocs, s, Enter(a, p, start)) && Does(v, max, allocs, s, Enter(a, p, start), s2)
    ensures SysInv(v, max, allocs, tables0, s2)
  {
    assert SlotInv(max, allocs, tables0[p], s, p) && RegistryInv(v, allocs, s, p);
    forall q | 0 <= q < |s.tables|
      ensures SlotInv(max, allocs, tables0[q], s2, q) && RegistryInv(v, allocs, s2, q)
    {
      assert SlotInv(max, allocs, tables0[q], s, q) && RegistryInv(v, allocs, s, q);
      SlotsFollow(max, allocs, tables0[q], s, s2, a, q);
      RegistryFollows(v, allocs, s, s2, a, q);
    }
    assert EClaiming(s2.entries[a][p]);
    forall b | 0 <= b < |allocs|
      ensures PhaseInv(allocs, s2, b)
    {
      if b != a {
        PhaseUnaffected(allocs, s, s2, b);
      } else {
        assert PhaseInv(allocs, s, a) && EClaiming(s.entries[a][p]);
        assert forall q :: q in allocs[a].members ==> EClaiming(s2.entries[a][q]);
      }
    }
  }

  lemma ActKeepsInv(v: Variant, max: nat, allocs: seq<Allocation>, tables0: seq<Table>, s: System, s2: System,
                    a: nat, p: nat)
    requires SysInv(v, max, allocs, tables0, s)
    requires Can(v, allocs, s, Act(a, p)) && Does(v, max, allocs, s, Act(a, p), s2)
    ensures SysInv(v, max, allocs, tables0, s2)
  {
    var before := View(allocs[a], s.tables[p], s.entries[a][p].local);
    assert SlotInv(max, allocs, tables0[p], s, p) && EntryInv(max, s.entries[a][p]);
    assert Entered(before.local) == s.entries[a][p];
    forall i | 0 <= i < max && Holds(Entered(before.local), i)
      ensures i in before.table
    {
      assert Holds(s.entries[a][p], i);
    }
    AdvanceEffect(v, max, before);
    forall q | 0 <= q < |s.tables|
      ensures SlotInv(max, allocs, tables0[q], s2, q) && RegistryInv(v, allocs, s2, q)
    {
      assert SlotInv(max, allocs, tables0[q], s, q) && RegistryInv(v, allocs, s, q);
      SlotsFollow(max, allocs, tables0[q], s, s2, a, q);
      RegistryFollows(v, allocs, s, s2, a, q);
    }
    forall b | 0 <= b < |allocs|
      ensures PhaseInv(allocs, s2, b)
    {
      assert PhaseInv(allocs, s, b);
      if b != a {
        PhaseUnaffected(allocs, s, s2, b);
      } else {
        PhaseAfterAct(v, max, allocs, s, s2, a, p);
      }
    }
  }

  lemma MaxReductionLocal(v: Variant, max: nat, alloc: Allocation, t: Table, l: Local, next: nat)
    requires l.Proposed? && l.mine <= next <= max && EntryInv(max, Entered(l))
    ensures var e := Entered(ReceiveMax(v, View(alloc, t, l), next).local);
            && EntryInv(max, e) && Active(v, e)
            && forall i :: 0 <= i < max ==> Holds(e, i) == Holds(Entered(l), i)
  {
  }

  lemma MinReductionLocal(v: Variant, max: nat, alloc: Allocation, t: Table, l: Local, verdict: bool)
    requires l.Voted? && (verdict ==> l.response) && EntryInv(max, Entered(l))
    ensures var e := Entered(ReceiveMin(View(alloc, t, l), verdict).local);
            && EntryInv(max, e) && Active(v, e)
            && forall i :: 0 <= i < max ==> Holds(e, i) == Holds(Entered(l), i)
  {
  }

  /** A reduction touches no table and changes nobody's holdings. */
  lemma ReductionLocal(v: Variant, max: nat, allocs: seq<Allocation>, tables0: seq<Table>, s: System, s2: System,
                       act: Action, q: nat)
    requires SysInv(v, max, allocs, tables0, s) && q < |s.tables|
    requires act.ReduceMax? || act.ReduceMin?
    requires Can(v, allocs, s, act) && Does(v, max, allocs, s, act, s2)
    ensures s2.registered == s.registered
    ensures forall b :: 0 <= b < |allocs| && b != act.a ==> s2.entries[b] == s.entries[b]
    ensures EntryInv(max, s2.entries[act.a][q])
    ensures Active(v, s2.entries[act.a][q]) == Active(v, s.entries[act.a][q])
    ensures forall i :: 0 <= i < max ==> Holds(s2.entries[act.a][q], i) == Holds(s.entries[act.a][q], i)
  {
    var a := act.a;
    var e := s.entries[a][q];
    assert EntryInv(max, e);
    if act.ReduceMax? {
      var next :| IsMaximum(s, a, allocs[a].members, next) && Delivered(v, allocs, s, a, next, s2);
      var r :| r in allocs[a].members && s.entries[a][r].local.mine == next;
      assert EntryInv(max, s.entries[a][r]);
      if q in allocs[a].members {
        MaxReductionLocal(v, max, allocs[a], s.tables[q], e.local, next);
      }
    } else if q in allocs[a].members {
      var verdict := forall p :: p in allocs[a].members ==> s.entries[a][p].local.response;
      MinReductionLocal(v, max, allocs[a], s.tables[q], e.local, verdict);
    }
  }

  lemma ReductionKeepsInv(v: Variant, max: nat, allocs: seq<Allocation>, tables0: seq<Table>, s: System, s2: System,
                          act: Action)
    requires SysInv(v, max, allocs, tables0, s)
    requires act.ReduceMax? || act.ReduceMin?
    requires Can(v, allocs, s, act) && Does(v, max, allocs, s, act, s2)
    ensures SysInv(v, max, allocs, tables0, s2)
  {
    var a := act.a;
    forall q | 0 <= q < |s.tables|
      ensures SlotInv(max, allocs, tables0[q], s2, q) && RegistryInv(v, allocs, s2, q)
      ensures EntryInv(max, s2.entries[a][q])
      ensures forall b :: 0 <= b < |allocs| && b != a ==> s2.entries[b] == s.entries[b]
    {
      assert SlotInv(max, allocs, tables0[q], s, q) && RegistryInv(v, allocs, s, q);
      ReductionLocal(v, max, allocs, tables0, s, s2, act, q);
      SlotsFollow(max, allocs, tables0[q], s, s2, a, q);
      RegistryFollows(v, allocs, s, s2, a, q);
    }
    forall b | 0 <= b < |allocs|
      ensures PhaseInv(allocs, s2, b)
    {
      assert PhaseInv(allocs, s, b);
      if b != a {
        PhaseUnaffected(allocs, s, s2, b);
      } else {
        PhaseAfterReduction(v, max, allocs, s, s2, act);
      }
    }
    forall b, p | 0 <= b < |allocs| && 0 <= p < |s.tables|
      ensures EntryInv(max, s2.entries[b][p])
      ensures p !in allocs[b].members ==> s2.entries[b][p].Absent?
    {
      assert EntryInv(max, s.entries[b][p]);
      if b == a && p !in allocs[a].members {
        assert s.entries[a][p].Absent?;
        assert s2.entries[a][p] == s.entries[a][p] by {
          if act.ReduceMax? {
            var next :| IsMaximum(s, a, allocs[a].members, next) && Delivered(v, allocs, s, a, next, s2);
          }
        }
      }
    }
  }

  // ---------------------------------------------------------------------------
  // Main results
  // ---------------------------------------------------------------------------

  ghost predicate Start(allocs: seq<Allocation>, tables0: seq<Table>, s: System) {
    && WellFormed(allocs, s) && s.tables == tables0
    && (forall p :: 0 <= p < |s.tables| ==> s.registered[p] == [])
    && (forall a, p :: 0 <= a < |allocs| && 0 <= p < |s.tables| ==> s.entries[a][p].Absent?)
  }

  ghost predicate Stepped(v: Variant, max: nat, allocs: seq<Allocation>, s: System, s2: System) {
    WellFormed(allocs, s) && exists act :: Can(v, allocs, s, act) && Does(v, max, allocs, s, act, s2)
  }

  ghost predicate IsHistory(v: Variant, max: nat, allocs: seq<Allocation>, h: seq<System>) {
    |h| > 0 && forall k :: 0 < k < |h| ==> Stepped(v, max, allocs, h[k - 1], h[k])
  }

  lemma ActionKeepsInv(v: Variant, max: nat, allocs: seq<Allocation>, tables0: seq<Table>, s: System, s2: System)
    requires SysInv(v, max, allocs, tables0, s) && Stepped(v, max, allocs, s, s2)
    ensures SysInv(v, max, allocs, tables0, s2)
  {
    var act :| Can(v, allocs, s, act) && Does(v, max, allocs, s, act, s2);
    match act
    case Enter(a, p, start) => EnterKeepsInv(v, max, allocs, tables0, s, s2, a, p, start);
    case Act(a, p) => ActKeepsInv(v, max, allocs, tables0, s, s2, a, p);
    case ReduceMax(a) => ReductionKeepsInv(v, max, allocs, tables0, s, s2, act);
    case ReduceMin(a) => ReductionKeepsInv(v, max, allocs, tables0, s, s2, act);
  }

  /** Whatever the interleaving of allocations, processes and reductions: at each process
      every slot below the maximum is occupied exactly when it was from the start or one
      single allocation holds it, and the registration list is the sorted list of the
      parent ids of the allocations under way. */
  lemma {:induction false} Reachable(v: Variant, max: nat, allocs: seq<Allocation>, tables0: seq<Table>, h: seq<System>)
    requires IsHistory(v, max, allocs, h) && Start(allocs, tables0, h[0])
    ensures SysInv(v, max, allocs, tables0, h[|h| - 1])
  {
    var n := |h| - 1;
    if n == 0 {
      forall a | 0 <= a < |allocs|
        ensures PhaseInv(allocs, h[0], a)
      {
        assert forall p :: p in allocs[a].members ==> EClaiming(h[0].entries[a][p]);
      }
    } else {
      Reachable(v, max, allocs, tables0, h[..n]);
      assert Stepped(v, max, allocs, h[n - 1], h[n]);
      ActionKeepsInv(v, max, allocs, tables0, h[n - 1], h[n]);
    }
  }

  /** Two allocations that share a process never commit the same id below the maximum. */
  lemma NoSharedId(v: Variant, max: nat, allocs: seq<Allocation>, tables0: seq<Table>, h: seq<System>,
                   a: nat, b: nat, p: nat, id: nat)
    requires IsHistory(v, max, allocs, h) && Start(allocs, tables0, h[0])
    requires a < |allocs| && b < |allocs| && a != b && p < |tables0|
    requires var s := h[|h| - 1];
             WellFormed(allocs, s) && |s.tables| == |tables0| && s.entries[a][p] == Entered(Won(id)) && id < max
    ensures h[|h| - 1].entries[b][p] != Entered(Won(id))
    ensures id !in tables0[p]
  {
    Reachable(v, max, allocs, tables0, h);
    var s := h[|h| - 1];
    assert SlotInv(max, allocs, tables0[p], s, p);
    assert Holds(s.entries[a][p], id);
    assert !Holds(s.entries[b][p], id);
  }

  /** All members that commit one allocation commit the same id. */
  lemma MembersAgree(v: Variant, max: nat, allocs: seq<Allocation>, tables0: seq<Table>, h: seq<System>,
                     a: nat, p: nat, q: nat, id: nat, other: nat)
    requires IsHistory(v, max, allocs, h) && Start(allocs, tables0, h[0])
    requires a < |allocs| && p in allocs[a].members && q in allocs[a].members
    requires var s := h[|h| - 1];
             && WellFormed(allocs, s)
             && s.entries[a][p] == Entered(Won(id)) && s.entries[a][q] == Entered(Won(other))
    ensures id == other
  {
    Reachable(v, max, allocs, tables0, h);
    var s := h[|h| - 1];
    assert PhaseInv(allocs, s, a);
    assert !EClaiming(s.entries[a][p]);
    if next :| EveryoneCommitting(allocs, s, a, next) {
      assert ECommitting(s.entries[a][p], next) && ECommitting(s.entries[a][q], next);
    }
  }

  /** One action of one allocation leaves every slot it does not hold, before or after, as it was:
      in particular nobody else's slot is ever cleared. */
  lemma OnlyOwnSlots(v: Variant, max: nat, allocs: seq<Allocation>, tables0: seq<Table>, h: seq<System>,
                     act: Action, s2: System, p: nat, i: nat)
    requires IsHistory(v, max, allocs, h) && Start(allocs, tables0, h[0])
    requires WellFormed(allocs, h[|h| - 1]) && |h[|h| - 1].tables| == |tables0|
    requires Can(v, allocs, h[|h| - 1], act) && Does(v, max, allocs, h[|h| - 1], act, s2)
    requires p < |tables0| && i < max
    requires !Holds(h[|h| - 1].entries[act.a][p], i) && !Holds(s2.entries[act.a][p], i)
    ensures (i in s2.tables[p]) == (i in h[|h| - 1].tables[p])
    ensures i in s2.tables[p] ==> s2.tables[p][i] == h[|h| - 1].tables[p][i]
  {
    Reachable(v, max, allocs, tables0, h);
    var s := h[|h| - 1];
    if act.Act? && act.p == p {
      var before := View(allocs[act.a], s.tables[p], s.entries[act.a][p].local);
      assert SlotInv(max, allocs, tables0[p], s, p) && EntryInv(max, s.entries[act.a][p]);
      assert Entered(before.local) == s.entries[act.a][p];
      forall j | 0 <= j < max && Holds(Entered(before.local), j)
        ensures j in before.table
      {
        assert Holds(s.entries[act.a][p], j);
      }
      AdvanceEffect(v, max, before);
    }
  }

  /** Every member has entered every allocation, and no process has run out of ids. */
  ghost predicate UnderWay(allocs: seq<Allocation>, s: System)
    requires WellFormed(allocs, s)
  {
    && (forall a :: 0 <= a < |allocs| ==> allocs[a].members != {})
    && (forall a, p :: 0 <= a < |allocs| && p in allocs[a].members ==>
          s.entries[a][p].Entered? && !s.entries[a][p].local.Failed?)
  }

  ghost predicate Finished(allocs: seq<Allocation>, s: System, a: nat)
    requires WellFormed(allocs, s) && a < |allocs|
  {
    forall p :: p in allocs[a].members ==> s.entries[a][p].Entered? && s.entries[a][p].local.Won?
  }

  /** The registration gate cannot deadlock: while some allocation is unfinished, the
      unfinished one with the least parent id can take a step. */
  lemma GateNeverDeadlocks(v: Variant, max: nat, allocs: seq<Allocation>, tables0: seq<Table>, h: seq<System>, a: nat)
    requires IsHistory(v, max, allocs, h) && Start(allocs, tables0, h[0])
    requires WellFormed(allocs, h[|h| - 1]) && UnderWay(allocs, h[|h| - 1])
    requires a < |allocs| && !Finished(allocs, h[|h| - 1], a)
    requires forall b :: 0 <= b < |allocs| && !Finished(allocs, h[|h| - 1], b) ==> allocs[a].cid <= allocs[b].cid
    ensures exists act: Action :: act.a == a && Can(v, allocs, h[|h| - 1], act)
  {
    var s := h[|h| - 1];
    Reachable(v, max, allocs, tables0, h);
    assert PhaseInv(allocs, s, a);
    if p :| p in allocs[a].members && s.entries[a][p].local.Ready? {
      LeastIsAtHead(v, max, allocs, tables0, s, a, p);
      assert Can(v, allocs, s, Act(a, p));
    } else if p :| p in allocs[a].members && (s.entries[a][p].local.Reduced? || s.entries[a][p].local.Tallied?) {
      assert Can(v, allocs, s, Act(a, p));
    } else if forall p :: p in allocs[a].members ==> EClaiming(s.entries[a][p]) {
      assert Can(v, allocs, s, ReduceMax(a));
    } else if next :| EveryoneVoting(allocs, s, a, next) {
      assert Can(v, allocs, s, ReduceMin(a));
    } else {
      assert false;
    }
  }

  lemma LeastIsAtHead(v: Variant, max: nat, allocs: seq<Allocation>, tables0: seq<Table>, s: System, a: nat, p: nat)
    requires SysInv(v, max, allocs, tables0, s) && UnderWay(allocs, s)
    requires a < |allocs| && p in allocs[a].members && Active(v, s.entries[a][p])
    requires forall b :: 0 <= b < |allocs| && !Finished(allocs, s, b) ==> allocs[a].cid <= allocs[b].cid
    ensures s.registered[p] != [] && s.registered[p][0] == allocs[a].cid
  {
    var list := s.registered[p];
    assert RegistryInv(v, allocs, s, p);
    assert allocs[a].cid in list;
    assert list[0] in list;
    var b :| 0 <= b < |allocs| && Active(v, s.entries[b][p]) && allocs[b].cid == list[0];
    assert p in allocs[b].members;
    assert !Finished(allocs, s, b);
  }

  // ---------------------------------------------------------------------------
  // Every interleaving ends
  // ---------------------------------------------------------------------------

  /** A search begins at or below what it finds, and a vote against the candidate is not cast
      at the maximum. */
  ghost predicate SearchInv(v: Variant, max: nat, e: Entry) {
    e.Entered? ==>
      match e.local
      case Proposed(start, mine, flag) => start <= mine || mine == max
      case Reduced(start, mine, flag, next) => (start <= mine || mine == max) && (v.NonBlocking? ==> flag)
      case Voted(start, next, response) =>
        && (start <= next || (v.Blocking? && next == max))
        && (v.Blocking? && next == max ==> response)
      case _ => true
  }

  /** The member that proposed the candidate, or one that gave up. */
  ghost predicate Proposing(e: Entry, next: nat) {
    && e.Entered?
    && (e.local.Failed? || (e.local.Reduced? && e.local.mine == next) || (e.local.Voted? && e.local.response))
  }

  ghost predicate SomeoneProposed(allocs: seq<Allocation>, s: System, a: nat, next: nat)
    requires WellFormed(allocs, s) && a < |allocs|
  {
    exists p :: p in allocs[a].members && Proposing(s.entries[a][p], next)
  }

  ghost predicate ProposedInv(allocs: seq<Allocation>, s: System, a: nat)
    requires WellFormed(allocs, s) && a < |allocs|
  {
    allocs[a].members != {} ==> forall next :: EveryoneVoting(allocs, s, a, next) ==> SomeoneProposed(allocs, s, a, next)
  }

  ghost predicate EndInv(v: Variant, max: nat, allocs: seq<Allocation>, s: System)
    requires WellFormed(allocs, s)
  {
    && (forall a, p :: 0 <= a < |allocs| && 0 <= p < |s.tables| ==> SearchInv(v, max, s.entries[a][p]))
    && forall a :: 0 <= a < |allocs| ==> ProposedInv(allocs, s, a)
  }

  /** What one entry may still cost: ids to propose, and steps in this round. */
  function EntryCredit(v: Variant, max: nat, e: Entry): nat {
    match e
    case Absent => max + 1
    case Entered(l) => Credit(v, max, Proc(map[], l, 0, 0))
  }

  function EntryRank(e: Entry): (r: nat)
    ensures r <= 7
  {
    match e
    case Absent => 7
    case Entered(l) => Rank(Proc(map[], l, 0, 0))
  }

  function RowCredits(v: Variant, max: nat, row: seq<Entry>): seq<nat> {
    seq(|row|, p requires 0 <= p < |row| => EntryCredit(v, max, row[p]))
  }

  function RowRanks(row: seq<Entry>): seq<nat> {
    seq(|row|, p requires 0 <= p < |row| => EntryRank(row[p]))
  }

  function RowMeasure(v: Variant, max: nat, row: seq<Entry>): nat {
    Sum(RowCredits(v, max, row)) * (7 * |row| + 1) + Sum(RowRanks(row))
  }

  function Rows(v: Variant, max: nat, s: System): seq<nat> {
    seq(|s.entries|, a requires 0 <= a < |s.entries| => RowMeasure(v, max, s.entries[a]))
  }

  function SystemMeasure(v: Variant, max: nat, s: System): nat {
    Sum(Rows(v, max, s))
  }

  ghost predicate NoDearer(v: Variant, max: nat, e: Entry, e2: Entry) {
    EntryCredit(v, max, e2) <= EntryCredit(v, max, e)
  }

  /** A row gets cheaper when no entry gets a higher credit and one a lower one, or no entry a higher
      rank and one a lower one. */
  lemma {:induction false} RowDrops(v: Variant, max: nat, row: seq<Entry>, row2: seq<Entry>, p: nat)
    requires |row| == |row2| && p < |row| && forall q :: 0 <= q < |row| ==> NoDearer(v, max, row[q], row2[q])
    requires
      || EntryCredit(v, max, row2[p]) < EntryCredit(v, max, row[p])
      || (EntryRank(row2[p]) < EntryRank(row[p]) && forall q :: 0 <= q < |row| ==> EntryRank(row2[q]) <= EntryRank(row[q]))
    ensures RowMeasure(v, max, row2) < RowMeasure(v, max, row)
  {
    var (c, c2, r, r2) := (RowCredits(v, max, row), RowCredits(v, max, row2), RowRanks(row), RowRanks(row2));
    assert forall q :: 0 <= q < |row| ==> NoDearer(v, max, row[q], row2[q]) && c2[q] <= c[q];
    SumMonotone(c2, c);
    if c2[p] >= c[p] {
      assert r2[p] < r[p];
      SumMonotone(r2, r);
    }
    SumBound(r2, 7);
    Lexicographic(Sum(c), Sum(c2), 7 * |row| + 1, Sum(r), Sum(r2));
  }

  /** Only the row of the acting allocation changes. */
  lemma {:induction false} SystemDrops(v: Variant, max: nat, s: System, s2: System, a: nat)
    requires |s.entries| == |s2.entries| && a < |s.entries|
    requires forall b :: 0 <= b < |s.entries| && b != a ==> s2.entries[b] == s.entries[b]
    requires RowMeasure(v, max, s2.entries[a]) < RowMeasure(v, max, s.entries[a])
    ensures SystemMeasure(v, max, s2) < SystemMeasure(v, max, s)
  {
    assert Rows(v, max, s2)[a] < Rows(v, max, s)[a];
    SumMonotone(Rows(v, max, s2), Rows(v, max, s));
  }

  lemma {:induction false} AdvanceCost(v: Variant, max: nat, p: Proc)
    requires p.local.Ready? || p.local.Reduced? || p.local.Tallied?
    requires EntryInv(max, Entered(p.local)) && SearchInv(v, max, Entered(p.local))
    ensures var e := Entered(Advance(v, max, p).local);
            && SearchInv(v, max, e) && NoDearer(v, max, Entered(p.local), e) && EntryRank(e) < EntryRank(Entered(p.local))
  {
  }

  /** What a reduction does to the entry of a member. */
  lemma {:induction false} MaxCost(v: Variant, max: nat, alloc: Allocation, t: Table, l: Local, next: nat)
    requires l.Proposed? && l.mine <= next <= max && EntryInv(max, Entered(l)) && SearchInv(v, max, Entered(l))
    ensures var e := Entered(ReceiveMax(v, View(alloc, t, l), next).local);
            && SearchInv(v, max, e) && NoDearer(v, max, Entered(l), e) && EntryRank(e) < EntryRank(Entered(l))
            && (l.mine == next ==> Proposing(e, next))
  {
  }

  lemma {:induction false} MinCost(v: Variant, max: nat, alloc: Allocation, t: Table, l: Local, verdict: bool)
    requires l.Voted? && EntryInv(max, Entered(l)) && SearchInv(v, max, Entered(l))
    requires !verdict ==> !(v.Blocking? && l.next == max)
    ensures var e := Entered(ReceiveMin(View(alloc, t, l), verdict).local);
            && SearchInv(v, max, e) && NoDearer(v, max, Entered(l), e)
            && (verdict ==> EntryRank(e) < EntryRank(Entered(l)))
            && (!verdict && l.response ==> EntryCredit(v, max, e) < EntryCredit(v, max, Entered(l)))
  {
  }

  lemma {:induction false} ProposedUnaffected(allocs: seq<Allocation>, s: System, s2: System, b: nat)
    requires WellFormed(allocs, s) && WellFormed(allocs, s2) && b < |allocs| && s2.entries[b] == s.entries[b]
    requires ProposedInv(allocs, s, b)
    ensures ProposedInv(allocs, s2, b)
  {
    if allocs[b].members != {} {
      forall next | EveryoneVoting(allocs, s2, b, next)
        ensures SomeoneProposed(allocs, s2, b, next)
      {
        assert EveryoneVoting(allocs, s, b, next);
        assert SomeoneProposed(allocs, s, b, next);
        var p :| p in allocs[b].members && Proposing(s.entries[b][p], next);
        assert Proposing(s2.entries[b][p], next);
      }
    }
  }

  ghost predicate StaysProposed(e: Entry, e2: Entry, next: nat) {
    Proposing(e2, next) || (EVoting(e, next) && !Proposing(e, next))
  }

  /** Only a member that checked the maximum is in the voting phase afterwards, and a proposer
      stays one. */
  lemma {:induction false} ProposedAfterOne(v: Variant, max: nat, allocs: seq<Allocation>, s: System, s2: System, a: nat, p: nat)
    requires WellFormed(allocs, s) && WellFormed(allocs, s2) && a < |allocs| && p in allocs[a].members
    requires s2.entries[a] == s.entries[a][p := s2.entries[a][p]] && ProposedInv(allocs, s, a)
    requires forall next :: EVoting(s2.entries[a][p], next) ==> StaysProposed(s.entries[a][p], s2.entries[a][p], next)
    ensures ProposedInv(allocs, s2, a)
  {
    forall next | EveryoneVoting(allocs, s2, a, next)
      ensures SomeoneProposed(allocs, s2, a, next)
    {
      assert EVoting(s2.entries[a][p], next);
      if !Proposing(s2.entries[a][p], next) {
        forall q | q in allocs[a].members
          ensures EVoting(s.entries[a][q], next)
        {
          assert EVoting(s2.entries[a][q], next);
        }
        assert EveryoneVoting(allocs, s, a, next);
        assert SomeoneProposed(allocs, s, a, next);
        var q :| q in allocs[a].members && Proposing(s.entries[a][q], next);
        assert Proposing(s2.entries[a][q], next);
      }
    }
  }

  /** Entering and local steps. */
  ghost predicate Ends(v: Variant, max: nat, allocs: seq<Allocation>, s: System, s2: System)
    requires WellFormed(allocs, s2)
  {
    EndInv(v, max, allocs, s2) && SystemMeasure(v, max, s2) < SystemMeasure(v, max, s)
  }

  lemma {:induction false} OneEntryEnds(v: Variant, max: nat, allocs: seq<Allocation>, s: System, s2: System, a: nat, p: nat, e2: Entry)
    requires WellFormed(allocs, s) && WellFormed(allocs, s2) && |s2.tables| == |s.tables| && EndInv(v, max, allocs, s)
    requires a < |allocs| && p in allocs[a].members && s2.entries == s.entries[a := s.entries[a][p := e2]]
    requires var e := s.entries[a][p];
             && SearchInv(v, max, e2) && NoDearer(v, max, e, e2) && EntryRank(e2) < EntryRank(e)
             && forall next :: EVoting(e2, next) ==> StaysProposed(e, e2, next)
    ensures Ends(v, max, allocs, s, s2)
  {
    var (row, row2) := (s.entries[a], s2.entries[a]);
    assert row2[p] == e2 && forall q :: 0 <= q < |row| && q != p ==> row2[q] == row[q];
    RowDrops(v, max, row, row2, p);
    SystemDrops(v, max, s, s2, a);
    ProposedAfterOne(v, max, allocs, s, s2, a, p);
    forall b | 0 <= b < |allocs|
      ensures ProposedInv(allocs, s2, b)
    {
      if b != a {
        ProposedUnaffected(allocs, s, s2, b);
      }
    }
  }

  lemma {:induction false} AdvanceVotes(v: Variant, max: nat, p: Proc, next: nat)
    requires p.local.Ready? || p.local.Reduced? || p.local.Tallied?
    requires EVoting(Entered(Advance(v, max, p).local), next)
    ensures StaysProposed(Entered(p.local), Entered(Advance(v, max, p).local), next)
  {
  }

  lemma {:induction false} ActEnds(v: Variant, max: nat, allocs: seq<Allocation>, tables0: seq<Table>, s: System, s2: System, a: nat, p: nat)
    requires SysInv(v, max, allocs, tables0, s) && EndInv(v, max, allocs, s)
    requires Can(v, allocs, s, Act(a, p)) && Does(v, max, allocs, s, Act(a, p), s2)
    ensures Ends(v, max, allocs, s, s2)
  {
    var before := View(allocs[a], s.tables[p], s.entries[a][p].local);
    assert Entered(before.local) == s.entries[a][p] && EntryInv(max, s.entries[a][p]) && SearchInv(v, max, s.entries[a][p]);
    AdvanceCost(v, max, before);
    var e2 := Entered(Advance(v, max, before).local);
    forall next | EVoting(e2, next)
      ensures StaysProposed(s.entries[a][p], e2, next)
    {
      AdvanceVotes(v, max, before, next);
    }
    OneEntryEnds(v, max, allocs, s, s2, a, p, e2);
  }

  lemma {:induction false} EnterEnds(v: Variant, max: nat, allocs: seq<Allocation>, s: System, s2: System, a: nat, p: nat, start: nat)
    requires WellFormed(allocs, s) && EndInv(v, max, allocs, s)
    requires Can(v, allocs, s, Enter(a, p, start)) && Does(v, max, allocs, s, Enter(a, p, start), s2)
    ensures Ends(v, max, allocs, s, s2)
  {
    OneEntryEnds(v, max, allocs, s, s2, a, p, Entered(Ready(start)));
  }

  /** The row of a reduction: no entry gets dearer, and every member is a step further. */
  lemma {:induction false} MaxRow(v: Variant, max: nat, allocs: seq<Allocation>, tables0: seq<Table>, s: System, s2: System, a: nat, next: nat, q: nat)
    requires SysInv(v, max, allocs, tables0, s) && EndInv(v, max, allocs, s) && q < |s.tables|
    requires Can(v, allocs, s, ReduceMax(a)) && WellFormed(allocs, s2) && |s2.tables| == |s.tables|
    requires IsMaximum(s, a, allocs[a].members, next) && Delivered(v, allocs, s, a, next, s2)
    ensures var (e, e2) := (s.entries[a][q], s2.entries[a][q]);
            && SearchInv(v, max, e2) && NoDearer(v, max, e, e2) && EntryRank(e2) <= EntryRank(e)
            && (q in allocs[a].members ==> EntryRank(e2) < EntryRank(e) && (e.local.mine == next ==> Proposing(e2, next)))
  {
    var r :| r in allocs[a].members && s.entries[a][r].local.mine == next;
    assert EntryInv(max, s.entries[a][r]);
    assert SearchInv(v, max, s.entries[a][q]) && EntryInv(max, s.entries[a][q]);
    if q in allocs[a].members {
      MaxCost(v, max, allocs[a], s.tables[q], s.entries[a][q].local, next);
    }
  }

  lemma {:induction false} MaxEnds(v: Variant, max: nat, allocs: seq<Allocation>, tables0: seq<Table>, s: System, s2: System, a: nat)
    requires SysInv(v, max, allocs, tables0, s) && EndInv(v, max, allocs, s)
    requires Can(v, allocs, s, ReduceMax(a)) && Does(v, max, allocs, s, ReduceMax(a), s2)
    ensures Ends(v, max, allocs, s, s2)
  {
    var next :| IsMaximum(s, a, allocs[a].members, next) && Delivered(v, allocs, s, a, next, s2);
    var r :| r in allocs[a].members && s.entries[a][r].local.mine == next;
    forall q | 0 <= q < |s.tables|
      ensures SearchInv(v, max, s2.entries[a][q]) && NoDearer(v, max, s.entries[a][q], s2.entries[a][q])
      ensures EntryRank(s2.entries[a][q]) <= EntryRank(s.entries[a][q])
    {
      MaxRow(v, max, allocs, tables0, s, s2, a, next, q);
    }
    MaxRow(v, max, allocs, tables0, s, s2, a, next, r);
    RowDrops(v, max, s.entries[a], s2.entries[a], r);
    ReductionEnds(v, max, allocs, s, s2, a, r);
  }

  /** A reduction after which member `r` is a proposer or no longer votes. */
  lemma {:induction false} ReductionEnds(v: Variant, max: nat, allocs: seq<Allocation>, s: System, s2: System, a: nat, r: nat)
    requires WellFormed(allocs, s) && WellFormed(allocs, s2) && |s2.tables| == |s.tables| && EndInv(v, max, allocs, s)
    requires a < |allocs| && r in allocs[a].members
    requires forall b :: 0 <= b < |allocs| && b != a ==> s2.entries[b] == s.entries[b]
    requires forall q :: 0 <= q < |s.tables| ==> SearchInv(v, max, s2.entries[a][q])
    requires forall next :: EVoting(s2.entries[a][r], next) ==> Proposing(s2.entries[a][r], next)
    requires RowMeasure(v, max, s2.entries[a]) < RowMeasure(v, max, s.entries[a])
    ensures Ends(v, max, allocs, s, s2)
  {
    SystemDrops(v, max, s, s2, a);
    forall next | EveryoneVoting(allocs, s2, a, next)
      ensures SomeoneProposed(allocs, s2, a, next)
    {
      assert EVoting(s2.entries[a][r], next);
    }
    OthersProposed(allocs, s, s2, a);
  }

  lemma {:induction false} OthersProposed(allocs: seq<Allocation>, s: System, s2: System, a: nat)
    requires WellFormed(allocs, s) && WellFormed(allocs, s2) && a < |allocs|
    requires forall b :: 0 <= b < |allocs| ==> ProposedInv(allocs, s, b)
    requires forall b :: 0 <= b < |allocs| && b != a ==> s2.entries[b] == s.entries[b]
    ensures forall b :: 0 <= b < |allocs| && b != a ==> ProposedInv(allocs, s2, b)
  {
    forall b | 0 <= b < |allocs| && b != a
      ensures ProposedInv(allocs, s2, b)
    {
      ProposedUnaffected(allocs, s, s2, b);
    }
  }

  /** A rejected candidate lies below the maximum, and whoever proposed it voted for it. */
  lemma {:induction false} Rejected(v: Variant, max: nat, allocs: seq<Allocation>, tables0: seq<Table>, s: System, a: nat) returns (r: nat)
    requires SysInv(v, max, allocs, tables0, s) && EndInv(v, max, allocs, s) && Can(v, allocs, s, ReduceMin(a))
    requires !(forall p :: p in allocs[a].members ==> s.entries[a][p].local.response)
    ensures r in allocs[a].members && s.entries[a][r].local.response
    ensures forall p :: p in allocs[a].members ==> !(v.Blocking? && s.entries[a][p].local.next == max)
  {
    var no :| no in allocs[a].members && !s.entries[a][no].local.response;
    assert PhaseInv(allocs, s, a) && !EClaiming(s.entries[a][no]) && !ECommitting(s.entries[a][no], 0);
    assert forall next :: !ECommitting(s.entries[a][no], next);
    var next :| EveryoneVoting(allocs, s, a, next);
    assert ProposedInv(allocs, s, a) && SomeoneProposed(allocs, s, a, next);
    r :| r in allocs[a].members && Proposing(s.entries[a][r], next);
    assert SearchInv(v, max, s.entries[a][no]);
    forall p | p in allocs[a].members
      ensures s.entries[a][p].local.next == s.entries[a][no].local.next
    {
      assert EVoting(s.entries[a][p], next) && EVoting(s.entries[a][no], next);
    }
  }

  lemma {:induction false} MinRow(v: Variant, max: nat, allocs: seq<Allocation>, tables0: seq<Table>, s: System, s2: System, a: nat, verdict: bool, q: nat)
    requires SysInv(v, max, allocs, tables0, s) && EndInv(v, max, allocs, s) && q < |s.tables|
    requires Can(v, allocs, s, ReduceMin(a)) && WellFormed(allocs, s2) && |s2.tables| == |s.tables|
    requires Announced(allocs, s, a, verdict, s2)
    requires !verdict ==> forall p :: p in allocs[a].members ==> !(v.Blocking? && s.entries[a][p].local.next == max)
    ensures var (e, e2) := (s.entries[a][q], s2.entries[a][q]);
            && SearchInv(v, max, e2) && NoDearer(v, max, e, e2) && (verdict ==> EntryRank(e2) <= EntryRank(e))
            && (q in allocs[a].members ==>
                  e2.Entered? && e2.local.Tallied?
                  && (verdict ==> EntryRank(e2) < EntryRank(e))
                  && (!verdict && e.local.response ==> EntryCredit(v, max, e2) < EntryCredit(v, max, e)))
  {
    assert SearchInv(v, max, s.entries[a][q]) && EntryInv(max, s.entries[a][q]);
    if q in allocs[a].members {
      MinCost(v, max, allocs[a], s.tables[q], s.entries[a][q].local, verdict);
    }
  }

  lemma {:induction false} MinEnds(v: Variant, max: nat, allocs: seq<Allocation>, tables0: seq<Table>, s: System, s2: System, a: nat)
    requires SysInv(v, max, allocs, tables0, s) && EndInv(v, max, allocs, s)
    requires Can(v, allocs, s, ReduceMin(a)) && Does(v, max, allocs, s, ReduceMin(a), s2)
    ensures Ends(v, max, allocs, s, s2)
  {
    var verdict := forall p :: p in allocs[a].members ==> s.entries[a][p].local.response;
    var r: nat :| r in allocs[a].members;
    if !verdict {
      r := Rejected(v, max, allocs, tables0, s, a);
    }
    forall q | 0 <= q < |s.tables|
      ensures SearchInv(v, max, s2.entries[a][q]) && NoDearer(v, max, s.entries[a][q], s2.entries[a][q])
      ensures verdict ==> EntryRank(s2.entries[a][q]) <= EntryRank(s.entries[a][q])
    {
      MinRow(v, max, allocs, tables0, s, s2, a, verdict, q);
    }
    MinRow(v, max, allocs, tables0, s, s2, a, verdict, r);
    RowDrops(v, max, s.entries[a], s2.entries[a], r);
    ReductionEnds(v, max, allocs, s, s2, a, r);
  }

  /** Every action of every interleaving lowers the measure. */
  lemma {:induction false} ActionEnds(v: Variant, max: nat, allocs: seq<Allocation>, tables0: seq<Table>, s: System, s2: System)
    requires SysInv(v, max, allocs, tables0, s) && EndInv(v, max, allocs, s) && Stepped(v, max, allocs, s, s2)
    ensures WellFormed(allocs, s2) && Ends(v, max, allocs, s, s2)
  {
    var act :| Can(v, allocs, s, act) && Does(v, max, allocs, s, act, s2);
    match act
    case Enter(a, p, start) => EnterEnds(v, max, allocs, s, s2, a, p, start);
    case Act(a, p) => ActEnds(v, max, allocs, tables0, s, s2, a, p);
    case ReduceMax(a) => MaxEnds(v, max, allocs, tables0, s, s2, a);
    case ReduceMin(a) => MinEnds(v, max, allocs, tables0, s, s2, a);
  }

  lemma {:induction false} HistoryEnds(v: Variant, max: nat, allocs: seq<Allocation>, tables0: seq<Table>, h: seq<System>)
    requires IsHistory(v, max, allocs, h) && Start(allocs, tables0, h[0])
    ensures WellFormed(allocs, h[|h| - 1]) && EndInv(v, max, allocs, h[|h| - 1])
    ensures SystemMeasure(v, max, h[|h| - 1]) + |h| - 1 <= SystemMeasure(v, max, h[0])
    decreases |h|
  {
    var n := |h| - 1;
    if n == 0 {
      forall a | 0 <= a < |allocs| && allocs[a].members != {}
        ensures ProposedInv(allocs, h[0], a)
      {
        var p :| p in allocs[a].members;
        assert h[0].entries[a][p].Absent?;
        assert forall next :: !EVoting(h[0].entries[a][p], next);
      }
    } else {
      HistoryEnds(v, max, allocs, tables0, h[..n]);
      Reachable(v, max, allocs, tables0, h[..n]);
      assert h[..n][0] == h[0] && h[..n][n - 1] == h[n - 1];
      assert Stepped(v, max, allocs, h[n - 1], h[n]);
      ActionEnds(v, max, allocs, tables0, h[n - 1], h[n]);
    }
  }

  /** No interleaving goes on for ever: its length is bounded by the numbers of allocations, of
      processes and of ids. */
  lemma {:induction false} InterleavingsEnd(v: Variant, max: nat, allocs: seq<Allocation>, tables0: seq<Table>, h: seq<System>)
    requires IsHistory(v, max, allocs, h) && Start(allocs, tables0, h[0])
    ensures |h| <= ((max + 1) * |tables0| * (7 * |tables0| + 1) + 7 * |tables0|) * |allocs| + 1
  {
    HistoryEnds(v, max, allocs, tables0, h);
    var (n, rows) := (|tables0|, Rows(v, max, h[0]));
    forall a | 0 <= a < |allocs|
      ensures rows[a] <= (max + 1) * n * (7 * n + 1) + 7 * n
    {
      FreshRow(v, max, h[0].entries[a]);
    }
    SumBound(rows, (max + 1) * n * (7 * n + 1) + 7 * n);
  }

  lemma {:induction false} FreshRow(v: Variant, max: nat, row: seq<Entry>)
    requires forall p :: 0 <= p < |row| ==> row[p].Absent?
    ensures RowMeasure(v, max, row) <= (max + 1) * |row| * (7 * |row| + 1) + 7 * |row|
  {
    SumBound(RowCredits(v, max, row), max + 1);
    SumBound(RowRanks(row), 7);
    var (c, b, k) := (Sum(RowCredits(v, max, row)), (max + 1) * |row|, 7 * |row| + 1);
    assert c * k <= b * k;
  }

  /** Allocations that share a process have different parents. */
  ghost predicate DistinctParents(allocs: seq<Allocation>) {
    forall a, b :: 0 <= a < b < |allocs| && allocs[a].cid == allocs[b].cid ==> allocs[a].members !! allocs[b].members
  }

  ghost predicate Over(v: Variant, allocs: seq<Allocation>, s: System)
    requires WellFormed(allocs, s)
  {
    forall act: Action :: !Can(v, allocs, s, act)
  }

  ghost predicate AllFinished(allocs: seq<Allocation>, s: System)
    requires WellFormed(allocs, s)
  {
    forall a :: 0 <= a < |allocs| ==> Finished(allocs, s, a)
  }

  /** Every interleaving that cannot go on, if no process ran out of ids, has finished every
      allocation. */
  lemma {:induction false} InterleavingsFinish(v: Variant, max: nat, allocs: seq<Allocation>, tables0: seq<Table>, h: seq<System>)
    requires IsHistory(v, max, allocs, h) && Start(allocs, tables0, h[0]) && DistinctParents(allocs)
    requires forall a :: 0 <= a < |allocs| ==> allocs[a].members != {}
    requires WellFormed(allocs, h[|h| - 1]) && Over(v, allocs, h[|h| - 1])
    requires forall a, p :: 0 <= a < |allocs| && p in allocs[a].members ==>
               h[|h| - 1].entries[a][p].Absent? || !h[|h| - 1].entries[a][p].local.Failed?
    ensures AllFinished(allocs, h[|h| - 1])
  {
    var s := h[|h| - 1];
    Reachable(v, max, allocs, tables0, h);
    forall a, p | 0 <= a < |allocs| && p in allocs[a].members
      ensures s.entries[a][p].Entered?
    {
      assert !Can(v, allocs, s, Enter(a, p, 0));
      if s.entries[a][p].Absent? {
        assert RegistryInv(v, allocs, s, p);
        var b :| 0 <= b < |allocs| && Active(v, s.entries[b][p]) && allocs[b].cid == allocs[a].cid;
      }
    }
    if a :| 0 <= a < |allocs| && !Finished(allocs, s, a) {
      var least := LeastUnfinished(allocs, s, a);
      GateNeverDeadlocks(v, max, allocs, tables0, h, least);
    }
  }

  lemma {:induction false} LeastUnfinished(allocs: seq<Allocation>, s: System, a: nat) returns (least: nat)
    requires WellFormed(allocs, s) && a < |allocs| && !Finished(allocs, s, a)
    ensures least < |allocs| && !Finished(allocs, s, least)
    ensures forall b :: 0 <= b < |allocs| && !Finished(allocs, s, b) ==> allocs[least].cid <= allocs[b].cid
    decreases allocs[a].cid
  {
    least := a;
    if b: nat :| b < |allocs| && !Finished(allocs, s, b) && allocs[b].cid < allocs[a].cid {
      least := LeastUnfinished(allocs, s, b);
    }
  }
}
