/** The engine that drives non-blocking communicator requests: the active list, and the progress
    function that visits every active request once.

    Callbacks run without the lock. They and other threads may create, extend and start requests,
    complete subrequests and re-enter the progress function: a callback is its result and a list
    of actions. */
module CommProgress {
  import opened CommRequest

  datatype Action =
    | Get(request: nat)
    | Append(request: nat, item: Item)
    | Start(request: nat)
    | Finish(subreq: nat)
    | Reenter

  datatype Effect = Effect(rc: int, actions: seq<Action>)

  // ---------------------------------------------------------------------------
  // The engine's state and steps, on values
  // ---------------------------------------------------------------------------

  /** `finished` are the subrequests that are complete, `hook` is
      ompi_comm_request_progress_active, `registered` counts the hook's registrations. */
  datatype World = World(requests: map<nat, Request>, active: seq<nat>, hook: bool, registered: nat, finished: set<nat>)

  ghost predicate Each<V(!new)>(m: map<nat, V>, f: V -> bool) {
    forall k :: k in m ==> f(m[k])
  }

  lemma {:induction false} EachPut<V(!new)>(m: map<nat, V>, f: V -> bool, k: nat, v: V)
    requires Each(m, f) && f(v)
    ensures Each(m[k := v], f)
  {
  }

  lemma {:induction false} EachWeaker<V(!new)>(m: map<nat, V>, f: V -> bool, g: V -> bool)
    requires Each(m, f) && forall v :: f(v) ==> g(v)
    ensures Each(m, g)
  {
  }

  ghost function IsOk(finished: set<nat>): Request -> bool {
    q => RequestOk(q, finished)
  }

  /** The active list holds every active request once. */
  ghost predicate ActiveOk(requests: map<nat, Request>, active: seq<nat>) {
    && (forall r :: r in active <==> r in requests && requests[r].state.Active?)
    && Distinct(active)
  }

  /** An active request has the hook registered, and it is never registered twice. */
  ghost predicate Ok(w: World) {
    && Each(w.requests, IsOk(w.finished)) && ActiveOk(w.requests, w.active)
    && (w.active != [] ==> w.hook) && w.registered == if w.hook then 1 else 0
  }

  ghost function Put(w: World, r: nat, q: Request): World {
    w.(requests := w.requests[r := q])
  }

  lemma {:induction false} PutOk(w: World, r: nat, q: Request)
    requires Ok(w) && r in w.requests && IsOk(w.finished)(q) && q.state == w.requests[r].state
    ensures Ok(Put(w, r, q))
  {
    EachPut(w.requests, IsOk(w.finished), r, q);
  }

  /** What other code may have done to a request meanwhile. */
  ghost predicate Grew1(q: Request, q2: Request) {
    && q.past.all <= q2.past.all && q2.past.results == q.past.results && q2.past.events == q.past.events
    && (q2.state == q.state || (q.state.Idle? && q2.state.Active?))
    && q.schedule <= q2.schedule && (q.state.Done? ==> q2 == q)
  }

  /** What other code may have done to the engine meanwhile. */
  ghost predicate Grew(w: World, w2: World) {
    && w.requests.Keys <= w2.requests.Keys
    && (forall r :: r in w.requests ==> Grew1(w.requests[r], w2.requests[r]))
    && (forall r :: r in w2.requests && r !in w.requests ==> w2.requests[r].past.results == [])
    && w.active <= w2.active && w.finished <= w2.finished && (w.hook ==> w2.hook)
  }

  lemma {:induction false} GrewTwice(a: World, b: World, c: World)
    requires Grew(a, b) && Grew(b, c)
    ensures Grew(a, c)
  {
    forall r | r in a.requests
      ensures Grew1(a.requests[r], c.requests[r])
    {
      assert Grew1(a.requests[r], b.requests[r]);
      assert Grew1(b.requests[r], c.requests[r]);
    }
  }

  lemma {:induction false} PutGrew(w: World, r: nat, q: Request)
    requires if r in w.requests then Grew1(w.requests[r], q) else q.past.results == []
    ensures Grew(w, Put(w, r, q))
  {
  }

  /** ompi_comm_request_get */
  const FRESH := Request([], Idle, Past([], [], []))

  lemma {:induction false} GetOk(w: World, r: nat)
    requires Ok(w) && r !in w.requests
    ensures Ok(Put(w, r, FRESH)) && Grew(w, Put(w, r, FRESH))
  {
    FreshOk(w.finished);
    EachPut(w.requests, IsOk(w.finished), r, FRESH);
  }

  lemma {:induction false} FreshOk(finished: set<nat>)
    ensures IsOk(finished)(FRESH)
  {
    assert FRESH.past.all[..0] == [];
  }

  lemma {:induction false} AppendOk(w: World, r: nat, item: Item)
    requires Ok(w) && r in w.requests && !w.requests[r].state.Done? && |item.subreqs| <= MAX_SUBREQ
    ensures var w2 := Put(w, r, WithItem(w.requests[r], item));
            Ok(w2) && Grew(w, w2)
  {
    AppendOkHere(w.requests[r], w.finished, item);
    PutOk(w, r, WithItem(w.requests[r], item));
    PutGrew(w, r, WithItem(w.requests[r], item));
  }

  lemma {:induction false} AppendOkHere(q: Request, finished: set<nat>, item: Item)
    requires IsOk(finished)(q) && !q.state.Done? && |item.subreqs| <= MAX_SUBREQ
    ensures IsOk(finished)(WithItem(q, item))
  {
    AppendKeeps(q, finished, item);
  }

  ghost function Started(w: World, r: nat): World
    requires r in w.requests
  {
    Put(w, r, w.requests[r].(state := Active)).(active := w.active + [r], hook := true, registered := 1)
  }

  lemma {:induction false} StartOk(w: World, r: nat)
    requires Ok(w) && r in w.requests && w.requests[r].state.Idle?
    ensures Ok(Started(w, r)) && Grew(w, Started(w, r))
  {
    StartOkHere(w.requests[r], w.finished);
    EachPut(w.requests, IsOk(w.finished), r, w.requests[r].(state := Active));
    StartActive(w.requests, w.active, r);
    PutGrew(w, r, w.requests[r].(state := Active));
  }

  lemma {:induction false} StartOkHere(q: Request, finished: set<nat>)
    requires IsOk(finished)(q) && q.state.Idle?
    ensures IsOk(finished)(q.(state := Active))
  {
  }

  lemma {:induction false} StartActive(requests: map<nat, Request>, active: seq<nat>, r: nat)
    requires ActiveOk(requests, active) && r in requests && requests[r].state.Idle?
    ensures ActiveOk(requests[r := requests[r].(state := Active)], active + [r])
  {
  }

  lemma {:induction false} FinishOk(w: World, s: nat)
    requires Ok(w)
    ensures Ok(w.(finished := w.finished + {s})) && Grew(w, w.(finished := w.finished + {s}))
  {
    FinishOkHere(w.finished, s);
    EachWeaker(w.requests, IsOk(w.finished), IsOk(w.finished + {s}));
  }

  lemma {:induction false} FinishOkHere(finished: set<nat>, s: nat)
    ensures forall q :: IsOk(finished)(q) ==> IsOk(finished + {s})(q)
  {
  }

  lemma {:induction false} GrewNot(w: World)
    ensures Grew(w, w)
  {
  }

  // ---------------------------------------------------------------------------
  // A visit and a pass
  // ---------------------------------------------------------------------------

  /** Can the head of this schedule be done with? */
  ghost predicate Ready(q: Request, finished: set<nat>) {
    q.schedule != [] && forall s :: s in q.schedule[0].subreqs ==> s in finished
  }

  /** A request with nothing scheduled is done or has not done anything yet; the requests of `except`
      are in the middle of a visit. */
  ghost predicate Lively(w: World, except: set<nat>) {
    forall r :: r in w.requests && r !in except && !w.requests[r].state.Done? && w.requests[r].schedule == [] ==>
      w.requests[r].past.results == []
  }

  lemma {:induction false} GrewLively(w: World, w2: World, except: set<nat>)
    requires Grew(w, w2) && Lively(w, except)
    ensures Lively(w2, except)
  {
    forall r | r in w2.requests && r !in except && !w2.requests[r].state.Done? && w2.requests[r].schedule == []
      ensures w2.requests[r].past.results == []
    {
      assert r in w.requests ==> Grew1(w.requests[r], w2.requests[r]);
    }
  }

  /** A request was visited: nothing that was done is undone, at most one item was done with, and
      one was if it was ready. */
  ghost predicate Turned(q: Request, q2: Request, finished: set<nat>) {
    && q.past.all <= q2.past.all && q.past.results <= q2.past.results && q.past.events <= q2.past.events
    && |q2.past.results| <= |q.past.results| + 1
    && (Ready(q, finished) ==> |q2.past.results| == |q.past.results| + 1)
    && !q2.state.Idle? && (q2.state.Done? <==> q2.schedule == [])
  }

  lemma {:induction false} GrewThenTurned(q: Request, m: Request, q2: Request, finished: set<nat>, later: set<nat>)
    requires Grew1(q, m) && Turned(m, q2, later) && finished <= later
    ensures Turned(q, q2, finished)
  {
    assert q.schedule != [] ==> m.schedule != [] && q.schedule[0] == m.schedule[0];
  }

  lemma {:induction false} TurnedThenGrew(q: Request, m: Request, q2: Request, finished: set<nat>)
    requires Turned(q, m, finished) && Grew1(m, q2)
    ensures Turned(q, q2, finished)
  {
  }

  /** The active request at place `i` was visited, and other code ran meanwhile if `ran`. */
  ghost predicate VisitDid(w: World, w2: World, i: nat, ran: bool) {
    && i < |w.active| && w.active[i] in w.requests && w.requests.Keys <= w2.requests.Keys
    && Turned(w.requests[w.active[i]], w2.requests[w.active[i]], w.finished)
    && (forall r :: r in w.requests && r != w.active[i] ==> Grew1(w.requests[r], w2.requests[r]))
    && (forall r :: r in w2.requests && r !in w.requests ==> w2.requests[r].past.results == [])
    && w.finished <= w2.finished && (w.hook ==> w2.hook)
    && var active := if w2.requests[w.active[i]].state.Done? then Without(w.active, i) else w.active;
       active <= w2.active && (!ran ==> w2.active == active)
  }

  function Without<T>(s: seq<T>, i: nat): seq<T>
    requires i < |s|
  {
    s[..i] + s[i + 1..]
  }

  ghost predicate SeenTurned(was: World, now: World, seen: set<nat>) {
    && was.requests.Keys <= now.requests.Keys && was.finished <= now.finished && (was.hook ==> now.hook)
    && forall r :: r in was.requests ==> if r in seen then Turned(was.requests[r], now.requests[r], was.finished)
                                         else Grew1(was.requests[r], now.requests[r])
  }

  /** The requests of `seen` are not met again from place `i` on. */
  ghost predicate SeenPassed(now: World, seen: set<nat>, i: nat) {
    i <= |now.active| && forall r :: r in seen ==> r !in now.active[i..] && r in now.requests && !now.requests[r].state.Idle?
  }

  /** The others that were active are. */
  ghost predicate OthersWait(first: seq<nat>, active: seq<nat>, seen: set<nat>, i: nat, more: bool) {
    i <= |active| && (more ==> i < |active|) && forall r :: r in first && r !in seen ==> more && r in active[i..]
  }

  /** Part of a pass: the requests of `seen` were visited, the list is at place `i`. */
  ghost predicate PassInv(was: World, now: World, seen: set<nat>, i: nat, more: bool) {
    SeenTurned(was, now, seen) && SeenPassed(now, seen, i) && OthersWait(was.active, now.active, seen, i, more)
  }

  ghost predicate PassDid(was: World, now: World) {
    && was.requests.Keys <= now.requests.Keys && was.finished <= now.finished
    && (forall r :: r in was.requests && r in was.active ==> Turned(was.requests[r], now.requests[r], was.finished))
    && forall r :: r in was.requests && r !in was.active ==>
         Turned(was.requests[r], now.requests[r], was.finished) || Grew1(was.requests[r], now.requests[r])
  }

  ghost function Next(next: World, r: nat, i: nat): nat
    requires r in next.requests
  {
    if next.requests[r].state.Done? then i else i + 1
  }

  lemma {:induction false} TurnedStep(was: World, now: World, next: World, seen: set<nat>, i: nat, ran: bool)
    requires SeenTurned(was, now, seen) && VisitDid(now, next, i, ran) && now.active[i] !in seen
    ensures SeenTurned(was, next, seen + {now.active[i]})
  {
    var r := now.active[i];
    forall p | p in was.requests
      ensures if p in seen + {r} then Turned(was.requests[p], next.requests[p], was.finished)
              else Grew1(was.requests[p], next.requests[p])
    {
      if p == r {
        GrewThenTurned(was.requests[p], now.requests[p], next.requests[p], was.finished, now.finished);
      } else if p in seen {
        TurnedThenGrew(was.requests[p], now.requests[p], next.requests[p], was.finished);
      }
    }
  }

  lemma {:induction false} SeenStep(now: World, next: World, seen: set<nat>, i: nat, ran: bool)
    requires SeenPassed(now, seen, i) && VisitDid(now, next, i, ran)
    requires ActiveOk(now.requests, now.active) && ActiveOk(next.requests, next.active)
    ensures SeenPassed(next, seen + {now.active[i]}, Next(next, now.active[i], i))
  {
    var r := now.active[i];
    assert r in now.active;
    ListStep(now.active, next.active, i, next.requests[r].state.Done?);
    forall p | p in seen + {r}
      ensures p !in next.active[Next(next, r, i)..] && p in next.requests && !next.requests[p].state.Idle?
    {
      SeenStays(now, next, i, ran, p);
    }
  }

  lemma {:induction false} WaitStep(first: seq<nat>, before: seq<nat>, after: seq<nat>, seen: set<nat>, i: nat, gone: bool)
    requires OthersWait(first, before, seen, i, true) && (if gone then Without(before, i) else before) <= after
    ensures OthersWait(first, after, seen + {before[i]}, if gone then i else i + 1, i + 1 < |before|)
  {
    var j := if gone then i else i + 1;
    ListStep(before, after, i, gone);
    assert before[i..] == [before[i]] + before[i + 1..];
    forall p | p in first && p !in seen + {before[i]}
      ensures i + 1 < |before| && p in after[j..]
    {
      assert p in before[i..] && p in before[i + 1..];
    }
  }

  lemma {:induction false} PassStep(was: World, now: World, next: World, seen: set<nat>, i: nat, ran: bool)
    requires PassInv(was, now, seen, i, true) && VisitDid(now, next, i, ran)
    requires ActiveOk(now.requests, now.active) && ActiveOk(next.requests, next.active)
    ensures PassInv(was, next, seen + {now.active[i]}, Next(next, now.active[i], i), i + 1 < |now.active|)
  {
    assert now.active[i..][0] == now.active[i];
    TurnedStep(was, now, next, seen, i, ran);
    SeenStep(now, next, seen, i, ran);
    WaitStep(was.active, now.active, next.active, seen, i, next.requests[now.active[i]].state.Done?);
  }

  /** A visited request is not met again. */
  lemma {:induction false} SeenStays(now: World, next: World, i: nat, ran: bool, p: nat)
    requires VisitDid(now, next, i, ran) && ActiveOk(now.requests, now.active) && ActiveOk(next.requests, next.active)
    requires p in now.requests && !now.requests[p].state.Idle? && (p == now.active[i] || p !in now.active[i..])
    ensures !next.requests[p].state.Idle?
    ensures p !in next.active[if next.requests[now.active[i]].state.Done? then i else i + 1..]
  {
    var r := now.active[i];
    var gone := next.requests[r].state.Done?;
    if p !in now.active || (p == r && gone) {
      assert p !in next.active;
    } else {
      PlaceStays(now.active, next.active, i, gone, p);
    }
  }

  ghost predicate Distinct<T(!new)>(s: seq<T>) {
    forall a, b :: 0 <= a < b < |s| ==> s[a] != s[b]
  }

  lemma {:induction false} PlaceStays<T(!new)>(before: seq<T>, after: seq<T>, i: nat, gone: bool, p: T)
    requires i < |before| && (if gone then Without(before, i) else before) <= after
    requires Distinct(before) && Distinct(after) && p in before
    requires p !in before[i..] || (p == before[i] && !gone)
    ensures p !in after[if gone then i else i + 1..]
  {
    var h :| 0 <= h < |before| && before[h] == p;
    assert h >= i ==> before[i..][h - i] == p;
    ListStep(before, after, i, gone);
    assert after[h] == p;
  }

  /** What came after place `i` still does. */
  lemma {:induction false} ListStep<T(!new)>(before: seq<T>, after: seq<T>, i: nat, gone: bool)
    requires i < |before| && (if gone then Without(before, i) else before) <= after
    ensures var j := if gone then i else i + 1;
            before[..i] <= after && j <= |after| && before[i + 1..] <= after[j..]
            && (i + 1 < |before| ==> j < |after|)
  {
  }

  /** `q` with `item` back at the head of its schedule. */
  function Held(q: Request, item: Item): Request {
    q.(schedule := [item] + q.schedule)
  }

  function Cut(item: Item, n: nat): Item
    requires n <= |item.subreqs|
  {
    item.(subreqs := item.subreqs[..n])
  }

  function Logged(q: Request, events: seq<Event>): Request {
    q.(past := q.past.(events := q.past.events + events))
  }

  lemma {:induction false} FreeOk(q: Request, finished: set<nat>)
    requires IsOk(finished)(q) && q.schedule != [] && q.state.Active? && q.schedule[0].subreqs != []
    requires q.schedule[0].subreqs[|q.schedule[0].subreqs| - 1] in finished
    ensures IsOk(finished)(WithFreed(q))
  {
    FreeKeeps(q, finished);
  }

  lemma {:induction false} HeldFree(q: Request, item: Item, n: nat, finished: set<nat>)
    requires 0 < n <= |item.subreqs| && IsOk(finished)(Held(q, Cut(item, n))) && q.state.Active? && item.subreqs[n - 1] in finished
    ensures IsOk(finished)(Held(Logged(q, [Freed(item.subreqs[n - 1])]), Cut(item, n - 1)))
  {
    var held := Held(q, Cut(item, n));
    FreeOk(held, finished);
    assert Cut(item, n).subreqs[..n - 1] == item.subreqs[..n - 1];
    assert WithFreed(held) == Held(Logged(q, [Freed(item.subreqs[n - 1])]), Cut(item, n - 1));
  }

  /** Only frees were added to the history of `q`. */
  ghost predicate MoreEvents(q: Request, q2: Request) {
    q.past.events <= q2.past.events && q2 == q.(past := q.past.(events := q2.past.events))
  }

  /** An item whose subrequests are all freed is done with, with result `rc`. */
  function Passed(q: Request, item: Item, rc: int): Request {
    q.(past := q.past.(results := q.past.results + [rc], events := q.past.events + CallOf(item)))
  }

  lemma {:induction false} PassedOk(q: Request, item: Item, rc: int, finished: set<nat>)
    requires IsOk(finished)(Held(q, Cut(item, 0))) && q.state.Active?
    ensures IsOk(finished)(Passed(q, item, rc))
  {
    var held := Held(q, Cut(item, 0));
    PassKeeps(held, finished, rc);
    assert WithResult(held, rc) == Passed(q, item, rc);
  }

  lemma {:induction false} CompletionOk(q: Request, finished: set<nat>)
    requires IsOk(finished)(q) && q.schedule == [] && q.state.Active?
    ensures IsOk(finished)(WithCompletion(q))
  {
    CompleteKeeps(q, finished);
  }

  /** The head of an active request was dealt with: it is done with, with result `rc`, or waits. */
  ghost predicate HeadDid1(q: Request, q2: Request, rc: int, finished: set<nat>) {
    && q2.state.Active? && q.past.all <= q2.past.all && q.past.events <= q2.past.events
    && if q2.past.results == q.past.results then q2.schedule != [] && !Ready(q, finished)
       else q2.past.results == q.past.results + [rc]
  }

  ghost predicate HeadDid(w: World, w2: World, r: nat, rc: int, ran: bool) {
    && r in w.requests && w.requests.Keys <= w2.requests.Keys
    && HeadDid1(w.requests[r], w2.requests[r], rc, w.finished)
    && (forall p :: p in w.requests && p != r ==> Grew1(w.requests[p], w2.requests[p]))
    && (forall p :: p in w2.requests && p !in w.requests ==> w2.requests[p].past.results == [])
    && w.finished <= w2.finished && (w.hook ==> w2.hook)
    && w.active <= w2.active && (!ran ==> w2.active == w.active)
  }

  lemma {:induction false} WaitDid(w: World, r: nat, item: Item, q: Request, left: nat, rc: int)
    requires r in w.requests && w.requests[r].state.Active? && w.requests[r].schedule != [] && w.requests[r].schedule[0] == item
    requires MoreEvents(w.requests[r].(schedule := w.requests[r].schedule[1..]), q)
    requires 0 < left <= |item.subreqs| && item.subreqs[left - 1] !in w.finished
    ensures HeadDid(w, Put(w, r, Held(q, Cut(item, left))), r, rc, false)
  {
  }

  lemma {:induction false} WaitTook(w: World, m: World, r: nat, effect: Effect, left: nat)
    requires r in w.requests && w.requests[r].schedule != [] && r in m.requests && m == Put(w, r, m.requests[r])
    requires 0 < left <= |w.requests[r].schedule[0].subreqs| && w.requests[r].schedule[0].subreqs[left - 1] !in w.finished
    requires m.requests[r].past.results == w.requests[r].past.results && m.requests[r].schedule != [] && m.requests[r].state == w.requests[r].state
    ensures HeadTook(w, m, r, effect, false)
  {
    assert !Ready(w.requests[r], w.finished);
    assert w.requests[r].past.results + [] == w.requests[r].past.results;
    assert HeadAt(w, m, r, effect);
  }

  lemma {:induction false} PassedAt(w: World, m: World, r: nat, item: Item, q: Request, effect: Effect, rc: int)
    requires r in w.requests && w.requests[r].state.Active? && w.requests[r].schedule != [] && item == w.requests[r].schedule[0]
    requires Ready(w.requests[r], w.finished) && MoreEvents(w.requests[r].(schedule := w.requests[r].schedule[1..]), q)
    requires m == Put(w, r, Passed(q, item, rc)) && rc == if item.callback.Some? then effect.rc else 0
    ensures HeadAt(w, m, r, effect)
  {
  }

  lemma {:induction false} DoneDid(w: World, r: nat, item: Item, q: Request, rc: int, w2: World, ran: bool)
    requires r in w.requests && w.requests[r].state.Active? && w.requests[r].schedule != []
    requires MoreEvents(w.requests[r].(schedule := w.requests[r].schedule[1..]), q)
    requires Grew(Put(w, r, Passed(q, item, rc)), w2) && (!ran ==> w2 == Put(w, r, Passed(q, item, rc)))
    ensures HeadDid(w, w2, r, rc, ran)
  {
    var m := Put(w, r, Passed(q, item, rc));
    assert Grew1(m.requests[r], w2.requests[r]);
  }

  ghost function Finished(w: World, i: nat): World
    requires i < |w.active| && w.active[i] in w.requests
  {
    var r := w.active[i];
    Put(w, r, WithCompletion(w.requests[r])).(active := Without(w.active, i))
  }

  lemma {:induction false} CompletedOk(w: World, i: nat)
    requires Ok(w) && i < |w.active| && w.active[i] in w.requests && w.requests[w.active[i]].schedule == []
    requires w.requests[w.active[i]].state.Active?
    ensures Ok(Finished(w, i))
  {
    var r := w.active[i];
    CompletionOk(w.requests[r], w.finished);
    EachPut(w.requests, IsOk(w.finished), r, WithCompletion(w.requests[r]));
    CompletedActive(w.requests, w.active, i, WithCompletion(w.requests[r]));
  }

  lemma {:induction false} CompletedActive(requests: map<nat, Request>, active: seq<nat>, i: nat, q: Request)
    requires ActiveOk(requests, active) && i < |active| && q.state.Done?
    ensures ActiveOk(requests[active[i] := q], Without(active, i))
  {
    var (left, r) := (Without(active, i), active[i]);
    assert active == active[..i] + [r] + active[i + 1..];
    assert forall p :: p in left <==> p in active[..i] || p in active[i + 1..];
    assert r !in active[..i] && r !in active[i + 1..];
  }

  lemma {:induction false} VisitHead(w: World, m: World, i: nat, rc: int, ran: bool)
    requires i < |w.active| && HeadDid(w, m, w.active[i], rc, ran) && Lively(w, {})
    requires m.requests[w.active[i]].schedule != []
    ensures VisitDid(w, m, i, ran) && Lively(m, {})
  {
    HeadLively(w, m, w.active[i], rc, ran);
  }

  lemma {:induction false} HeadLively(w: World, m: World, r: nat, rc: int, ran: bool)
    requires HeadDid(w, m, r, rc, ran) && Lively(w, {})
    ensures Lively(m, {r})
  {
    forall p | p in m.requests && p != r && !m.requests[p].state.Done? && m.requests[p].schedule == []
      ensures m.requests[p].past.results == []
    {
      assert p in w.requests ==> Grew1(w.requests[p], m.requests[p]);
    }
  }

  lemma {:induction false} VisitLast(w: World, m: World, i: nat, rc: int, ran: bool)
    requires i < |w.active| && HeadDid(w, m, w.active[i], rc, ran) && Lively(w, {})
    requires m.requests[w.active[i]].schedule == []
    ensures i < |m.active| && m.active[i] == w.active[i]
    ensures LastOk(m.requests[w.active[i]].past.results) == (rc == 0)
    ensures VisitDid(w, Finished(m, i), i, ran) && Lively(Finished(m, i), {})
  {
    HeadLively(w, m, w.active[i], rc, ran);
    WithoutPrefix(w.active, m.active, i);
  }

  lemma {:induction false} WithoutPrefix<T>(s: seq<T>, t: seq<T>, i: nat)
    requires i < |s| && s <= t
    ensures Without(s, i) <= Without(t, i) && (s == t ==> Without(s, i) == Without(t, i))
  {
  }

  lemma {:induction false} VisitEmpty(w: World, i: nat)
    requires i < |w.active| && w.active[i] in w.requests && Lively(w, {})
    requires w.requests[w.active[i]].schedule == [] && w.requests[w.active[i]].state.Active?
    ensures LastOk(w.requests[w.active[i]].past.results)
    ensures VisitDid(w, Finished(w, i), i, false) && Lively(Finished(w, i), {})
  {
  }

  /** The schedule of the request at place `i` was looked at: comm_request.c, lines 106 to 132. */
  ghost predicate ScheduleDid(w: World, m: World, i: nat, rc: int, ran: bool) {
    && i < |w.active| && w.active[i] in w.requests && w.requests[w.active[i]].state.Active?
    && if w.requests[w.active[i]].schedule != [] then HeadDid(w, m, w.active[i], rc, ran)
       else m == w && rc == 0 && !ran
  }

  ghost function Visited(i: nat, ran: bool): (World, World) -> bool {
    (w, w2) => VisitDid(w, w2, i, ran) && Lively(w2, {})
  }

  /** If the request at place `i` is to be completed, `rc` tells its error. */
  ghost predicate AtVisitEnd(m: World, i: nat, rc: int) {
    && i < |m.active| && m.active[i] in m.requests && m.requests[m.active[i]].state.Active?
    && (m.requests[m.active[i]].schedule == [] ==> LastOk(m.requests[m.active[i]].past.results) == (rc == 0))
  }

  ghost function AfterVisit(m: World, i: nat): World
    requires i < |m.active| && m.active[i] in m.requests
  {
    if m.requests[m.active[i]].schedule == [] then Finished(m, i) else m
  }

  lemma {:induction false} VisitEnds(w: World, m: World, i: nat, rc: int, ran: bool)
    requires ScheduleDid(w, m, i, rc, ran) && Lively(w, {})
    ensures AtVisitEnd(m, i, rc) && m.active[i] == w.active[i] && Visited(i, ran)(w, AfterVisit(m, i))
  {
    var r := w.active[i];
    if w.requests[r].schedule == [] {
      VisitEmpty(w, i);
    } else if m.requests[r].schedule == [] {
      VisitLast(w, m, i, rc, ran);
    } else {
      VisitHead(w, m, i, rc, ran);
    }
  }

  lemma {:induction false} HeadOff(q: Request, finished: set<nat>)
    requires IsOk(finished)(q) && q.schedule != []
    ensures Held(q.(schedule := q.schedule[1..]), q.schedule[0]) == q
    ensures IsOk(finished)(Held(q.(schedule := q.schedule[1..]), q.schedule[0]))
  {
    assert [q.schedule[0]] + q.schedule[1..] == q.schedule;
  }

  lemma {:induction false} PutTwice(w: World, r: nat, q: Request, q2: Request)
    ensures Put(Put(w, r, q), r, q2) == Put(w, r, q2)
  {
    assert w.requests[r := q][r := q2] == w.requests[r := q2];
  }

  lemma {:induction false} PassStart(w: World)
    ensures PassInv(w, w, {}, 0, w.active != [])
  {
    assert w.active[0..] == w.active;
  }

  lemma {:induction false} PassEnd(was: World, now: World, seen: set<nat>, i: nat)
    requires PassInv(was, now, seen, i, false)
    ensures PassDid(was, now) && (was.hook ==> now.hook)
  {
  }

  // ---------------------------------------------------------------------------
  // What callbacks return and do
  // ---------------------------------------------------------------------------

  /** One action; what no caller may do is skipped, and re-entering the progress function does
      nothing. */
  ghost function Acted(w: World, a: Action): World {
    match a
    case Get(r) => if r in w.requests then w else Put(w, r, FRESH)
    case Append(r, item) =>
      if r in w.requests && !w.requests[r].state.Done? && |item.subreqs| <= MAX_SUBREQ then Put(w, r, WithItem(w.requests[r], item)) else w
    case Start(r) => if r in w.requests && w.requests[r].state.Idle? then Started(w, r) else w
    case Finish(s) => w.(finished := w.finished + {s})
    case Reenter => w
  }

  ghost function ActedAll(w: World, actions: seq<Action>): World {
    if actions == [] then w else Acted(ActedAll(w, actions[..|actions| - 1]), actions[|actions| - 1])
  }

  lemma {:induction false} ActedMore(w: World, actions: seq<Action>, i: nat)
    requires i < |actions|
    ensures ActedAll(w, actions[..i + 1]) == Acted(ActedAll(w, actions[..i]), actions[i])
    ensures actions[..|actions|] == actions
  {
    assert actions[..i + 1][..i] == actions[..i];
  }

  lemma {:induction false} ActedGrew(w: World, a: Action)
    ensures Grew(w, Acted(w, a))
  {
  }

  /** What an action is for is so after it. */
  ghost predicate Taken(w: World, a: Action, w2: World) {
    match a
    case Get(r) => r in w2.requests
    case Append(r, item) =>
      r in w.requests && !w.requests[r].state.Done? && |item.subreqs| <= MAX_SUBREQ ==>
        r in w2.requests && w.requests[r].schedule + [item] <= w2.requests[r].schedule
    case Start(r) => r in w.requests && w.requests[r].state.Idle? ==> r in w2.requests && w2.requests[r].state.Active? && r in w2.active && w2.hook
    case Finish(s) => s in w2.finished
    case Reenter => true
  }

  lemma {:induction false} TakenStays(w: World, a: Action, w2: World, w3: World)
    requires Taken(w, a, w2) && Grew(w2, w3)
    ensures Taken(w, a, w3)
  {
  }

  /** Every action of a list takes effect, in its turn, and later ones undo nothing. */
  lemma {:induction false} EveryActionTakes(w: World, actions: seq<Action>, k: nat)
    requires k < |actions|
    ensures Taken(ActedAll(w, actions[..k]), actions[k], ActedAll(w, actions))
    decreases |actions|
  {
    var n := |actions| - 1;
    var before := actions[..n];
    if k < n {
      assert before[..k] == actions[..k];
      EveryActionTakes(w, before, k);
      ActedGrew(ActedAll(w, before), actions[n]);
      TakenStays(ActedAll(w, actions[..k]), actions[k], ActedAll(w, before), ActedAll(w, actions));
    }
  }

  lemma {:induction false} AllActedGrew(w: World, actions: seq<Action>)
    ensures Grew(w, ActedAll(w, actions))
  {
    GrewNot(w);
    if actions != [] {
      var before := ActedAll(w, actions[..|actions| - 1]);
      AllActedGrew(w, actions[..|actions| - 1]);
      ActedGrew(before, actions[|actions| - 1]);
      GrewTwice(w, before, ActedAll(w, actions));
    }
  }

  /** Is there a callback to call at the head of the schedule? */
  ghost predicate Calls(q: Request, finished: set<nat>) {
    Ready(q, finished) && q.schedule[0].callback.Some?
  }

  /** What a visit adds to the results: what the callback returns, 0 without a callback, and nothing
      while the head waits. */
  ghost function Added(q: Request, finished: set<nat>, effect: Effect): seq<int> {
    if Calls(q, finished) then [effect.rc] else if Ready(q, finished) then [0] else []
  }

  /** `m` is `w` with the head of request `r` dealt with, before the callback's actions. */
  ghost predicate HeadAt(w: World, m: World, r: nat, effect: Effect) {
    && r in w.requests && r in m.requests && m == Put(w, r, m.requests[r]) && w.requests[r].schedule != []
    && m.requests[r].state == w.requests[r].state
    && m.requests[r].past.results == w.requests[r].past.results + Added(w.requests[r], w.finished, effect)
    && (if Ready(w.requests[r], w.finished) then m.requests[r].schedule == w.requests[r].schedule[1..] else m.requests[r].schedule != [])
    && (Calls(w.requests[r], w.finished) ==>
          m.requests[r].past.events != []
          && m.requests[r].past.events[|m.requests[r].past.events| - 1] == Called(w.requests[r].schedule[0].callback.value))
  }

  /** The head of request `r` was dealt with, and its callback did its actions. */
  ghost predicate HeadTook(w: World, h: World, r: nat, effect: Effect, called: bool) {
    exists m :: HeadAt(w, m, r, effect) && called == Calls(w.requests[r], w.finished)
                && h == if called then ActedAll(m, effect.actions) else m
  }

  /** What became of a request that was visited. */
  ghost predicate Outcome(q: Request, q2: Request, finished: set<nat>, effect: Effect) {
    && q2.past.results == q.past.results + Added(q, finished, effect)
    && (q2.state.Done? ==> q2.state.ok == (Calls(q, finished) ==> effect.rc == 0))
  }

  /** One visit: which request, what its callback would return and do, and whether it was called. */
  datatype Visiting = Visiting(before: World, place: nat, effect: Effect, called: bool, after: World)

  ghost function VisitTook(): Visiting -> bool {
    (v: Visiting) =>
      var (w, i, w2) := (v.before, v.place, v.after);
      && i < |w.active| && w.active[i] in w.requests && w.active[i] in w2.requests
      && v.called == Calls(w.requests[w.active[i]], w.finished)
      && Outcome(w.requests[w.active[i]], w2.requests[w.active[i]], w.finished, v.effect)
      && if w.requests[w.active[i]].schedule == [] then w2 == Finished(w, i)
         else exists h :: HeadTook(w, h, w.active[i], v.effect, v.called) && i < |h.active| && h.active[i] in h.requests && w2 == AfterVisit(h, i)
  }

  lemma {:induction false} HeadOutcome(w: World, h: World, i: nat, effect: Effect, called: bool)
    requires i < |w.active| && w.active[i] in w.requests && w.requests[w.active[i]].state.Active?
    requires HeadTook(w, h, w.active[i], effect, called)
    ensures i < |h.active| && h.active[i] == w.active[i] && h.active[i] in h.requests
    ensures Outcome(w.requests[w.active[i]], AfterVisit(h, i).requests[w.active[i]], w.finished, effect)
  {
    var r := w.active[i];
    var m :| HeadAt(w, m, r, effect) && h == if called then ActedAll(m, effect.actions) else m;
    AllActedGrew(m, effect.actions);
    GrewNot(m);
    assert Grew(m, h) && Grew1(m.requests[r], h.requests[r]);
    if h.requests[r].schedule == [] {
      assert m.requests[r].schedule == [] && Ready(w.requests[r], w.finished);
    }
  }

  lemma {:induction false} VisitTakes(w: World, h: World, i: nat, effect: Effect, called: bool)
    requires i < |w.active| && w.active[i] in w.requests && w.requests[w.active[i]].state.Active? && w.requests[w.active[i]].schedule != []
    requires HeadTook(w, h, w.active[i], effect, called)
    ensures i < |h.active| && h.active[i] in h.requests && VisitTook()(Visiting(w, i, effect, called, AfterVisit(h, i)))
  {
    HeadOutcome(w, h, i, effect, called);
    var m :| HeadAt(w, m, w.active[i], effect) && called == Calls(w.requests[w.active[i]], w.finished);
    assert called == Calls(w.requests[w.active[i]], w.finished);
  }

  lemma {:induction false} EmptyTakes(w: World, i: nat, effect: Effect)
    requires i < |w.active| && w.active[i] in w.requests && w.requests[w.active[i]].schedule == []
    requires w.requests[w.active[i]].past.results == []
    ensures VisitTook()(Visiting(w, i, effect, false, Finished(w, i)))
  {
    assert [] + [] == w.requests[w.active[i]].past.results;
  }

  /** A visit to the request at place `i` of `w`. */
  ghost function VisitWas(w: World, i: nat, effect: Effect, called: bool): World -> bool {
    (w2: World) => Visited(i, called && effect.actions != [])(w, w2) && VisitTook()(Visiting(w, i, effect, called, w2))
  }

  lemma {:induction false} VisitWasParts(w: World, i: nat, effect: Effect, called: bool, w2: World)
    requires VisitWas(w, i, effect, called)(w2)
    ensures VisitDid(w, w2, i, called && effect.actions != []) && Lively(w2, {})
  {
    assert Visited(i, called && effect.actions != [])(w, w2);
  }

  lemma {:induction false} VisitIs(w: World, i: nat, effect: Effect, called: bool, w2: World)
    requires Visited(i, called && effect.actions != [])(w, w2) && VisitTook()(Visiting(w, i, effect, called, w2))
    ensures VisitWas(w, i, effect, called)(w2)
  {
  }

  /** How many callbacks the first `k` visits called. */
  function CallsBefore(visits: seq<Visiting>, k: nat): nat
    requires k <= |visits|
  {
    if k == 0 then 0 else CallsBefore(visits, k - 1) + (if visits[k - 1].called then 1 else 0)
  }

  /** The effect of the next callback: they take `effects` in turn, and then do nothing and return
      success. */
  function EffectAt(effects: seq<Effect>, n: nat): Effect {
    if n < |effects| then effects[n] else Effect(0, [])
  }

  /** The visits of a pass, one after the other. */
  ghost predicate Visits(was: World, now: World, effects: seq<Effect>, visits: seq<Visiting>) {
    && (if visits == [] then now == was else visits[0].before == was && visits[|visits| - 1].after == now)
    && (forall k {:trigger visits[k]} :: 0 < k < |visits| ==> visits[k].before == visits[k - 1].after)
    && forall k {:trigger visits[k]} :: 0 <= k < |visits| ==>
         VisitTook()(visits[k]) && visits[k].effect == EffectAt(effects, CallsBefore(visits, k))
  }

  ghost function Subject(v: Visiting): nat
    requires v.place < |v.before.active|
  {
    v.before.active[v.place]
  }

  lemma {:induction false} VisitsMore(was: World, now: World, next: World, effects: seq<Effect>, visits: seq<Visiting>, v: Visiting)
    requires Visits(was, now, effects, visits) && VisitTook()(v) && v.before == now && v.after == next
    requires v.effect == EffectAt(effects, CallsBefore(visits, |visits|))
    ensures Visits(was, next, effects, visits + [v])
  {
    var all := visits + [v];
    forall k | 0 <= k < |all|
      ensures VisitTook()(all[k]) && all[k].effect == EffectAt(effects, CallsBefore(all, k))
    {
      SameCalls(visits, v, k);
      if k < |visits| {
        assert all[k] == visits[k];
      }
    }
  }

  lemma {:induction false} SameCalls(visits: seq<Visiting>, v: Visiting, k: nat)
    requires k <= |visits|
    ensures CallsBefore(visits + [v], k) == CallsBefore(visits, k)
  {
    if k > 0 {
      SameCalls(visits, v, k - 1);
    }
  }

  /** The subjects of the visits are different requests: those of `seen`. */
  ghost predicate SubjectsAre(visits: seq<Visiting>, seen: set<nat>) {
    && (forall k {:trigger visits[k]} :: 0 <= k < |visits| ==> visits[k].place < |visits[k].before.active| && Subject(visits[k]) in seen)
    && (forall j, k {:trigger visits[j], visits[k]} :: 0 <= j < k < |visits| ==> Subject(visits[j]) != Subject(visits[k]))
    && forall r :: r in seen ==> exists k :: 0 <= k < |visits| && Subject(visits[k]) == r
  }

  /** The callback may have let other code change the engine. */
  function Ran(v: Visiting): bool {
    v.called && v.effect.actions != []
  }

  ghost predicate EachVisited(visits: seq<Visiting>) {
    forall k {:trigger visits[k]} :: 0 <= k < |visits| ==>
      Visited(visits[k].place, Ran(visits[k]))(visits[k].before, visits[k].after)
  }

  ghost function PassSoFar(was: World, effects: seq<Effect>, visits: seq<Visiting>, seen: set<nat>): World -> bool {
    (now: World) => Visits(was, now, effects, visits) && SubjectsAre(visits, seen) && EachVisited(visits)
  }

  /** A pass: every request that was active is visited, none twice, and the callbacks called take the effects
      in turn. */
  ghost function PassTook(was: World, effects: seq<Effect>, visits: seq<Visiting>): World -> bool {
    (now: World) => exists seen :: PassSoFar(was, effects, visits, seen)(now) && AllSeen(was, seen)
  }

  ghost predicate AllSeen(was: World, seen: set<nat>) {
    forall r :: r in was.active ==> r in seen
  }

  lemma {:induction false} SoFarStart(was: World, effects: seq<Effect>)
    ensures PassSoFar(was, effects, [], {})(was)
  {
  }

  lemma {:induction false} SoFarEnd(was: World, now: World, effects: seq<Effect>, visits: seq<Visiting>, seen: set<nat>, i: nat)
    requires PassSoFar(was, effects, visits, seen)(now) && PassInv(was, now, seen, i, false)
    ensures PassTook(was, effects, visits)(now)
  {
    assert AllSeen(was, seen);
  }

  lemma {:induction false} SoFarMore(was: World, now: World, next: World, effects: seq<Effect>, visits: seq<Visiting>, seen: set<nat>,
                                     i: nat, effect: Effect, called: bool)
    requires PassSoFar(was, effects, visits, seen)(now) && i < |now.active| && now.active[i] !in seen
    requires effect == EffectAt(effects, CallsBefore(visits, |visits|)) && VisitWas(now, i, effect, called)(next)
    ensures PassSoFar(was, effects, visits + [Visiting(now, i, effect, called, next)], seen + {now.active[i]})(next)
  {
    var v := Visiting(now, i, effect, called, next);
    VisitsMore(was, now, next, effects, visits, v);
    SubjectsMore(visits, seen, v);
    EachMore(visits, v);
  }

  /** In the middle of a pass: where the list is, and what was visited, with the first `used` effects taken. */
  ghost function Passing(was: World, effects: seq<Effect>, used: nat, visits: seq<Visiting>, seen: set<nat>, i: nat, more: bool): World -> bool {
    (now: World) => PassInv(was, now, seen, i, more) && PassSoFar(was, effects, visits, seen)(now) && InTurn(effects, used, visits)
  }

  ghost predicate InTurn(effects: seq<Effect>, used: nat, visits: seq<Visiting>) {
    used == if CallsBefore(visits, |visits|) < |effects| then CallsBefore(visits, |visits|) else |effects|
  }

  lemma {:induction false} PassingStart(w: World, effects: seq<Effect>)
    ensures Passing(w, effects, 0, [], {}, 0, w.active != [])(w)
  {
    PassStart(w);
    SoFarStart(w, effects);
  }

  lemma {:induction false} PassingPlace(was: World, effects: seq<Effect>, used: nat, visits: seq<Visiting>, seen: set<nat>,
                                        i: nat, more: bool, now: World)
    requires Passing(was, effects, used, visits, seen, i, more)(now)
    ensures i <= |now.active| && (more ==> i < |now.active|)
  {
    assert PassInv(was, now, seen, i, more);
  }

  lemma {:induction false} PassingAt(was: World, effects: seq<Effect>, used: nat, visits: seq<Visiting>, seen: set<nat>, i: nat, now: World)
    requires Passing(was, effects, used, visits, seen, i, true)(now)
    ensures PassInv(was, now, seen, i, true) && i < |now.active| && now.active[i] !in seen
  {
    PassingPlace(was, effects, used, visits, seen, i, true, now);
    assert PassInv(was, now, seen, i, true);
    assert now.active[i..][0] == now.active[i];
  }

  lemma {:induction false} InTurnMore(effects: seq<Effect>, used: nat, visits: seq<Visiting>, v: Visiting)
    requires InTurn(effects, used, visits)
    ensures InTurn(effects, if v.called && used < |effects| then used + 1 else used, visits + [v])
    ensures EffectAt(effects, used) == EffectAt(effects, CallsBefore(visits, |visits|))
  {
    var all := visits + [v];
    SameCalls(visits, v, |visits|);
    assert all[|visits|] == v;
  }

  lemma {:induction false} PassingMore(was: World, now: World, next: World, effects: seq<Effect>, used: nat, visits: seq<Visiting>,
                                       seen: set<nat>, i: nat, effect: Effect, called: bool, j: nat)
    requires Passing(was, effects, used, visits, seen, i, true)(now)
    requires effect == EffectAt(effects, used)
    requires i < |now.active| && now.active[i] !in seen && VisitWas(now, i, effect, called)(next)
    requires PassInv(was, next, seen + {now.active[i]}, j, i + 1 < |now.active|)
    ensures Passing(was, effects, if called && used < |effects| then used + 1 else used,
                    visits + [Visiting(now, i, effect, called, next)], seen + {now.active[i]}, j, i + 1 < |now.active|)(next)
  {
    InTurnMore(effects, used, visits, Visiting(now, i, effect, called, next));
    SoFarMore(was, now, next, effects, visits, seen, i, effect, called);
  }

  lemma {:induction false} PassingEnd(was: World, effects: seq<Effect>, used: nat, visits: seq<Visiting>, seen: set<nat>, i: nat, now: World)
    requires Passing(was, effects, used, visits, seen, i, false)(now)
    ensures PassTook(was, effects, visits)(now) && PassDid(was, now) && (was.hook ==> now.hook)
  {
    PassEnd(was, now, seen, i);
    SoFarEnd(was, now, effects, visits, seen, i);
  }

  lemma {:induction false} SubjectsMore(visits: seq<Visiting>, seen: set<nat>, v: Visiting)
    requires SubjectsAre(visits, seen) && v.place < |v.before.active| && Subject(v) !in seen
    ensures SubjectsAre(visits + [v], seen + {Subject(v)})
  {
    var all := visits + [v];
    forall r | r in seen + {Subject(v)}
      ensures exists k :: 0 <= k < |all| && Subject(all[k]) == r
    {
      if r in seen {
        var k :| 0 <= k < |visits| && Subject(visits[k]) == r;
        assert all[k] == visits[k];
      } else {
        assert all[|visits|] == v;
      }
    }
  }

  lemma {:induction false} EachMore(visits: seq<Visiting>, v: Visiting)
    requires EachVisited(visits) && Visited(v.place, Ran(v))(v.before, v.after)
    ensures EachVisited(visits + [v])
  {
  }

  /** With nothing active the progress function is taken off the hook. */
  ghost function Rested(w: World): World {
    if w.active == [] then w.(hook := false, registered := if w.registered > 0 then w.registered - 1 else 0) else w
  }

  ghost function PassedTo(was: World, effects: seq<Effect>, visits: seq<Visiting>): World -> bool {
    (now: World) => exists end :: PassTook(was, effects, visits)(end) && now == Rested(end)
  }

  lemma {:induction false} RestedTo(was: World, end: World, now: World, effects: seq<Effect>, visits: seq<Visiting>)
    requires PassTook(was, effects, visits)(end) && now == Rested(end)
    ensures PassedTo(was, effects, visits)(now)
  {
  }

  ghost function ResultsOf(w: World, r: nat): seq<int> {
    if r in w.requests then w.requests[r].past.results else []
  }

  /** Before visit `k`. */
  ghost function WorldAt(was: World, visits: seq<Visiting>, k: nat): World
    requires k <= |visits|
  {
    if k == 0 then was else visits[k - 1].after
  }

  /** Request `r` got no result and was not completed. */
  ghost predicate LeftAlone(w: World, w2: World, r: nat) {
    && ResultsOf(w2, r) == ResultsOf(w, r)
    && (r in w.requests ==> r in w2.requests && (w2.requests[r].state == w.requests[r].state || (w.requests[r].state.Idle? && !w2.requests[r].state.Done?)))
  }

  lemma {:induction false} OthersAlone(w: World, w2: World, i: nat, ran: bool, r: nat)
    requires VisitDid(w, w2, i, ran) && r != w.active[i]
    ensures LeftAlone(w, w2, r)
  {
    assert r in w.requests ==> Grew1(w.requests[r], w2.requests[r]);
  }

  ghost predicate Linked(was: World, visits: seq<Visiting>) {
    forall k {:trigger WorldAt(was, visits, k)} :: 0 <= k < |visits| ==> visits[k].before == WorldAt(was, visits, k)
  }

  ghost predicate NotMet(visits: seq<Visiting>, r: nat, j: nat, k: nat)
    requires k <= |visits|
  {
    forall n {:trigger visits[n]} :: j <= n < k ==> visits[n].place < |visits[n].before.active| && Subject(visits[n]) != r
  }

  lemma {:induction false} AreLinked(was: World, now: World, effects: seq<Effect>, visits: seq<Visiting>)
    requires Visits(was, now, effects, visits)
    ensures Linked(was, visits) && WorldAt(was, visits, |visits|) == now
  {
  }

  lemma {:induction false} NotMetAgain(visits: seq<Visiting>, seen: set<nat>, k: nat)
    requires SubjectsAre(visits, seen) && k < |visits|
    ensures visits[k].place < |visits[k].before.active|
    ensures NotMet(visits, Subject(visits[k]), 0, k) && NotMet(visits, Subject(visits[k]), k + 1, |visits|)
  {
  }

  ghost predicate StepAlone(was: World, visits: seq<Visiting>, r: nat, k: nat) {
    k < |visits| && LeftAlone(WorldAt(was, visits, k), WorldAt(was, visits, k + 1), r)
  }

  lemma {:induction false} StepsAlone(was: World, visits: seq<Visiting>, r: nat, j: nat, k: nat)
    requires j <= k <= |visits| && forall n :: j <= n < k ==> StepAlone(was, visits, r, n)
    ensures LeftAlone(WorldAt(was, visits, j), WorldAt(was, visits, k), r)
  {
    if j < k {
      StepsAlone(was, visits, r, j, k - 1);
      assert StepAlone(was, visits, r, k - 1);
      AloneTwice(WorldAt(was, visits, j), WorldAt(was, visits, k - 1), WorldAt(was, visits, k), r);
    }
  }

  lemma {:induction false} AloneBetween(was: World, visits: seq<Visiting>, r: nat, j: nat, k: nat)
    requires EachVisited(visits) && j <= k <= |visits| && Linked(was, visits) && NotMet(visits, r, j, k)
    ensures LeftAlone(WorldAt(was, visits, j), WorldAt(was, visits, k), r)
  {
    forall n | j <= n < k
      ensures StepAlone(was, visits, r, n)
    {
      VisitAlone(was, visits, r, n);
    }
    StepsAlone(was, visits, r, j, k);
  }

  lemma {:induction false} VisitAlone(was: World, visits: seq<Visiting>, r: nat, k: nat)
    requires EachVisited(visits) && k < |visits| && Linked(was, visits) && NotMet(visits, r, k, k + 1)
    ensures StepAlone(was, visits, r, k)
  {
    var v := visits[k];
    assert Visited(v.place, Ran(v))(v.before, v.after);
    assert v.before == WorldAt(was, visits, k);
    OthersAlone(v.before, v.after, v.place, Ran(v), r);
  }

  lemma {:induction false} AloneTwice(a: World, b: World, c: World, r: nat)
    requires LeftAlone(a, b, r) && LeftAlone(b, c, r)
    ensures LeftAlone(a, c, r)
  {
  }

  /** What a visit came to, for the request visited; the pass was from `was` to `now`. */
  ghost predicate CameTo(was: World, now: World, v: Visiting)
    requires v.place < |v.before.active|
  {
    var r := Subject(v);
    && r in v.before.requests && r in now.requests && LeftAlone(was, v.before, r)
    && v.called == Calls(v.before.requests[r], v.before.finished)
    && (v.called ==> ResultsOf(now, r) == ResultsOf(was, r) + [v.effect.rc])
    && (!v.called ==> ResultsOf(now, r) == ResultsOf(was, r) || ResultsOf(now, r) == ResultsOf(was, r) + [0])
    && (now.requests[r].state.Done? ==> now.requests[r].state.ok == (v.called ==> v.effect.rc == 0))
  }

  lemma {:induction false} PassVisit(was: World, now: World, effects: seq<Effect>, visits: seq<Visiting>, seen: set<nat>, k: nat)
    requires PassSoFar(was, effects, visits, seen)(now) && k < |visits|
    ensures Visits(was, now, effects, visits) && SubjectsAre(visits, seen) && EachVisited(visits)
    ensures VisitTook()(visits[k]) && visits[k].effect == EffectAt(effects, CallsBefore(visits, k))
    ensures Visited(visits[k].place, Ran(visits[k]))(visits[k].before, visits[k].after)
  {
  }

  lemma {:induction false} PassCameTo(was: World, now: World, effects: seq<Effect>, visits: seq<Visiting>, seen: set<nat>, k: nat)
    requires PassSoFar(was, effects, visits, seen)(now) && k < |visits|
    ensures visits[k].place < |visits[k].before.active| && CameTo(was, now, visits[k])
  {
    PassVisit(was, now, effects, visits, seen, k);
    var (v, r) := (visits[k], Subject(visits[k]));
    SubjectAlone(was, now, effects, visits, seen, k);
    VisitCame(v);
    SumUp(was, v, now);
  }

  lemma {:induction false} SubjectAlone(was: World, now: World, effects: seq<Effect>, visits: seq<Visiting>, seen: set<nat>, k: nat)
    requires Visits(was, now, effects, visits) && SubjectsAre(visits, seen) && EachVisited(visits) && k < |visits|
    ensures visits[k].place < |visits[k].before.active|
    ensures LeftAlone(was, visits[k].before, Subject(visits[k])) && LeftAlone(visits[k].after, now, Subject(visits[k]))
  {
    AreLinked(was, now, effects, visits);
    NotMetAgain(visits, seen, k);
    AloneFrom(was, now, visits, k);
  }

  lemma {:induction false} AloneFrom(was: World, now: World, visits: seq<Visiting>, k: nat)
    requires EachVisited(visits) && k < |visits| && Linked(was, visits) && WorldAt(was, visits, |visits|) == now
    requires visits[k].place < |visits[k].before.active|
    requires NotMet(visits, Subject(visits[k]), 0, k) && NotMet(visits, Subject(visits[k]), k + 1, |visits|)
    ensures LeftAlone(was, visits[k].before, Subject(visits[k])) && LeftAlone(visits[k].after, now, Subject(visits[k]))
  {
    AloneBetween(was, visits, Subject(visits[k]), 0, k);
    AloneBetween(was, visits, Subject(visits[k]), k + 1, |visits|);
  }

  lemma {:induction false} SumUp(was: World, v: Visiting, now: World)
    requires v.place < |v.before.active| && LeftAlone(was, v.before, Subject(v)) && LeftAlone(v.after, now, Subject(v))
    requires Came(v)
    ensures CameTo(was, now, v)
  {
    var r := Subject(v);
    assert ResultsOf(was, r) + [] == ResultsOf(was, r);
  }

  ghost predicate Came(v: Visiting)
    requires v.place < |v.before.active|
  {
    var r := Subject(v);
    && r in v.before.requests && r in v.after.requests && !v.after.requests[r].state.Idle?
    && v.called == Calls(v.before.requests[r], v.before.finished)
    && Outcome(v.before.requests[r], v.after.requests[r], v.before.finished, v.effect)
  }

  lemma {:induction false} VisitCame(v: Visiting)
    requires VisitTook()(v) && Visited(v.place, Ran(v))(v.before, v.after)
    ensures v.place < |v.before.active| && Came(v)
  {
  }

  /** In a pass the callbacks called take the effects in turn. What each returned is the result appended to
      its request, and a request completed in the pass is so without error exactly if the last
      thing called for it in the pass, if any, returned 0. */
  lemma {:induction false} PassOutcome(was: World, now: World, effects: seq<Effect>, visits: seq<Visiting>, k: nat)
    requires PassedTo(was, effects, visits)(now) && k < |visits|
    ensures visits[k].place < |visits[k].before.active| && CameTo(was, now, visits[k])
    ensures visits[k].effect == EffectAt(effects, CallsBefore(visits, k))
  {
    var end :| PassTook(was, effects, visits)(end) && now == Rested(end);
    var seen :| PassSoFar(was, effects, visits, seen)(end) && AllSeen(was, seen);
    PassVisit(was, end, effects, visits, seen, k);
    PassCameTo(was, end, effects, visits, seen, k);
  }

  /** Every request active at the start of a pass is visited in it, once. */
  lemma {:induction false} VisitedOnce(was: World, now: World, effects: seq<Effect>, visits: seq<Visiting>, r: nat)
    requires PassedTo(was, effects, visits)(now) && r in was.active
    ensures forall k :: 0 <= k < |visits| ==> visits[k].place < |visits[k].before.active|
    ensures exists k :: 0 <= k < |visits| && Subject(visits[k]) == r && forall j :: 0 <= j < |visits| && j != k ==> Subject(visits[j]) != r
  {
    var end :| PassTook(was, effects, visits)(end) && now == Rested(end);
    var seen :| PassSoFar(was, effects, visits, seen)(end) && AllSeen(was, seen);
    assert SubjectsAre(visits, seen);
    var k :| 0 <= k < |visits| && Subject(visits[k]) == r;
    forall j | 0 <= j < |visits| && j != k
      ensures Subject(visits[j]) != r
    {
      assert if j < k then Subject(visits[j]) != Subject(visits[k]) else Subject(visits[k]) != Subject(visits[j]);
    }
  }

  ghost predicate AllTaken(m: World, actions: seq<Action>) {
    forall j :: 0 <= j < |actions| ==> Taken(ActedAll(m, actions[..j]), actions[j], ActedAll(m, actions))
  }

  /** The callback called in a visit ran with its item taken off, and every action of its effect was done. */
  ghost predicate CalledWhole(v: Visiting)
    requires v.place < |v.before.active|
  {
    exists m :: && HeadAt(v.before, m, Subject(v), v.effect) && AllTaken(m, v.effect.actions)
                && FollowedBy(ActedAll(m, v.effect.actions), v)
  }

  ghost predicate FollowedBy(h: World, v: Visiting) {
    v.place < |h.active| && h.active[v.place] in h.requests && v.after == AfterVisit(h, v.place)
  }

  lemma {:induction false} AllTake(m: World, actions: seq<Action>)
    ensures AllTaken(m, actions)
  {
    forall j | 0 <= j < |actions|
      ensures Taken(ActedAll(m, actions[..j]), actions[j], ActedAll(m, actions))
    {
      EveryActionTakes(m, actions, j);
    }
  }

  lemma {:induction false} VisitActions(v: Visiting)
    requires VisitTook()(v) && v.called
    ensures v.place < |v.before.active| && CalledWhole(v)
  {
    var r := v.before.active[v.place];
    var h :| HeadTook(v.before, h, r, v.effect, v.called) && FollowedBy(h, v);
    var m :| HeadAt(v.before, m, r, v.effect) && h == ActedAll(m, v.effect.actions);
    AllTake(m, v.effect.actions);
  }

  /** Every action of a callback called in a pass was done. */
  lemma {:induction false} ActionsDone(was: World, now: World, effects: seq<Effect>, visits: seq<Visiting>, k: nat)
    requires PassedTo(was, effects, visits)(now) && k < |visits| && visits[k].called
    ensures visits[k].place < |visits[k].before.active| && CalledWhole(visits[k])
  {
    var end :| PassTook(was, effects, visits)(end) && now == Rested(end);
    var seen :| PassSoFar(was, effects, visits, seen)(end) && AllSeen(was, seen);
    PassVisit(was, end, effects, visits, seen, k);
    VisitActions(visits[k]);
  }

  datatype Step = Do(action: Action) | Poll(effects: seq<Effect>)

  /** What was appended and what was done stays so. */
  ghost predicate HistoryKept(w: World, w2: World) {
    forall r :: r in w.requests ==>
      && r in w2.requests && w.requests[r].past.all <= w2.requests[r].past.all
      && w.requests[r].past.results <= w2.requests[r].past.results
      && w.requests[r].past.events <= w2.requests[r].past.events
  }

  lemma {:induction false} KeptTwice(a: World, b: World, c: World)
    requires HistoryKept(a, b) && HistoryKept(b, c)
    ensures HistoryKept(a, c)
  {
  }

  lemma {:induction false} GrewKeeps(w: World, w2: World)
    requires Grew(w, w2)
    ensures HistoryKept(w, w2)
  {
  }

  lemma {:induction false} PassKept(w: World, w2: World)
    requires PassDid(w, w2)
    ensures HistoryKept(w, w2)
  {
    forall r | r in w.requests
      ensures w.requests[r].past.results <= w2.requests[r].past.results
    {
      assert Turned(w.requests[r], w2.requests[r], w.finished) || Grew1(w.requests[r], w2.requests[r]);
    }
  }

  /** One step of a run: a pass if the progress function is called and registered. */
  ghost function StepDid(poll: bool): (World, World) -> bool {
    (w: World, w2: World) => Ok(w) && Ok(w2) && if poll && w.hook then PassDid(w, w2) else Grew(w, w2)
  }

  /** One step of a run, and what was visited in it. */
  ghost function StepTook(step: Step, visits: seq<Visiting>): (World, World) -> bool {
    (w: World, w2: World) =>
      match step
      case Do(action) => w2 == Acted(w, action)
      case Poll(effects) => if w.hook then PassedTo(w, effects, visits)(w2) else w2 == w
  }

  ghost predicate Tale(worlds: seq<World>, steps: seq<Step>, passes: seq<seq<Visiting>>) {
    && |worlds| == |steps| + 1 && |passes| == |steps|
    && forall k {:trigger passes[k]} :: 0 <= k < |steps| ==> StepTook(steps[k], passes[k])(worlds[k], worlds[k + 1])
  }

  lemma {:induction false} TaleStep(worlds: seq<World>, steps: seq<Step>, passes: seq<seq<Visiting>>, i: nat, w: World, visits: seq<Visiting>)
    requires i < |steps| && Tale(worlds, steps[..i], passes) && StepTook(steps[i], visits)(worlds[i], w)
    ensures Tale(worlds + [w], steps[..i + 1], passes + [visits])
  {
    var (all, told, done) := (worlds + [w], passes + [visits], steps[..i + 1]);
    forall k | 0 <= k < i + 1
      ensures StepTook(done[k], told[k])(all[k], all[k + 1])
    {
      if k < i {
        assert StepTook(steps[..i][k], passes[k])(worlds[k], worlds[k + 1]);
      }
    }
  }

  ghost predicate Trace(worlds: seq<World>, polls: seq<bool>) {
    && |worlds| == |polls| + 1
    && forall k {:trigger polls[k]} :: 0 <= k < |polls| ==> StepDid(polls[k])(worlds[k], worlds[k + 1])
  }

  function Polls(polls: seq<bool>): nat {
    if polls == [] then 0 else Polls(polls[..|polls| - 1]) + (if polls[|polls| - 1] then 1 else 0)
  }

  /** The subrequests of all items of `q` are complete. */
  ghost predicate AllFinished(q: Request, finished: set<nat>) {
    forall item, s :: item in q.past.all && s in item.subreqs ==> s in finished
  }

  /** How often the progress function has to be called for a request with this schedule. */
  function Needed(schedule: seq<Item>): nat {
    if schedule == [] then 1 else |schedule|
  }

  /** After `n` calls. */
  ghost predicate AfterPolls(first: Request, q: Request, n: nat) {
    if n < Needed(first.schedule) then q.state.Active? && |q.schedule| == |first.schedule| - n
    else q.state.Done? && q.schedule == []
  }

  lemma {:induction false} HeadReady(q: Request, finished: set<nat>)
    requires RequestOk(q, finished) && AllFinished(q, finished) && q.schedule != []
    ensures Ready(q, finished)
  {
    var head := q.past.all[|q.past.results|];
    assert head in q.past.all && q.schedule[0].subreqs <= head.subreqs;
    assert forall s :: s in q.schedule[0].subreqs ==> s in head.subreqs;
  }

  /** One step, while nothing is appended to the request. */
  lemma {:induction false} StepAdvances(w: World, w2: World, poll: bool, r: nat, first: Request, n: nat)
    requires StepDid(poll)(w, w2) && r in w.requests && r in w2.requests
    requires AllFinished(w.requests[r], w.finished) && w2.requests[r].past.all == w.requests[r].past.all
    requires AfterPolls(first, w.requests[r], n)
    ensures AfterPolls(first, w2.requests[r], if poll then n + 1 else n)
  {
    var (q, q2) := (w.requests[r], w2.requests[r]);
    assert IsOk(w.finished)(q) && IsOk(w2.finished)(q2);
    assert |q.schedule| == |q.past.all| - |q.past.results| && |q2.schedule| == |q2.past.all| - |q2.past.results|;
    if q.schedule != [] {
      HeadReady(q, w.finished);
    }
    assert q.state.Active? ==> r in w.active && w.hook;
    assert Turned(q, q2, w.finished) || Grew1(q, q2);
  }

  lemma {:induction false} StepAt(worlds: seq<World>, polls: seq<bool>, k: nat)
    requires Trace(worlds, polls) && k < |polls|
    ensures StepDid(polls[k])(worlds[k], worlds[k + 1])
  {
  }

  /** A world after `n` calls of the progress function: nothing of request `r` is lost, and if nothing
      was appended to it, it is that far. */
  ghost function Reached(first: World, r: nat, n: nat): World -> bool {
    (w: World) => && r in first.requests && r in w.requests
         && first.requests[r].past.all <= w.requests[r].past.all && first.finished <= w.finished
         && (w.requests[r].past.all == first.requests[r].past.all ==> AfterPolls(first.requests[r], w.requests[r], n))
  }

  lemma {:induction false} NextReached(first: World, w: World, w2: World, poll: bool, r: nat, n: nat)
    requires r in first.requests && AllFinished(first.requests[r], first.finished)
    requires Reached(first, r, n)(w) && StepDid(poll)(w, w2)
    ensures Reached(first, r, if poll then n + 1 else n)(w2)
  {
    StepKeeps(w, w2, poll, r);
    if w2.requests[r].past.all == first.requests[r].past.all {
      assert w.requests[r].past.all == first.requests[r].past.all;
      StillFinished(first.requests[r], first.finished, w.requests[r], w.finished);
      StepAdvances(w, w2, poll, r, first.requests[r], n);
    }
  }

  lemma {:induction false} StillFinished(first: Request, before: set<nat>, q: Request, finished: set<nat>)
    requires AllFinished(first, before) && q.past.all == first.past.all && before <= finished
    ensures AllFinished(q, finished)
  {
  }

  lemma {:induction false} StepKeeps(w: World, w2: World, poll: bool, r: nat)
    requires StepDid(poll)(w, w2) && r in w.requests
    ensures r in w2.requests && w.requests[r].past.all <= w2.requests[r].past.all && w.finished <= w2.finished
  {
  }

  lemma {:induction false} AfterSteps(worlds: seq<World>, polls: seq<bool>, r: nat, k: nat)
    requires Trace(worlds, polls) && k <= |polls| && Reached(worlds[0], r, 0)(worlds[0])
    requires r in worlds[0].requests && AllFinished(worlds[0].requests[r], worlds[0].finished)
    ensures Reached(worlds[0], r, Polls(polls[..k]))(worlds[k])
  {
    if k > 0 {
      AfterSteps(worlds, polls, r, k - 1);
      StepAt(worlds, polls, k - 1);
      NextReached(worlds[0], worlds[k - 1], worlds[k], polls[k - 1], r, Polls(polls[..k - 1]));
      assert polls[..k][..k - 1] == polls[..k - 1];
    } else {
      assert polls[..0] == [];
    }
  }

  /** A request whose subrequests are complete, and to which nothing more is appended, is complete
      after as many calls of the progress function as it has items scheduled, and not before;
      other requests and other threads do not delay it. */
  lemma {:induction false} CompletesAfterItsItems(worlds: seq<World>, polls: seq<bool>, r: nat)
    requires Trace(worlds, polls) && r in worlds[0].requests && worlds[0].requests[r].state.Active?
    requires AllFinished(worlds[0].requests[r], worlds[0].finished)
    requires var end := worlds[|polls|];
             r in end.requests ==> end.requests[r].past.all == worlds[0].requests[r].past.all
    ensures r in worlds[|polls|].requests && AfterPolls(worlds[0].requests[r], worlds[|polls|].requests[r], Polls(polls))
  {
    assert polls[..|polls|] == polls;
    assert Reached(worlds[0], r, 0)(worlds[0]);
    AfterSteps(worlds, polls, r, |polls|);
  }

  class Engine {
    var requests: map<nat, Request>
    /** ompi_comm_requests_active */
    var active: seq<nat>
    /** ompi_comm_request_progress_active */
    var hook: bool
    /** How often the progress function is registered. */
    var registered: nat
    var progressing: bool
    var finished: set<nat>

    ghost function W(): World
      reads this
    {
      World(requests, active, hook, registered, finished)
    }

    ghost predicate Valid()
      reads this
    {
      Ok(W())
    }

    /** Outside the progress function the hook is registered exactly while requests are active. */
    ghost predicate AtRest()
      reads this
    {
      Valid() && !progressing && (hook <==> active != []) && Lively(W(), {})
    }

    constructor ()
      ensures AtRest() && W() == World(map[], [], false, 0, {})
    {
      requests, active, hook, registered, progressing, finished := map[], [], false, 0, false, {};
    }

    method Set(r: nat, q: Request)
      modifies this`requests
      ensures W() == Put(old(W()), r, q) && requests == old(requests)[r := q]
    {
      requests := requests[r := q];
    }

    /** ompi_comm_request_get, for a request not in use. */
    method Get(r: nat)
      requires Valid() && r !in requests
      modifies this`requests
      ensures Valid() && W() == Put(old(W()), r, FRESH)
      ensures Grew(old(W()), W())
    {
      GetOk(W(), r);
      Set(r, FRESH);
    }

    /** ompi_comm_request_schedule_append */
    method ScheduleAppend(r: nat, item: Item) returns (status: Status)
      requires Valid() && r in requests && !requests[r].state.Done?
      modifies this`requests
      ensures Valid() && Grew(old(W()), W())
      ensures status == if |item.subreqs| > MAX_SUBREQ then BadParam else Success
      ensures requests == if status == Success then old(requests)[r := WithItem(old(requests)[r], item)] else old(requests)
      ensures W() == old(W()).(requests := requests)
    {
      if |item.subreqs| > MAX_SUBREQ {
        GrewNot(W());
        return BadParam;
      }
      AppendOk(W(), r, item);
      Set(r, WithItem(requests[r], item));
      return Success;
    }

    /** comm_request.c, lines 157 to 163. */
    method Enlist(r: nat)
      requires registered == if hook then 1 else 0
      modifies this`active, this`hook, this`registered
      ensures W() == old(W()).(active := old(active) + [r], hook := true, registered := 1)
    {
      active := active + [r];
      if !hook {
        registered := registered + 1;
        hook := true;
      }
    }

    /** ompi_comm_request_start */
    method Start(r: nat)
      requires Valid() && r in requests && requests[r].state.Idle?
      modifies this`requests, this`active, this`hook, this`registered
      ensures Valid() && W() == Started(old(W()), r) && Grew(old(W()), W()) && hook && active == old(active) + [r]
    {
      StartOk(W(), r);
      Enlist(r);
      Set(r, requests[r].(state := Active));
    }

    /** A subrequest completes. */
    method Complete(s: nat)
      requires Valid()
      modifies this`finished
      ensures Valid() && W() == old(W()).(finished := old(finished) + {s}) && Grew(old(W()), W())
    {
      FinishOk(W(), s);
      finished := finished + {s};
    }

    /** comm_request.c, lines 111 to 120, for a request whose head has been taken off. */
    method FreeFinished(r: nat, item: Item) returns (left: nat)
      requires r in requests && requests[r].state.Active? && IsOk(finished)(Held(requests[r], item))
      modifies this`requests
      ensures left <= |item.subreqs| && (left > 0 ==> item.subreqs[left - 1] !in finished)
      ensures forall j :: left <= j < |item.subreqs| ==> item.subreqs[j] in finished
      ensures r in requests && MoreEvents(old(requests)[r], requests[r]) && W() == Put(old(W()), r, requests[r])
      ensures IsOk(finished)(Held(requests[r], Cut(item, left)))
    {
      ghost var (was, w) := (requests[r], W());
      left := |item.subreqs|;
      assert Cut(item, left) == item;
      while left > 0 && item.subreqs[left - 1] in finished
        invariant left <= |item.subreqs| && r in requests && finished == w.finished
        invariant forall j :: left <= j < |item.subreqs| ==> item.subreqs[j] in finished
        invariant MoreEvents(was, requests[r]) && W() == Put(w, r, requests[r])
        invariant IsOk(w.finished)(Held(requests[r], Cut(item, left)))
      {
        HeldFree(requests[r], item, left, finished);
        left := left - 1;
        Set(r, Logged(requests[r], [Freed(item.subreqs[left])]));
      }
    }

    /** comm_request.c, lines 107 to 131: the head is taken off, and prepended again if it has to wait. `called`
        says whether its callback was called. */
    method AdvanceHead(r: nat, effect: Effect) returns (rc: int, called: bool)
      requires Valid() && progressing && r in requests && requests[r].state.Active? && requests[r].schedule != []
      modifies this
      ensures Valid() && progressing && HeadDid(old(W()), W(), r, rc, called && effect.actions != [])
      ensures HeadTook(old(W()), W(), r, effect, called)
      decreases 1, 2
    {
      ghost var w := W();
      rc, called := 0, false;
      var item := requests[r].schedule[0];
      HeadOff(requests[r], finished);
      Set(r, requests[r].(schedule := requests[r].schedule[1..]));
      var left := FreeFinished(r, item);
      ghost var q := requests[r];
      PutTwice(w, r, w.requests[r].(schedule := w.requests[r].schedule[1..]), q);
      if left == 0 {
        rc, called := CallBack(w, r, item, effect);
      } else {
        WaitDid(w, r, item, q, left, rc);
        SetAgain(w, r, Held(requests[r], Cut(item, left)));
        WaitTook(w, W(), r, effect, left);
      }
    }

    /** comm_request.c, lines 123 to 128; `w` was the state before the head `item` of request `r` was taken off. */
    method CallBack(ghost w: World, r: nat, item: Item, effect: Effect) returns (rc: int, called: bool)
      requires Ok(w) && progressing && r in w.requests && w.requests[r].state.Active? && w.requests[r].schedule != []
      requires r in requests && W() == Put(w, r, requests[r]) && IsOk(finished)(Held(requests[r], Cut(item, 0)))
      requires MoreEvents(w.requests[r].(schedule := w.requests[r].schedule[1..]), requests[r])
      requires item == w.requests[r].schedule[0] && Ready(w.requests[r], w.finished)
      modifies this
      ensures Valid() && progressing && HeadDid(w, W(), r, rc, called && effect.actions != [])
      ensures HeadTook(w, W(), r, effect, called)
      decreases 1, 1
    {
      ghost var q := requests[r];
      called := item.callback.Some?;
      rc := if called then effect.rc else 0;
      PassedOk(q, item, rc, finished);
      SetAgain(w, r, Passed(requests[r], item, rc));
      ghost var m := W();
      PassedAt(w, m, r, item, q, effect, rc);
      if called {
        Perform(effect.actions);
      } else {
        GrewNot(W());
      }
      DoneDid(w, r, item, q, rc, W(), called && effect.actions != []);
      assert HeadAt(w, m, r, effect) && W() == if called then ActedAll(m, effect.actions) else m;
    }

    /** Changes request `r` to `q` once more, where `w` was the state before it was first changed. */
    method SetAgain(ghost w: World, r: nat, q: Request)
      requires Ok(w) && r in w.requests && q.state == w.requests[r].state && IsOk(w.finished)(q)
      requires r in requests && W() == Put(w, r, requests[r])
      modifies this`requests
      ensures Valid() && W() == Put(w, r, q)
    {
      PutOk(w, r, q);
      PutTwice(w, r, requests[r], q);
      Set(r, q);
    }

    /** What a callback or another thread does while the lock is free. Actions that no caller may
        take are skipped. */
    method Perform(actions: seq<Action>)
      requires Valid() && progressing
      modifies this
      ensures Valid() && progressing && Grew(old(W()), W()) && W() == ActedAll(old(W()), actions)
      decreases 1, 0
    {
      ghost var w := W();
      GrewNot(w);
      for i := 0 to |actions|
        invariant Valid() && progressing && Grew(w, W()) && W() == ActedAll(w, actions[..i])
        invariant actions[..|actions|] == actions
      {
        ghost var before := W();
        ActedMore(w, actions, i);
        Act(actions[i]);
        GrewTwice(w, before, W());
      }
    }

    method Act(action: Action)
      requires Valid()
      modifies this
      ensures Valid() && progressing == old(progressing) && Grew(old(W()), W()) && W() == Acted(old(W()), action)
      ensures (old(hook) <==> old(active) != []) ==> (hook <==> active != [])
      decreases 0, 1
    {
      match action {
        case Finish(s) =>
          Complete(s);
        case Reenter =>
          GrewNot(W());
          if progressing {
            var _, _ := Progress([]);
          }
        case _ =>
          ActOnRequest(action);
      }
    }

    method ActOnRequest(action: Action)
      requires Valid() && !action.Finish? && !action.Reenter?
      modifies this`requests, this`active, this`hook, this`registered
      ensures Valid() && Grew(old(W()), W()) && W() == Acted(old(W()), action)
      ensures (old(hook) <==> old(active) != []) ==> (hook <==> active != [])
    {
      GrewNot(W());
      if action.Get? && action.request !in requests {
        Get(action.request);
      } else if action.Append? && action.request in requests && !requests[action.request].state.Done? {
        var _ := ScheduleAppend(action.request, action.item);
      } else if action.Start? && action.request in requests && requests[action.request].state.Idle? {
        Start(action.request);
      }
    }

    /** comm_request.c, lines 106 to 139, for the request at place `i` of the active list. */
    method Visit(i: nat, effect: Effect) returns (called: bool)
      requires Valid() && progressing && i < |active| && Lively(W(), {})
      modifies this
      ensures Valid() && progressing && VisitWas(old(W()), i, effect, called)(W())
      decreases 1, 4
    {
      var rc;
      rc, called := VisitSchedule(i, effect);
      FinishIfEmpty(i, rc);
    }

    method FinishIfEmpty(i: nat, rc: int)
      requires Valid() && AtVisitEnd(W(), i, rc)
      modifies this`active, this`requests
      ensures Valid() && W() == AfterVisit(old(W()), i)
    {
      if requests[active[i]].schedule == [] {
        FinishRequest(i, rc == 0);
      }
    }

    method VisitSchedule(i: nat, effect: Effect) returns (rc: int, called: bool)
      requires Valid() && progressing && i < |active| && Lively(W(), {})
      modifies this
      ensures Valid() && progressing && AtVisitEnd(W(), i, rc) && active[i] == old(active)[i]
      ensures VisitWas(old(W()), i, effect, called)(AfterVisit(W(), i))
      decreases 1, 3
    {
      ghost var w := W();
      rc, called := 0, false;
      assert active[i] in active;
      if requests[active[i]].schedule != [] {
        rc, called := AdvanceHead(active[i], effect);
        VisitTakes(w, W(), i, effect, called);
      } else {
        EmptyTakes(w, i, effect);
      }
      VisitEnds(w, W(), i, rc, called && effect.actions != []);
      VisitIs(w, i, effect, called, AfterVisit(W(), i));
    }

    /** comm_request.c, lines 136 to 138. */
    method FinishRequest(i: nat, ok: bool)
      requires Valid() && i < |active| && active[i] in requests && requests[active[i]].schedule == []
      requires requests[active[i]].state.Active? && ok == LastOk(requests[active[i]].past.results)
      modifies this`active, this`requests
      ensures Valid() && W() == Finished(old(W()), i)
    {
      CompletedOk(W(), i);
      var r := active[i];
      active := Without(active, i);
      var past := requests[r].past;
      Set(r, requests[r].(state := Done(ok), past := past.(events := past.events + [Completed(ok)])));
    }

    /** One turn of the loop in comm_request.c, lines 103 to 140. */
    method Turn(ghost w: World, ghost seen: set<nat>, i: nat, effect: Effect) returns (called: bool, next: nat)
      requires Valid() && progressing && Lively(W(), {}) && PassInv(w, W(), seen, i, true)
      modifies this
      ensures Valid() && progressing && Lively(W(), {})
      ensures PassInv(w, W(), seen + {old(active)[i]}, next, i + 1 < |old(active)|)
      ensures (called && effect.actions != []) || |active| - next < |old(active)| - i
      ensures VisitWas(old(W()), i, effect, called)(W())
      decreases 1, 5
    {
      ghost var now := W();
      var r := active[i];
      called := Visit(i, effect);
      VisitWasParts(now, i, effect, called, W());
      PassStep(w, now, W(), seen, i, called && effect.actions != []);
      next := if requests[r].state.Done? then i else i + 1;
    }

    /** The request at place `i` is visited with the effect that is next; what the pass did is kept up to date. */
    method VisitNext(ghost w: World, effects: seq<Effect>, used: nat, ghost visits: seq<Visiting>, ghost seen: set<nat>, i: nat)
      returns (next: nat, now: nat, ghost all: seq<Visiting>, ghost met: set<nat>)
      requires Valid() && progressing && Lively(W(), {}) && used <= |effects|
      requires Passing(w, effects, used, visits, seen, i, true)(W())
      modifies this
      ensures Valid() && progressing && Lively(W(), {}) && now <= |effects|
      ensures Passing(w, effects, now, all, met, next, i + 1 < |old(active)|)(W())
      ensures used < now || (used == now && next <= |active| && |active| - next < |old(active)| - i)
      decreases 1, 6
    {
      ghost var before := W();
      PassingAt(w, effects, used, visits, seen, i, before);
      var effect := if used < |effects| then effects[used] else Effect(0, []);
      ghost var r := active[i];
      var called;
      called, next := Turn(w, seen, i, effect);
      all, met := visits + [Visiting(before, i, effect, called, W())], seen + {r};
      now := if called && used < |effects| then used + 1 else used;
      PassingMore(w, before, W(), effects, used, visits, seen, i, effect, called, next);
    }

    /** comm_request.c, lines 103 to 140: the next request is looked up before the current one is visited. */
    method PassAll(effects: seq<Effect>) returns (ghost visits: seq<Visiting>)
      requires Valid() && progressing && Lively(W(), {})
      modifies this
      ensures PassTook(old(W()), effects, visits)(W())
      ensures Valid() && progressing && Lively(W(), {}) && PassDid(old(W()), W())
      ensures old(hook) ==> hook
      decreases 1, 7
    {
      ghost var (w, seen) := (W(), {});
      var i: nat, used: nat := 0, 0;
      var more := active != [];
      visits := [];
      PassingStart(w, effects);
      while more
        invariant Valid() && progressing && Lively(W(), {}) && used <= |effects|
        invariant i <= |active| && (more ==> i < |active|) && Passing(w, effects, used, visits, seen, i, more)(W())
        decreases |effects| - used, |active| - i
      {
        var last := i + 1 == |active|;
        i, used, visits, seen := VisitNext(w, effects, used, visits, seen, i);
        PassingPlace(w, effects, used, visits, seen, i, !last, W());
        more := !last;
      }
      PassingEnd(w, effects, used, visits, seen, i, W());
    }

    /** ompi_comm_request_progress; the callbacks it calls take `effects` in turn, and then do
        nothing and return success. */
    method Progress(effects: seq<Effect>) returns (n: int, ghost visits: seq<Visiting>)
      requires Valid() && (!progressing ==> AtRest() && hook)
      modifies this
      ensures Valid() && progressing == old(progressing)
      ensures old(progressing) ==> n == 0 && W() == old(W())
      ensures !old(progressing) ==> n == 1 && AtRest() && PassDid(old(W()), W()) && PassedTo(old(W()), effects, visits)(W())
      decreases if progressing then 0 else 2, 0
    {
      if progressing {
        return 0, [];
      }
      progressing := true;
      visits := PassAll(effects);
      ghost var end := W();
      Rest();
      RestedTo(old(W()), end, W(), effects, visits);
      n := 1;
    }

    /** comm_request.c, lines 142 to 151. */
    method Rest()
      requires Valid() && progressing && Lively(W(), {}) && hook
      modifies this`hook, this`registered, this`progressing
      ensures !progressing && AtRest() && W() == Rested(old(W()))
    {
      if active == [] {
        hook := false;
        registered := registered - 1;
      }
      progressing := false;
    }

    /** Any interleaving of starts, appended items, completions and calls of the progress function. */
    method Run(steps: seq<Step>) returns (ghost worlds: seq<World>, ghost passes: seq<seq<Visiting>>)
      requires AtRest()
      modifies this
      ensures AtRest() && HistoryKept(old(W()), W())
      ensures Trace(worlds, PollsOf(steps)) && worlds[0] == old(W()) && worlds[|steps|] == W()
      ensures Tale(worlds, steps, passes)
    {
      ghost var w := W();
      worlds, passes := [w], [];
      assert steps[..0] == [];
      for i := 0 to |steps|
        invariant AtRest() && HistoryKept(w, W())
        invariant Trace(worlds, PollsOf(steps[..i])) && worlds[0] == w && worlds[i] == W()
        invariant Tale(worlds, steps[..i], passes)
      {
        ghost var before := W();
        ghost var visits := RunStep(steps[i]);
        KeptTwice(w, before, W());
        TraceStep(worlds, steps, i, W());
        TaleStep(worlds, steps, passes, i, W(), visits);
        worlds, passes := worlds + [W()], passes + [visits];
      }
      assert steps[..|steps|] == steps;
    }

    method RunStep(step: Step) returns (ghost visits: seq<Visiting>)
      requires AtRest()
      modifies this
      ensures AtRest() && HistoryKept(old(W()), W()) && StepDid(step.Poll?)(old(W()), W())
      ensures StepTook(step, visits)(old(W()), W())
    {
      ghost var before := W();
      visits := [];
      match step {
        case Do(action) =>
          Act(action);
          GrewLively(before, W(), {});
          GrewKeeps(before, W());
        case Poll(effects) =>
          if hook {
            var n;
            n, visits := Progress(effects);
            PassKept(before, W());
          } else {
            GrewNot(before);
          }
      }
    }
  }

  function PollsOf(steps: seq<Step>): seq<bool> {
    seq(|steps|, k requires 0 <= k < |steps| => steps[k].Poll?)
  }

  lemma {:induction false} TraceStep(worlds: seq<World>, steps: seq<Step>, i: nat, w: World)
    requires i < |steps| && Trace(worlds, PollsOf(steps[..i])) && StepDid(steps[i].Poll?)(worlds[i], w)
    ensures Trace(worlds + [w], PollsOf(steps[..i + 1]))
  {
    var (all, polls) := (worlds + [w], PollsOf(steps[..i + 1]));
    forall k | 0 <= k < i + 1
      ensures StepDid(polls[k])(all[k], all[k + 1])
    {
      if k < i {
        assert StepDid(PollsOf(steps[..i])[k])(worlds[k], worlds[k + 1]);
      }
    }
  }
}
