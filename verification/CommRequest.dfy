/** A non-blocking communicator request: a schedule of items, each a callback that waits for
    subrequests, and the history of what was done for it. */
module CommRequest {

  /** OMPI_COMM_REQUEST_MAX_SUBREQ */
  const MAX_SUBREQ := 2

  datatype Option<T> = None | Some(value: T)

  datatype Status = Success | BadParam

  /** An ompi_comm_request_item_t; its subreq_count is the length of `subreqs`. */
  datatype Item = Item(callback: Option<nat>, subreqs: seq<nat>)

  /** `Done(ok)`: req_complete is set; `ok` says whether MPI_ERROR is MPI_SUCCESS. */
  datatype State = Idle | Active | Done(ok: bool)

  datatype Event = Freed(subreq: nat) | Called(callback: nat) | Completed(ok: bool)

  /** What has happened to a request: the items ever appended to it, the results of those that are
      done with, and what was done in which order. */
  datatype Past = Past(all: seq<Item>, results: seq<int>, events: seq<Event>)

  datatype Request = Request(schedule: seq<Item>, state: State, past: Past)

  // ---------------------------------------------------------------------------
  // The invariant
  // ---------------------------------------------------------------------------

  /** The last `|subreqs| - k` subrequests being freed, last one first. */
  function Frees(subreqs: seq<nat>, k: nat): seq<Event>
    requires k <= |subreqs|
    decreases |subreqs| - k
  {
    if k == |subreqs| then [] else Frees(subreqs, k + 1) + [Freed(subreqs[k])]
  }

  function CallOf(item: Item): seq<Event> {
    if item.callback.Some? then [Called(item.callback.value)] else []
  }

  /** What is done for these items: each one's subrequests are freed, then its callback runs. */
  function Script(items: seq<Item>): seq<Event> {
    if items == [] then []
    else
      var last := items[|items| - 1];
      Script(items[..|items| - 1]) + (Frees(last.subreqs, 0) + CallOf(last))
  }

  /** What is scheduled is what was appended but for the first `n`; the head may have lost some
      subrequests. */
  ghost predicate Scheduled(all: seq<Item>, n: nat, schedule: seq<Item>) {
    && n <= |all| && |schedule| == |all| - n
    && (schedule != [] ==>
          && schedule[0].callback == all[n].callback && schedule[0].subreqs <= all[n].subreqs
          && schedule[1..] == all[n + 1..])
  }

  function HeadFrees(all: seq<Item>, n: nat, schedule: seq<Item>): seq<Event> {
    if schedule == [] || n >= |all| || |schedule[0].subreqs| > |all[n].subreqs| then []
    else Frees(all[n].subreqs, |schedule[0].subreqs|)
  }

  function LastOk(results: seq<int>): bool {
    results == [] || results[|results| - 1] == 0
  }

  ghost predicate RequestOk(q: Request, finished: set<nat>) {
    var (p, n) := (q.past, |q.past.results|);
    && Scheduled(p.all, n, q.schedule)
    && p.events == Script(p.all[..n]) + HeadFrees(p.all, n, q.schedule)
                   + (if q.state.Done? then [Completed(q.state.ok)] else [])
    && (q.state.Done? ==> q.schedule == [] && q.state.ok == LastOk(p.results))
    && (q.state.Idle? ==> p.results == [] && p.events == [])
    && (forall s :: Freed(s) in p.events ==> s in finished)
    && (forall item :: item in p.all ==> |item.subreqs| <= MAX_SUBREQ)
  }

  // ---------------------------------------------------------------------------
  // One request
  // ---------------------------------------------------------------------------

  function WithItem(q: Request, item: Item): Request {
    q.(schedule := q.schedule + [item], past := q.past.(all := q.past.all + [item]))
  }

  /** The head's last subrequest is freed. */
  function WithFreed(q: Request): Request
    requires q.schedule != [] && q.schedule[0].subreqs != []
  {
    var subreqs := q.schedule[0].subreqs;
    var (rest, last) := (subreqs[..|subreqs| - 1], subreqs[|subreqs| - 1]);
    q.(schedule := [q.schedule[0].(subreqs := rest)] + q.schedule[1..],
       past := q.past.(events := q.past.events + [Freed(last)]))
  }

  /** The head is done with, with result `rc`. */
  function WithResult(q: Request, rc: int): Request
    requires q.schedule != []
  {
    q.(schedule := q.schedule[1..],
       past := q.past.(results := q.past.results + [rc], events := q.past.events + CallOf(q.schedule[0])))
  }

  function WithCompletion(q: Request): Request {
    var ok := LastOk(q.past.results);
    q.(state := Done(ok), past := q.past.(events := q.past.events + [Completed(ok)]))
  }

  lemma {:induction false} AppendKeeps(q: Request, finished: set<nat>, item: Item)
    requires RequestOk(q, finished) && !q.state.Done? && |item.subreqs| <= MAX_SUBREQ
    ensures RequestOk(WithItem(q, item), finished)
  {
    var p := q.past;
    var (n, all, schedule) := (|p.results|, p.all + [item], q.schedule + [item]);
    assert all[..n] == p.all[..n];
    if q.schedule == [] {
      assert all[n] == item && schedule[1..] == all[n + 1..];
    } else {
      assert schedule[0] == q.schedule[0] && all[n] == p.all[n];
      assert schedule[1..] == q.schedule[1..] + [item];
      assert all[n + 1..] == p.all[n + 1..] + [item];
    }
  }

  /** The last subrequest of the head is complete and is freed. */
  lemma {:induction false} FreeKeeps(q: Request, finished: set<nat>)
    requires RequestOk(q, finished) && q.schedule != [] && q.state.Active? && q.schedule[0].subreqs != []
    requires q.schedule[0].subreqs[|q.schedule[0].subreqs| - 1] in finished
    ensures RequestOk(WithFreed(q), finished)
  {
    var p := q.past;
    var (n, k) := (|p.results|, |q.schedule[0].subreqs| - 1);
    var sub := p.all[n].subreqs[k];
    assert q.schedule[0].subreqs[k] == sub;
    var script := Script(p.all[..n]);
    Associates(script, Frees(p.all[n].subreqs, k + 1), [Freed(sub)]);
    assert p.events + [Freed(sub)] == script + Frees(p.all[n].subreqs, k) + [];
  }

  lemma {:induction false} Associates<T>(a: seq<T>, b: seq<T>, c: seq<T>)
    ensures (a + b) + c == a + (b + c)
  {
  }

  /** The head has no subrequests left: it is done with. */
  lemma {:induction false} PassKeeps(q: Request, finished: set<nat>, rc: int)
    requires RequestOk(q, finished) && q.schedule != [] && q.schedule[0].subreqs == [] && q.state.Active?
    ensures RequestOk(WithResult(q, rc), finished)
  {
    var p := q.past;
    var n := |p.results|;
    var (item, call, rest) := (p.all[n], CallOf(q.schedule[0]), q.schedule[1..]);
    assert p.all[..n + 1][..n] == p.all[..n] && p.all[..n + 1][n] == item;
    Associates(Script(p.all[..n]), Frees(item.subreqs, 0), call);
    assert call == CallOf(item);
    assert p.events + [] == p.events;
    assert p.events + call == Script(p.all[..n + 1]);
    assert rest != [] ==> rest[0] == p.all[n + 1];
    assert HeadFrees(p.all, n + 1, rest) == [];
    assert Script(p.all[..n + 1]) + [] + [] == Script(p.all[..n + 1]);
    forall s | Freed(s) in p.events + call
      ensures s in finished
    {
      assert Freed(s) in p.events;
    }
  }

  lemma {:induction false} CompleteKeeps(q: Request, finished: set<nat>)
    requires RequestOk(q, finished) && q.schedule == [] && q.state.Active?
    ensures RequestOk(WithCompletion(q), finished)
  {
    var p := q.past;
    assert Script(p.all[..|p.results|]) + [] + [] == p.events;
  }

  // ---------------------------------------------------------------------------
  // What the history says
  // ---------------------------------------------------------------------------

  /** The callbacks called, in order. */
  function Calls(events: seq<Event>): seq<nat> {
    if events == [] then []
    else
      var (before, last) := (Calls(events[..|events| - 1]), events[|events| - 1]);
      if last.Called? then before + [last.callback] else before
  }

  function Callbacks(items: seq<Item>): seq<nat> {
    if items == [] then []
    else
      var (before, last) := (Callbacks(items[..|items| - 1]), items[|items| - 1]);
      if last.callback.Some? then before + [last.callback.value] else before
  }

  /** How often a subrequest was given to the items. */
  function Uses(items: seq<Item>, s: nat): nat {
    if items == [] then 0
    else Uses(items[..|items| - 1], s) + multiset(items[|items| - 1].subreqs)[s]
  }

  lemma {:induction false} CallsAppend(a: seq<Event>, b: seq<Event>)
    ensures Calls(a + b) == Calls(a) + Calls(b)
    decreases |b|
  {
    if b == [] {
      assert a + b == a;
    } else {
      var m := |b| - 1;
      assert (a + b)[..|a + b| - 1] == a + b[..m];
      CallsAppend(a, b[..m]);
    }
  }

  lemma {:induction false} FreesCallNothing(subreqs: seq<nat>, k: nat)
    requires k <= |subreqs|
    ensures Calls(Frees(subreqs, k)) == []
    decreases |subreqs| - k
  {
    if k < |subreqs| {
      FreesCallNothing(subreqs, k + 1);
      assert Frees(subreqs, k)[..|Frees(subreqs, k)| - 1] == Frees(subreqs, k + 1);
    }
  }

  lemma {:induction false} ScriptCalls(items: seq<Item>)
    ensures Calls(Script(items)) == Callbacks(items)
  {
    if items != [] {
      var (before, last) := (items[..|items| - 1], items[|items| - 1]);
      ScriptCalls(before);
      FreesCallNothing(last.subreqs, 0);
      CallsAppend(Script(before), Frees(last.subreqs, 0) + CallOf(last));
      CallsAppend(Frees(last.subreqs, 0), CallOf(last));
      assert CallOf(last) != [] ==> CallOf(last)[..0] == [];
    }
  }

  /** The callbacks called are those of the items done with, each once, in the order appended. */
  lemma {:induction false} CallbacksInOrder(q: Request, finished: set<nat>)
    requires RequestOk(q, finished)
    ensures Calls(q.past.events) == Callbacks(q.past.all[..|q.past.results|])
    ensures q.state.Done? ==> Calls(q.past.events) == Callbacks(q.past.all)
  {
    var p := q.past;
    var n := |p.results|;
    var end := if q.state.Done? then [Completed(q.state.ok)] else [];
    ScriptCalls(p.all[..n]);
    CallsAppend(Script(p.all[..n]) + HeadFrees(p.all, n, q.schedule), end);
    CallsAppend(Script(p.all[..n]), HeadFrees(p.all, n, q.schedule));
    if q.schedule != [] {
      FreesCallNothing(p.all[n].subreqs, |q.schedule[0].subreqs|);
    }
    assert end != [] ==> end[..0] == [];
    assert q.state.Done? ==> p.all[..n] == p.all;
  }

  lemma {:induction false} ScriptPrefix(items: seq<Item>, i: nat)
    requires i <= |items|
    ensures Script(items[..i]) <= Script(items)
    decreases |items|
  {
    if i < |items| {
      var before := items[..|items| - 1];
      assert before[..i] == items[..i];
      ScriptPrefix(before, i);
    } else {
      assert items[..i] == items;
    }
  }

  /** A callback is called when the items before it are done with and its own subrequests are
      freed, and nothing else is done in between. */
  lemma {:induction false} CalledAfterItsSubrequests(q: Request, finished: set<nat>, i: nat)
    requires RequestOk(q, finished) && i < |q.past.results|
    ensures Script(q.past.all[..i]) + (Frees(q.past.all[i].subreqs, 0) + CallOf(q.past.all[i])) <= q.past.events
    ensures forall s :: s in q.past.all[i].subreqs ==> Freed(s) in Frees(q.past.all[i].subreqs, 0) && s in finished
  {
    var p := q.past;
    var n := |p.results|;
    assert p.all[..n][..i + 1] == p.all[..i + 1];
    ScriptPrefix(p.all[..n], i + 1);
    assert p.all[..i + 1][..i] == p.all[..i];
    var done := Script(p.all[..i]) + (Frees(p.all[i].subreqs, 0) + CallOf(p.all[i]));
    assert Script(p.all[..i + 1]) == done;
    assert done <= p.events;
    forall s | s in p.all[i].subreqs
      ensures Freed(s) in Frees(p.all[i].subreqs, 0) && s in finished
    {
      FreesCount(p.all[i].subreqs, 0, s);
      assert p.all[i].subreqs[0..] == p.all[i].subreqs;
      assert Freed(s) in done;
    }
  }

  lemma {:induction false} FreesCount(subreqs: seq<nat>, k: nat, s: nat)
    requires k <= |subreqs|
    ensures multiset(Frees(subreqs, k))[Freed(s)] == multiset(subreqs[k..])[s]
    decreases |subreqs| - k
  {
    if k < |subreqs| {
      FreesCount(subreqs, k + 1, s);
      assert subreqs[k..] == [subreqs[k]] + subreqs[k + 1..];
    }
  }

  lemma {:induction false} ScriptFrees(items: seq<Item>, s: nat)
    ensures multiset(Script(items))[Freed(s)] == Uses(items, s)
  {
    if items != [] {
      var last := items[|items| - 1];
      ScriptFrees(items[..|items| - 1], s);
      FreesCount(last.subreqs, 0, s);
      assert last.subreqs[0..] == last.subreqs;
    }
  }

  lemma {:induction false} UsesPrefix(items: seq<Item>, i: nat, s: nat)
    requires i < |items|
    ensures Uses(items[..i], s) + multiset(items[i].subreqs)[s] <= Uses(items, s)
    decreases |items|
  {
    var before := items[..|items| - 1];
    if i + 1 < |items| {
      assert before[..i] == items[..i] && before[i] == items[i];
      UsesPrefix(before, i, s);
    }
  }

  lemma {:induction false} HeadCount(all: seq<Item>, n: nat, schedule: seq<Item>, s: nat)
    requires Scheduled(all, n, schedule)
    ensures var freed := multiset(HeadFrees(all, n, schedule))[Freed(s)];
            if schedule == [] then freed == 0 else freed <= multiset(all[n].subreqs)[s]
  {
    if schedule != [] {
      var (subreqs, k) := (all[n].subreqs, |schedule[0].subreqs|);
      FreesCount(subreqs, k, s);
      CountSum(subreqs[..k], subreqs[k..], s);
      assert subreqs == subreqs[..k] + subreqs[k..];
    }
  }

  lemma {:induction false} ScriptBound(all: seq<Item>, n: nat, schedule: seq<Item>, s: nat)
    requires Scheduled(all, n, schedule)
    ensures multiset(Script(all[..n]) + HeadFrees(all, n, schedule))[Freed(s)] <= Uses(all, s)
    ensures schedule == [] ==> multiset(Script(all[..n]) + HeadFrees(all, n, schedule))[Freed(s)] == Uses(all, s)
  {
    ScriptFrees(all[..n], s);
    HeadCount(all, n, schedule, s);
    CountSum(Script(all[..n]), HeadFrees(all, n, schedule), Freed(s));
    if schedule == [] {
      assert all[..n] == all;
    } else {
      UsesPrefix(all, n, s);
    }
  }

  /** No subrequest is freed more often than it was given, and when the request is complete each
      was freed exactly as often. */
  lemma {:induction false} FreedOnce(q: Request, finished: set<nat>, s: nat)
    requires RequestOk(q, finished)
    ensures multiset(q.past.events)[Freed(s)] <= Uses(q.past.all, s)
    ensures q.schedule == [] ==> multiset(q.past.events)[Freed(s)] == Uses(q.past.all, s)
  {
    var (all, n) := (q.past.all, |q.past.results|);
    var end := if q.state.Done? then [Completed(q.state.ok)] else [];
    ScriptBound(all, n, q.schedule, s);
    CountSum(Script(all[..n]) + HeadFrees(all, n, q.schedule), end, Freed(s));
    assert Freed(s) !in end;
  }

  lemma {:induction false} CountSum<T>(a: seq<T>, b: seq<T>, x: T)
    ensures multiset(a + b)[x] == multiset(a)[x] + multiset(b)[x]
  {
  }

  lemma {:induction false} FreesComplete(subreqs: seq<nat>, k: nat)
    requires k <= |subreqs|
    ensures forall e :: e in Frees(subreqs, k) ==> e.Freed?
    decreases |subreqs| - k
  {
    if k < |subreqs| {
      FreesComplete(subreqs, k + 1);
    }
  }

  lemma {:induction false} ScriptComplete(items: seq<Item>)
    ensures forall e :: e in Script(items) ==> !e.Completed?
  {
    if items != [] {
      ScriptComplete(items[..|items| - 1]);
      FreesComplete(items[|items| - 1].subreqs, 0);
    }
  }

  /** A request is completed at most once, as the last thing done, and exactly when it is done;
      its error tells only of its last callback. */
  lemma {:induction false} CompletedOnce(q: Request, finished: set<nat>, i: nat)
    requires RequestOk(q, finished) && i < |q.past.events|
    ensures q.past.events[i].Completed? <==> q.state.Done? && i == |q.past.events| - 1
    ensures q.past.events[i].Completed? ==> q.past.events[i].ok == LastOk(q.past.results)
  {
    var p := q.past;
    var n := |p.results|;
    ScriptComplete(p.all[..n]);
    if q.schedule != [] {
      FreesComplete(p.all[n].subreqs, |q.schedule[0].subreqs|);
    }
    var body := Script(p.all[..n]) + HeadFrees(p.all, n, q.schedule);
    assert forall e :: e in body ==> !e.Completed?;
    if i < |body| {
      assert p.events[i] in body;
    }
  }
}
