/** The send side of the TCP transfer layer over one connection: how fragments are laid out,
    queued before the connection is up, and written in pieces. */
module TcpSend {
  import opened TcpFrame

  /** The sending end of the socket. The `k`th write takes `takes(k)` bytes of what it is offered, or
      all if that is less; a negative number is EWOULDBLOCK. */
  class Wire {
    const takes: nat -> int
    var next: nat
    var sent: seq<byte>
    /** What the last write was offered. */
    ghost var offered: nat

    constructor (takes: nat -> int)
      ensures this.takes == takes && sent == [] && next == 0
    {
      this.takes := takes;
      next, sent, offered := 0, [], 0;
    }

    /** How many of `n` bytes the next write takes, or -1. */
    function Count(n: nat): (r: int)
      reads this
      ensures -1 <= r <= n && (r == n <==> takes(next) >= n)
    {
      if takes(next) < 0 then -1 else if takes(next) < n then takes(next) else n
    }

    /** The last write did not take all it was offered. */
    ghost predicate Stalled()
      reads this
    {
      next > 0 && takes(next - 1) < offered
    }

    /** Takes some beginning of the vectors; -1 is EWOULDBLOCK. */
    method Writev(vectors: seq<seq<byte>>) returns (count: int)
      modifies this
      ensures count == old(Count(|Flatten(vectors)|)) && next == old(next) + 1 && offered == |Flatten(vectors)|
      ensures sent == if count == -1 then old(sent) else old(sent) + Flatten(vectors)[..count]
    {
      var all := Flatten(vectors);
      count := Count(|all|);
      next, offered := next + 1, |all|;
      if count != -1 {
        sent := sent + all[..count];
      }
    }
  }

  /** mca_btl_tcp2_frag_t on its way out. */
  class Fragment {
    /** The I/O vectors as submitted. */
    const vectors: seq<seq<byte>>
    /** MCA_BTL_DES_FLAGS_PRIORITY */
    const priority: bool
    /** What iov_ptr and iov_cnt still designate. */
    var rest: seq<seq<byte>>
    /** MCA_BTL_DES_SEND_ALWAYS_CALLBACK */
    var alwaysCallback: bool

    constructor (vectors: seq<seq<byte>>, priority: bool, alwaysCallback: bool)
      ensures this.vectors == rest == vectors
      ensures this.priority == priority && this.alwaysCallback == alwaysCallback
    {
      this.vectors, rest := vectors, vectors;
      this.priority, this.alwaysCallback := priority, alwaysCallback;
    }

    function Bytes(): seq<byte> {
      Flatten(vectors)
    }

    /** btl_tcp2_frag.c, lines 132 to 145: moves the vectors past `count` bytes. */
    method Advance(count: nat)
      requires count <= |Flatten(rest)|
      modifies this`rest
      ensures Flatten(rest) == Flatten(old(rest))[count..]
      ensures rest == [] <==> Flatten(rest) == []
    {
      var left: nat := count;
      while rest != []
        invariant left <= |Flatten(rest)|
        invariant Flatten(rest)[left..] == Flatten(old(rest))[count..]
        invariant rest == [] ==> left == 0
        decreases |rest|
      {
        ghost var (head, tail) := (rest[0], Flatten(rest[1..]));
        if left >= |rest[0]| {
          assert (head + tail)[left..] == tail[left - |head|..];
          left := left - |rest[0]|;
          rest := rest[1..];
        } else {
          assert (head + tail)[left..] == head[left..] + tail;
          rest := [rest[0][left..]] + rest[1..];
          return;
        }
      }
    }

    /** mca_btl_tcp2_frag_send: true exactly when the write takes all that is left. */
    method Send(wire: Wire) returns (done: bool)
      modifies wire, this`rest
      ensures wire.sent + Flatten(rest) == old(wire.sent) + Flatten(old(rest))
      ensures |wire.sent| == |old(wire.sent)| + (if old(wire.takes(wire.next)) < 0 then 0 else old(wire.Count(|Flatten(rest)|)))
      ensures done <==> old(wire.takes(wire.next)) >= |Flatten(old(rest))|
      ensures if done then rest == [] else wire.Stalled() && wire.offered == |Flatten(old(rest))|
      ensures Flatten(old(rest)) != [] ==> (done <==> Flatten(rest) == [])
      ensures old(wire.sent) <= wire.sent && |Flatten(rest)| <= |Flatten(old(rest))|
    {
      ghost var all := Flatten(rest);
      var count := wire.Writev(rest);
      if count == -1 {
        return false;
      }
      Advance(count);
      assert all[..count] + all[count..] == all;
      assert wire.sent + Flatten(rest) == old(wire.sent) + (all[..count] + all[count..]);
      return rest == [];
    }
  }

  function AllBytes(frags: seq<Fragment>): seq<byte> {
    if frags == [] then [] else frags[0].Bytes() + AllBytes(frags[1..])
  }

  lemma {:induction false} AllBytesAppend(a: seq<Fragment>, b: seq<Fragment>)
    ensures AllBytes(a + b) == AllBytes(a) + AllBytes(b)
  {
    if a == [] {
      assert a + b == b;
    } else {
      AllBytesAppend(a[1..], b);
      assert (a + b)[1..] == a[1..] + b;
      assert a[0].Bytes() + (AllBytes(a[1..]) + AllBytes(b)) == (a[0].Bytes() + AllBytes(a[1..])) + AllBytes(b);
    }
  }

  lemma {:induction false} AllBytesLast(frags: seq<Fragment>, frag: Fragment)
    ensures AllBytes(frags + [frag]) == AllBytes(frags) + frag.Bytes()
  {
    AllBytesAppend(frags, [frag]);
    assert AllBytes([frag]) == frag.Bytes() + AllBytes([frag][1..]) && [frag][1..] == [];
  }

  lemma {:induction false} Associates<T>(a: seq<T>, b: seq<T>, c: seq<T>)
    ensures a + (b + c) == (a + b) + c
  {
  }

  lemma {:induction false} SliceLast<T>(base: seq<T>, s: seq<T>, a: nat, b: nat)
    requires a <= b < |s|
    ensures base + s[a..b + 1] == (base + s[a..b]) + [s[b]]
  {
  }

  lemma {:induction false} SliceJoin<T>(base: seq<T>, s: seq<T>, b: nat, c: nat)
    requires b <= c <= |s|
    ensures base + s[..c] == (base + s[..b]) + s[b..c]
  {
  }

  datatype State = Closed | Connecting | ConnectAck | Connected | Failed

  /** What mca_btl_tcp2_endpoint_send returns. */
  datatype Status = Accepted | Completed | Unreachable

  class Endpoint {
    var state: State
    /** endpoint_send_frag and endpoint_frags */
    var sendFrag: Fragment?
    var pending: seq<Fragment>
    /** Whether the send event is registered. */
    var sendEvent: bool
    const wire: Wire

    /** Every fragment accepted, in order; those wholly written, in order, each with whether
        its callback was called for it. */
    var submitted: seq<Fragment>
    var finished: seq<Fragment>
    var notified: seq<bool>

    constructor (wire: Wire)
      requires wire.sent == []
      ensures Valid() && this.wire == wire
      ensures state == Closed && submitted == []
    {
      state, sendFrag, pending, sendEvent := Closed, null, [], false;
      submitted, finished, notified := [], [], [];
      this.wire := wire;
    }

    /** The fragments not wholly written, in the order they will be. */
    ghost function Queue(): seq<Fragment>
      reads this
    {
      (if sendFrag == null then [] else [sendFrag]) + pending
    }

    /** What of the queue is still to be written. */
    ghost function Left(): seq<byte>
      reads this, sendFrag
    {
      (if sendFrag == null then [] else Flatten(sendFrag.rest)) + AllBytes(pending)
    }

    ghost predicate Distinct()
      reads this
    {
      forall i, j :: 0 <= i < j < |submitted| ==> submitted[i] != submitted[j]
    }

    /** Fragments waiting behind the current one are untouched; every queued fragment will be
        called back. */
    ghost predicate QueueOk()
      reads this, sendFrag, pending
    {
      && (forall f :: f in pending ==> f.rest == f.vectors)
      && (forall f :: f in Queue() ==> f.alwaysCallback)
      && (sendFrag != null ==> |Flatten(sendFrag.rest)| <= |sendFrag.Bytes()| && HasMore(sendFrag))
    }

    /** A fragment that is not wholly written has bytes left, if it has any. */
    ghost predicate HasMore(f: Fragment)
      reads f
    {
      f.Bytes() != [] ==> Flatten(f.rest) != []
    }

    /** The connection state agrees with the queue: a connected endpoint without a current
        fragment has nothing pending, and one with a current fragment waits for writability. */
    ghost predicate StateOk()
      reads this, wire
    {
      && (state != Connected ==> sendFrag == null && wire.sent == [] && finished == [])
      && (state == Connected && sendFrag == null ==> pending == [])
      && (state == Connected && sendFrag != null ==> sendEvent)
    }

    ghost predicate Valid()
      reads this, wire, sendFrag, pending
    {
      && Distinct() && QueueOk() && StateOk()
      && submitted == finished + Queue() && |notified| == |finished|
      && wire.sent + Left() == AllBytes(submitted)
    }

    /** The fragment joins the pending list. */
    method Enqueue(frag: Fragment)
      requires Valid() && state != Failed && (state == Connected ==> sendFrag != null)
      requires frag !in submitted && frag.rest == frag.vectors
      modifies this`pending, this`submitted, frag`alwaysCallback
      ensures Valid() && submitted == old(submitted) + [frag]
    {
      frag.alwaysCallback := true;
      ghost var current := if sendFrag == null then [] else Flatten(sendFrag.rest);
      AllBytesLast(pending, frag);
      AllBytesLast(submitted, frag);
      Associates(current, AllBytes(pending), frag.Bytes());
      Associates(wire.sent, Left(), frag.Bytes());
      Associates(finished, Queue(), [frag]);
      Associates(if sendFrag == null then [] else [sendFrag], pending, [frag]);
      pending := pending + [frag];
      submitted := submitted + [frag];
    }

    /** mca_btl_tcp2_endpoint_send; `connect` is how starting a connection turns out. */
    method Send(frag: Fragment, connect: State) returns (status: Status)
      requires Valid() && frag !in submitted && frag.rest == frag.vectors
      requires connect in {Connecting, ConnectAck, Closed}
      modifies this`state, this`sendFrag, this`pending, this`sendEvent, this`submitted, this`finished, this`notified
      modifies wire, frag
      ensures Valid()
      ensures submitted == if old(state) == Failed then old(submitted) else old(submitted) + [frag]
      ensures old(wire.sent) <= wire.sent
      ensures !old(AtOnce(frag)) ==> wire.sent == old(wire.sent)
      ensures status == Completed <==> old(AtOnce(frag)) && old(wire.takes(wire.next)) >= |frag.Bytes()|
      ensures state == if old(state) == Closed then connect else old(state)
      ensures if status == Completed
              then finished == old(finished) + [frag] && notified == old(notified) + [old(frag.alwaysCallback)]
              else finished == old(finished) && notified == old(notified)
      ensures status == Unreachable <==> old(state) == Failed || (old(state) == Closed && connect == Closed)
    {
      if state == Failed {
        return Unreachable;
      }
      if state == Connected && sendFrag == null {
        status := SendNow(frag);
        return;
      }
      status := SendLater(frag, connect);
    }

    /** The fragment is written before the call returns. */
    ghost predicate AtOnce(frag: Fragment)
      reads this
    {
      state == Connected && sendFrag == null && frag.priority
    }

    /** btl_tcp2_endpoint.c, lines 244 to 251 and 275 to 276: the fragment queues, and a closed endpoint starts to
        connect. */
    method SendLater(frag: Fragment, connect: State) returns (status: Status)
      requires Valid() && state != Failed && (state == Connected ==> sendFrag != null)
      requires frag !in submitted && frag.rest == frag.vectors
      requires connect in {Connecting, ConnectAck, Closed}
      modifies this`state, this`pending, this`submitted, frag`alwaysCallback
      ensures Valid() && submitted == old(submitted) + [frag]
      ensures state == if old(state) == Closed then connect else old(state)
      ensures status == if state == Closed then Unreachable else Accepted
    {
      Enqueue(frag);
      if state == Closed {
        state := connect;
      }
      return if state == Closed then Unreachable else Accepted;
    }

    /** btl_tcp2_endpoint.c, lines 256 to 273: nothing is queued; a priority fragment is written at once. */
    method SendNow(frag: Fragment) returns (status: Status)
      requires Valid() && state == Connected && sendFrag == null
      requires frag !in submitted && frag.rest == frag.vectors
      modifies this`sendFrag, this`sendEvent, this`submitted, this`finished, this`notified, wire, frag
      ensures Valid() && submitted == old(submitted) + [frag]
      ensures old(wire.sent) <= wire.sent && status != Unreachable
      ensures !frag.priority ==> wire.sent == old(wire.sent)
      ensures status == Completed <==> frag.priority && old(wire.takes(wire.next)) >= |frag.Bytes()|
      ensures if status == Completed
              then finished == old(finished) + [frag] && notified == old(notified) + [old(frag.alwaysCallback)]
              else finished == old(finished) && notified == old(notified)
    {
      Accept(frag);
      var done := false;
      if frag.priority {
        done := frag.Send(wire);
      }
      if done {
        Report(frag);
        return Completed;
      }
      Hold(frag);
      return Accepted;
    }

    /** Between acceptance and the end of the fast path: `frag` is the last one accepted and the
        only one not finished. */
    ghost predicate OnlyLeft(frag: Fragment)
      reads this, wire, frag
    {
      && Distinct() && state == Connected && sendFrag == null && pending == []
      && submitted == finished + [frag] && |notified| == |finished|
      && wire.sent + Flatten(frag.rest) == AllBytes(submitted)
      && |Flatten(frag.rest)| <= |frag.Bytes()|
    }

    method Accept(frag: Fragment)
      requires Valid() && state == Connected && sendFrag == null
      requires frag !in submitted && frag.rest == frag.vectors
      modifies this`submitted
      ensures submitted == old(submitted) + [frag] && OnlyLeft(frag)
    {
      AllBytesLast(submitted, frag);
      assert Left() == [] && Queue() == [];
      assert wire.sent + [] == wire.sent && finished + [] == finished;
      submitted := submitted + [frag];
    }

    method Report(frag: Fragment)
      requires OnlyLeft(frag) && frag.rest == []
      modifies this`finished, this`notified
      ensures Valid() && finished == old(finished) + [frag] && notified == old(notified) + [frag.alwaysCallback]
    {
      finished := finished + [frag];
      notified := notified + [frag.alwaysCallback];
      assert Left() == [] && Queue() == [];
    }

    method Hold(frag: Fragment)
      requires OnlyLeft(frag) && HasMore(frag)
      modifies this`sendFrag, this`sendEvent, frag`alwaysCallback
      ensures Valid()
    {
      sendFrag := frag;
      sendEvent := true;
      frag.alwaysCallback := true;
      assert Left() == Flatten(frag.rest) && Queue() == [frag];
    }

    /** mca_btl_tcp2_endpoint_connected, reached from accept or from the acknowledgement. */
    method BecomeConnected()
      requires Valid() && state in {Closed, Connecting, ConnectAck}
      modifies this`state, this`sendFrag, this`pending, this`sendEvent
      ensures Valid() && state == Connected && Queue() == old(Queue())
    {
      state := Connected;
      if |pending| > 0 {
        if sendFrag == null {
          PopPending();
        }
        sendEvent := true;
      }
    }

    method PopPending()
      requires pending != [] && sendFrag == null
      requires forall f :: f in pending ==> f.rest == f.vectors
      modifies this`sendFrag, this`pending
      ensures sendFrag != null && Queue() == old(Queue()) && Left() == old(Left())
      ensures sendFrag == old(pending)[0] && pending == old(pending)[1..]
    {
      sendFrag := pending[0];
      pending := pending[1..];
    }

    lemma CurrentIsNotPending()
      requires Valid() && sendFrag != null
      ensures sendFrag !in pending
    {
      assert submitted[|finished|] == sendFrag;
      forall k | 0 <= k < |pending|
        ensures pending[k] != sendFrag
      {
        assert submitted[|finished| + 1 + k] == pending[k];
      }
    }

    /** Everything is in order but for the current fragment, of which nothing is left. */
    ghost predicate Written()
      reads this, wire, sendFrag, pending
    {
      && sendFrag != null && sendFrag.rest == [] && sendFrag.alwaysCallback
      && Distinct() && StateOk() && state == Connected
      && (forall f :: f in pending ==> f.rest == f.vectors && f.alwaysCallback)
      && submitted == finished + Queue() && |notified| == |finished|
      && wire.sent + AllBytes(pending) == AllBytes(submitted)
    }

    /** The current fragment stays because a write did not take all of it. */
    ghost predicate Held()
      reads this, wire
    {
      sendFrag != null && wire.Stalled() && wire.offered <= |AllBytes(submitted)|
    }

    /** One write of the current fragment. */
    method WriteCurrent() returns (done: bool)
      requires Valid() && sendFrag != null && state == Connected
      modifies wire, sendFrag`rest
      ensures old(wire.sent) <= wire.sent && (if done then Written() else Valid() && Held())
      ensures done <==> old(wire.takes(wire.next)) >= |Flatten(old(sendFrag.rest))|
    {
      ghost var start := wire.sent;
      ghost var (mine, others) := (Flatten(sendFrag.rest), AllBytes(pending));
      CurrentIsNotPending();
      done := sendFrag.Send(wire);
      Associates(start, mine, others);
      Associates(wire.sent, Flatten(sendFrag.rest), others);
    }

    /** btl_tcp2_endpoint.c, lines 777 to 789: the current fragment is written; the next one takes its place. */
    method CompleteCurrent()
      requires Written()
      modifies this`sendFrag, this`pending, this`finished, this`notified
      ensures Valid() && |Queue()| + 1 == |old(Queue())|
      ensures finished == old(finished) + [old(sendFrag)] && notified == old(notified) + [true]
    {
      ghost var queue := Queue();
      Associates(finished, [sendFrag], pending);
      ghost var left := AllBytes(pending);
      finished := finished + [sendFrag];
      notified := notified + [true];
      sendFrag := null;
      assert Left() == left && Queue() == pending == queue[1..];
      if pending != [] {
        PopPending();
      }
    }

    /** The fragments from `k` on are not submitted yet. */
    ghost predicate Fresh(frags: seq<Fragment>, k: nat)
      reads this, frags
    {
      && (forall i, j :: k <= i < j < |frags| ==> frags[i] != frags[j])
      && (forall i :: k <= i < |frags| ==> frags[i] !in submitted && frags[i].rest == frags[i].vectors)
    }

    /** What the callback of a finished fragment may do while the lock is released: submit the
        next few of `replies`. */
    method Callback(replies: seq<Fragment>, from: nat) returns (to: nat)
      requires Valid() && state == Connected && Fresh(replies, from) && from <= |replies|
      modifies this`state, this`sendFrag, this`pending, this`sendEvent, this`submitted, this`finished, this`notified
      modifies wire, replies
      ensures Valid() && state == Connected && old(wire.sent) <= wire.sent
      ensures from <= to <= |replies| && Fresh(replies, to)
      ensures submitted == old(submitted) + replies[from..to]
      ensures old(finished) <= finished && old(notified) <= notified
    {
      var n: nat :| from <= n <= |replies|;
      to := from;
      while to < n
        invariant from <= to <= n && Valid() && state == Connected && Fresh(replies, to)
        invariant submitted == old(submitted) + replies[from..to]
        invariant old(wire.sent) <= wire.sent
        invariant old(finished) <= finished && old(notified) <= notified
      {
        SliceLast(old(submitted), replies, from, to);
        var status := Send(replies[to], Closed);
        to := to + 1;
      }
    }

    /** One round of the send handler's loop, with a current fragment. */
    method Round(replies: seq<Fragment>, from: nat) returns (done: bool, to: nat)
      requires Valid() && state == Connected && sendFrag != null && Fresh(replies, from) && from <= |replies|
      modifies this`state, this`sendFrag, this`pending, this`sendEvent, this`submitted, this`finished, this`notified
      modifies wire, sendFrag, replies
      ensures Valid() && state == Connected && old(wire.sent) <= wire.sent
      ensures from <= to <= |replies| && Fresh(replies, to)
      ensures submitted == old(submitted) + replies[from..to]
      ensures old(finished) <= finished && old(notified) <= notified
      ensures if done then |finished| > |old(finished)| else Held()
    {
      to := from;
      done := WriteCurrent();
      if done {
        CompleteCurrent();
        to := Callback(replies, from);
      }
    }

    /** btl_tcp2_endpoint.c, lines 770 to 795: writes fragments until one does not go out whole or none is left. */
    method Drain(replies: seq<Fragment>) returns (accepted: nat)
      requires Valid() && state == Connected && Fresh(replies, 0)
      modifies this`state, this`sendFrag, this`pending, this`sendEvent, this`submitted, this`finished, this`notified
      modifies wire, sendFrag, pending, replies
      ensures Valid() && state == Connected && old(wire.sent) <= wire.sent
      ensures accepted <= |replies| && submitted == old(submitted) + replies[..accepted]
      ensures old(finished) <= finished && old(notified) <= notified
      ensures sendFrag != null ==> Held()
    {
      accepted := 0;
      ghost var queue := Queue();
      var done := true;
      while done && sendFrag != null
        invariant Valid() && state == Connected && old(wire.sent) <= wire.sent
        invariant accepted <= |replies| && Fresh(replies, accepted)
        invariant submitted == old(submitted) + replies[..accepted]
        invariant old(finished) <= finished && old(notified) <= notified
        invariant !done ==> Held()
        decreases |submitted| + |replies| - accepted - |finished|, done
      {
        CurrentOrigin(old(submitted), old(finished), queue, replies[..accepted]);
        ghost var before := accepted;
        done, accepted := Round(replies, accepted);
        SliceJoin(old(submitted), replies, before, accepted);
      }
    }

    /** The CONNECTED branch of the send handler; `replies` are what the callbacks may submit,
        in order, and the first `accepted` of them what they did. */
    method SendHandler(replies: seq<Fragment>) returns (accepted: nat)
      requires Valid() && state == Connected && Fresh(replies, 0)
      modifies this`state, this`sendFrag, this`pending, this`sendEvent, this`submitted, this`finished, this`notified
      modifies wire, sendFrag, pending, replies
      ensures Valid() && state == Connected && old(wire.sent) <= wire.sent
      ensures accepted <= |replies| && submitted == old(submitted) + replies[..accepted]
      ensures old(finished) <= finished && old(notified) <= notified
      ensures sendEvent <==> sendFrag != null
      ensures sendFrag != null ==> Held()
      ensures (forall k: nat :: wire.takes(k) >= |AllBytes(submitted)|) ==> sendFrag == null && finished == submitted
    {
      accepted := Drain(replies);
      if sendFrag == null {
        assert finished + [] == finished;
      }
      sendEvent := sendFrag != null;
    }

    /** The current fragment was queued or submitted after an earlier moment. */
    lemma CurrentOrigin(submittedThen: seq<Fragment>, finishedThen: seq<Fragment>, queueThen: seq<Fragment>, since: seq<Fragment>)
      requires Valid() && sendFrag != null
      requires submittedThen == finishedThen + queueThen
      requires submitted == submittedThen + since && finishedThen <= finished
      ensures sendFrag in queueThen || sendFrag in since
    {
      assert submitted[|finished|] == sendFrag;
      if |finished| < |submittedThen| {
        assert queueThen[|finished| - |finishedThen|] == sendFrag;
      }
    }

    /** A fragment is finished, and so reported, exactly when its last byte is written. */
    lemma {:induction false} FinishedExactly(k: nat)
      requires Valid() && 0 < k <= |submitted| && forall f :: f in submitted ==> f.Bytes() != []
      ensures k <= |finished| <==> |AllBytes(submitted[..k])| <= |wire.sent|
    {
      StreamInOrder();
      if k <= |finished| {
        assert submitted[..k] == finished[..k];
        AllBytesAppend(finished[..k], finished[k..]);
        assert finished[..k] + finished[k..] == finished;
      } else {
        var n := |finished|;
        assert submitted[..k] == finished + submitted[n..k];
        AllBytesAppend(finished, submitted[n..k]);
        assert submitted[n..k][0] == submitted[n];
        assert |AllBytes(submitted[n..k])| >= |submitted[n].Bytes()|;
        Unfinished();
      }
    }

    /** Of the first fragment that is not finished something is not written. */
    lemma {:induction false} Unfinished()
      requires Valid() && |finished| < |submitted| && submitted[|finished|].Bytes() != []
      ensures |wire.sent| < |AllBytes(finished)| + |submitted[|finished|].Bytes()|
    {
      AllBytesAppend(finished, Queue());
      var f := submitted[|finished|];
      assert Queue()[0] == f;
      if sendFrag != null {
        assert f == sendFrag;
        AllBytesAppend([f], pending);
        AllBytesLast([], f);
        assert [] + [f] == [f];
      } else {
        assert pending == Queue() && Left() == AllBytes(pending);
        assert AllBytes(pending) == f.Bytes() + AllBytes(pending[1..]);
      }
    }

    /** What every reachable state says about the stream: it is a beginning of everything
        submitted, in order; whatever is finished is wholly on it; and a connected endpoint
        without a current fragment has written everything. */
    lemma StreamInOrder()
      requires Valid()
      ensures wire.sent <= AllBytes(submitted)
      ensures finished <= submitted && AllBytes(finished) <= wire.sent
      ensures state == Connected && sendFrag == null ==> finished == submitted && wire.sent == AllBytes(submitted)
    {
      var queue := Queue();
      AllBytesAppend(finished, queue);
      if sendFrag == null {
        assert queue == pending && Left() == AllBytes(queue);
      } else {
        AllBytesAppend([sendFrag], pending);
        AllBytesLast([], sendFrag);
        assert [] + [sendFrag] == [sendFrag] && [] + sendFrag.Bytes() == sendFrag.Bytes();
      }
      ShorterRest(wire.sent, Left(), AllBytes(finished), AllBytes(queue));
      if state == Connected && sendFrag == null {
        assert Left() == [] && queue == [] && wire.sent + [] == wire.sent && finished + [] == finished;
      }
    }
  }

  lemma {:induction false} ShorterRest(a: seq<byte>, x: seq<byte>, b: seq<byte>, y: seq<byte>)
    requires a + x == b + y && |x| <= |y|
    ensures b <= a
  {
    assert a == (a + x)[..|a|] && b == (b + y)[..|b|];
  }

  // ---------------------------------------------------------------------------
  // What mca_btl_tcp2_send and mca_btl_tcp2_put submit
  // ---------------------------------------------------------------------------

  lemma {:induction false} FlattenAppend(a: seq<seq<byte>>, b: seq<seq<byte>>)
    ensures Flatten(a + b) == Flatten(a) + Flatten(b)
  {
    if a == [] {
      assert a + b == b;
    } else {
      FlattenAppend(a[1..], b);
      assert (a + b)[1..] == a[1..] + b;
      Associates(a[0], Flatten(a[1..]), Flatten(b));
    }
  }

  lemma {:induction false} FlattenLast(a: seq<seq<byte>>, x: seq<byte>)
    ensures Flatten(a + [x]) == Flatten(a) + x
  {
    FlattenAppend(a, [x]);
    assert Flatten([x]) == x + Flatten([x][1..]) && [x][1..] == [];
  }

  /** The vectors behind the fixed ones, and hdr.size, which is 32 bits wide. */
  method GatherSources(sources: seq<seq<byte>>) returns (vectors: seq<seq<byte>>, size: nat)
    ensures vectors == sources
    ensures size == |Flatten(sources)| % 0x1_0000_0000
  {
    vectors, size := [], 0;
    for i := 0 to |sources|
      invariant vectors == sources[..i]
      invariant size == |Flatten(sources[..i])| % 0x1_0000_0000
    {
      FlattenLast(sources[..i], sources[i]);
      assert sources[..i + 1] == sources[..i] + [sources[i]];
      size := (size + |sources[i]|) % 0x1_0000_0000;
      vectors := vectors + [sources[i]];
    }
    assert sources[..|sources|] == sources;
  }

  lemma PowerFour()
    ensures Power(4) == 0x1_0000_0000
  {
    PowerValues();
  }

  lemma {:induction false} FlattenWith(first: seq<byte>, rest: seq<seq<byte>>)
    ensures Flatten([first] + rest) == first + Flatten(rest)
  {
    assert ([first] + rest)[1..] == rest;
  }

  /** mca_btl_tcp2_send: the vectors it builds spell the encoded message. */
  method SendVectors(tag: byte, sources: seq<seq<byte>>) returns (vectors: seq<seq<byte>>)
    requires |Flatten(sources)| < Power(4)
    ensures Flatten(vectors) == Encode(Message.Send(tag, Flatten(sources)))
    ensures WellFormed(Message.Send(tag, Flatten(sources)))
  {
    PowerFour();
    var data, size := GatherSources(sources);
    var header := EncodeHeader(Header(tag, TYPE_SEND, 0, size));
    vectors := [header] + data;
    FlattenWith(header, data);
  }

  /** One or two destinations, as segments[2] has room for, that take exactly the sources. */
  ghost predicate Matching(destinations: seq<Segment>, sources: seq<seq<byte>>) {
    && 1 <= |destinations| <= 2 && |sources| == |destinations|
    && forall i :: 0 <= i < |destinations| ==>
         destinations[i].addr < Power(8) && destinations[i].len < Power(8) && |sources[i]| == destinations[i].len
  }

  /** mca_btl_tcp2_put: header, descriptors, then the data. */
  method PutVectors(destinations: seq<Segment>, sources: seq<seq<byte>>) returns (vectors: seq<seq<byte>>)
    requires |Flatten(sources)| < Power(4)
    ensures Flatten(vectors) == Encode(Put(destinations, sources))
    ensures WellFormed(Put(destinations, sources)) <==> Matching(destinations, sources)
  {
    PowerFour();
    var data, size := GatherSources(sources);
    var header := EncodeHeader(Header(TAG_BTL, TYPE_PUT, |destinations|, size));
    var descriptors := EncodeSegments(destinations);
    vectors := [header] + ([descriptors] + data);
    FlattenWith(header, [descriptors] + data);
    FlattenWith(descriptors, data);
  }
}
