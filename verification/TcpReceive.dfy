/** The receive side of the TCP transfer layer: mca_btl_tcp2_frag_recv and the CONNECTED
    branch of the receive handler, over one connection. */
module TcpReceive {
  import opened TcpFrame

  /** The bytes the peer sends on this connection, and how many were read. The `k`th read finds
      `sizes[k]` bytes to return, as far as there is room and something is left; none is
      EWOULDBLOCK. */
  class Socket {
    const stream: seq<byte>
    const sizes: seq<nat>
    var next: nat
    var offset: nat

    ghost predicate Valid()
      reads this
    {
      offset <= |stream|
    }

    /** Everything read so far. */
    ghost function Taken(): seq<byte>
      reads this
      requires Valid()
    {
      stream[..offset]
    }

    /** What the next read returns into so much room. */
    function Offers(room: nat): nat
      reads this
      requires offset <= |stream|
    {
      Min(if next < |sizes| then sizes[next] else 0, Min(room, |stream| - offset))
    }

    constructor (stream: seq<byte>, sizes: seq<nat>)
      ensures this.stream == stream && this.sizes == sizes && offset == 0 && next == 0
    {
      this.stream, this.sizes := stream, sizes;
      offset, next := 0, 0;
    }

    method Readv(capacity: nat) returns (bytes: seq<byte>)
      requires Valid()
      modifies this
      ensures Valid() && offset == old(offset) + old(Offers(capacity)) <= old(offset) + capacity
      ensures bytes == stream[old(offset)..offset]
    {
      var n := Offers(capacity);
      bytes := stream[offset..offset + n];
      offset := offset + n;
      next := next + 1;
    }
  }

  function Min(a: nat, b: nat): nat {
    if a < b then a else b
  }

  lemma {:induction false} SumSplits(xs: seq<nat>, k: nat)
    requires k <= |xs|
    ensures Sum(xs) == Sum(xs[..k]) + Sum(xs[k..])
  {
    if k == 0 {
      assert xs[0..] == xs;
    } else {
      SumSplits(xs[1..], k - 1);
      assert xs[1..][..k - 1] == xs[..k][1..] && xs[1..][k - 1..] == xs[k..];
    }
  }

  lemma {:induction false} SumTail(xs: seq<nat>, i: nat)
    requires i < |xs|
    ensures Sum(xs[i..]) == xs[i] + Sum(xs[i + 1..])
    ensures Sum(xs[i..]) <= Sum(xs)
  {
    assert xs[i..][1..] == xs[i + 1..];
    SumSplits(xs, i);
  }

  /** The I/O vector state after `count` bytes: what is still needed of the vectors that are
      not full, and how many bytes were too many. */
  function Advanced(needs: seq<nat>, count: nat): (r: (seq<nat>, nat))
    ensures |r.0| <= |needs|
    ensures Sum(r.0) == Sum(needs) - Min(count, Sum(needs))
    ensures r.1 == count - Min(count, Sum(needs))
    ensures r.0 != [] ==> r.1 == 0 && r.0[0] > 0
    ensures r.0 != [] ==> r.0[0] <= needs[|needs| - |r.0|] && r.0[1..] == needs[|needs| - |r.0| + 1..]
  {
    if needs == [] then ([], count)
    else if count < needs[0] then ([needs[0] - count] + needs[1..], 0)
    else
      var r := Advanced(needs[1..], count - needs[0]);
      assert r.0 != [] ==> needs[1..][|needs[1..]| - |r.0| + 1..] == needs[|needs| - |r.0| + 1..];
      r
  }

  /** What the receiver of a message is given: the payload in the segment of the SEND callback, a
      segment of `length` bytes that an earlier message left there, or data in place for a PUT. */
  datatype Shown = Payload(tag: byte, payload: seq<byte>) | Leftover(tag: byte, length: nat) | Stored

  function ShownFor(m: Message, stale: nat): Shown {
    match m
    case Send(tag, payload) => if payload == [] then Leftover(tag, stale) else Payload(tag, payload)
    case Put(_, _) => Stored
  }

  /** segments[0].seg_len after a message, when it was `stale` before. */
  function SegAfter(m: Message, stale: nat): nat {
    match m
    case Send(_, payload) => if payload == [] then stale else |payload|
    case Put(segments, _) => if segments == [] then stale else segments[0].len
  }

  /** A PUT whose segments are all empty. */
  predicate NoData(m: Message) {
    m.Put? && forall i :: 0 <= i < |m.segments| ==> m.segments[i].len == 0
  }

  /** Where message `i` begins in the stream. */
  function StartOf(msgs: seq<Message>, i: nat): nat
    requires i <= |msgs|
  {
    |EncodeAll(msgs[..i])|
  }

  /** The first event before which `x` bytes had been read. */
  function FirstAt(marks: seq<nat>, x: nat): (k: nat)
    ensures k <= |marks| && (k < |marks| ==> marks[k] == x) && forall j :: 0 <= j < k ==> marks[j] != x
  {
    if marks == [] || marks[0] == x then 0 else 1 + FirstAt(marks[1..], x)
  }

  /** Message `i` is received into a newly allocated fragment: some event found all before it read,
      and no data-free PUT was waiting then. `marks[k]` is how much had been read before event `k`. */
  predicate NewFragment(msgs: seq<Message>, marks: seq<nat>, i: nat)
    requires i <= |msgs|
  {
    FirstAt(marks, StartOf(msgs, i)) < |marks| && (i == 0 || !NoData(msgs[i - 1]))
  }

  /** segments[0].seg_len of the fragment for message `i`: what a new fragment happens to hold, else what
      the message before has left. */
  function LeftIn(msgs: seq<Message>, leftovers: seq<nat>, marks: seq<nat>, i: nat): nat
    requires i <= |msgs| && |leftovers| == |marks|
  {
    if NewFragment(msgs, marks, i) then leftovers[FirstAt(marks, StartOf(msgs, i))]
    else if i == 0 then 0
    else SegAfter(msgs[i - 1], LeftIn(msgs, leftovers, marks, i - 1))
  }

  /** What the callbacks of the first `d` messages were given. */
  ghost predicate Shows(msgs: seq<Message>, leftovers: seq<nat>, marks: seq<nat>, log: seq<Shown>, d: nat)
    requires d <= |msgs| && |leftovers| == |marks|
  {
    |log| == d && forall i :: 0 <= i < d ==> log[i] == ShownFor(msgs[i], LeftIn(msgs, leftovers, marks, i))
  }

  /** Every event so far began before all of the first `d` messages was read, but for a data-free
      PUT at the end that waits. */
  ghost predicate Behind(msgs: seq<Message>, marks: seq<nat>, d: nat)
    requires d <= |msgs|
  {
    forall k :: 0 <= k < |marks| ==>
      marks[k] < StartOf(msgs, d) || (marks[k] == StartOf(msgs, d) && d > 0 && NoData(msgs[d - 1]))
  }

  /** The log and the segment of the fragment in use, after `read` bytes and `d` messages. */
  ghost predicate History(msgs: seq<Message>, leftovers: seq<nat>, marks: seq<nat>, o: Outcome, log: seq<Shown>, d: nat, stale: nat, read: nat)
    requires d <= |msgs|
  {
    match o
    case Idle => |leftovers| == |marks| && Shows(msgs, leftovers, marks, log, d) && Behind(msgs, marks, d)
    case Open | Finished | Repeat =>
      && |leftovers| == |marks| && Shows(msgs, leftovers, marks, log, d)
      && stale == LeftIn(msgs, leftovers, marks, d) && (d < |msgs| ==> Behind(msgs, marks, d + 1))
      && (FirstAt(marks, StartOf(msgs, d)) < |marks| || StartOf(msgs, d) < read)
  }

  lemma {:induction false} StartsAscend(msgs: seq<Message>, i: nat, j: nat)
    requires i < j <= |msgs|
    ensures StartOf(msgs, i) < StartOf(msgs, j)
  {
    assert msgs[..j][..i] == msgs[..i];
    FewerAreShorter(msgs[..j], i);
  }

  lemma {:induction false} StartNext(msgs: seq<Message>, d: nat)
    requires d < |msgs|
    ensures StartOf(msgs, d + 1) == StartOf(msgs, d) + |Encode(msgs[d])|
  {
    assert msgs[..d + 1] == msgs[..d] + [msgs[d]];
    EncodeAllLast(msgs[..d], msgs[d]);
  }

  lemma {:induction false} FirstStays(marks: seq<nat>, t: nat, x: nat)
    requires FirstAt(marks, x) < |marks| || t != x
    ensures FirstAt(marks + [t], x) < |marks| + 1 <==> FirstAt(marks, x) < |marks|
    ensures FirstAt(marks, x) < |marks| ==> FirstAt(marks + [t], x) == FirstAt(marks, x)
  {
    if marks != [] && marks[0] != x {
      assert (marks + [t])[1..] == marks[1..] + [t];
      FirstStays(marks[1..], t, x);
    }
  }

  lemma {:induction false} FirstIsLast(marks: seq<nat>, t: nat)
    requires forall k :: 0 <= k < |marks| ==> marks[k] != t
    ensures FirstAt(marks + [t], t) == |marks|
  {
    if marks != [] {
      assert (marks + [t])[1..] == marks[1..] + [t];
      FirstIsLast(marks[1..], t);
    }
  }

  /** One more event changes nothing for messages that begin before it. */
  lemma {:induction false} LeftStays(msgs: seq<Message>, leftovers: seq<nat>, marks: seq<nat>, left: nat, t: nat, i: nat)
    requires i <= |msgs| && |leftovers| == |marks| && StartOf(msgs, i) <= t
    requires FirstAt(marks, StartOf(msgs, i)) < |marks| || StartOf(msgs, i) < t
    ensures LeftIn(msgs, leftovers + [left], marks + [t], i) == LeftIn(msgs, leftovers, marks, i)
  {
    FirstStays(marks, t, StartOf(msgs, i));
    if i > 0 {
      StartsAscend(msgs, i - 1, i);
      LeftStays(msgs, leftovers, marks, left, t, i - 1);
    }
  }

  lemma {:induction false} ShowsStays(msgs: seq<Message>, leftovers: seq<nat>, marks: seq<nat>, left: nat, t: nat, log: seq<Shown>, d: nat)
    requires d <= |msgs| && |leftovers| == |marks| && Shows(msgs, leftovers, marks, log, d) && StartOf(msgs, d) <= t
    ensures Shows(msgs, leftovers + [left], marks + [t], log, d)
  {
    forall i | 0 <= i < d
      ensures log[i] == ShownFor(msgs[i], LeftIn(msgs, leftovers + [left], marks + [t], i))
    {
      StartsAscend(msgs, i, d);
      LeftStays(msgs, leftovers, marks, left, t, i);
    }
  }

  lemma {:induction false} BehindMore(msgs: seq<Message>, marks: seq<nat>, t: nat, d: nat)
    requires d < |msgs| && Behind(msgs, marks, d + 1)
    requires t < StartOf(msgs, d + 1) || (t == StartOf(msgs, d + 1) && NoData(msgs[d]))
    ensures Behind(msgs, marks + [t], d + 1)
  {
  }

  lemma {:induction false} BehindNext(msgs: seq<Message>, marks: seq<nat>, d: nat)
    requires d < |msgs| && Behind(msgs, marks, d)
    ensures Behind(msgs, marks, d + 1)
  {
    StartsAscend(msgs, d, d + 1);
  }

  /** An event that finds a fragment waiting. */
  lemma {:induction false} EventGoesOn(msgs: seq<Message>, leftovers: seq<nat>, marks: seq<nat>, left: nat, log: seq<Shown>, d: nat, stale: nat, read: nat)
    requires d <= |msgs| && History(msgs, leftovers, marks, Open, log, d, stale, read) && StartOf(msgs, d) <= read
    requires d < |msgs| ==> read < StartOf(msgs, d + 1) || (read == StartOf(msgs, d + 1) && NoData(msgs[d]))
    ensures History(msgs, leftovers + [left], marks + [read], Repeat, log, d, stale, read)
  {
    ShowsStays(msgs, leftovers, marks, left, read, log, d);
    LeftStays(msgs, leftovers, marks, left, read, d);
    FirstStays(marks, read, StartOf(msgs, d));
    if d < |msgs| {
      BehindMore(msgs, marks, read, d);
    }
  }

  /** An event that allocates a fragment. */
  lemma {:induction false} EventBegins(msgs: seq<Message>, leftovers: seq<nat>, marks: seq<nat>, left: nat, log: seq<Shown>, d: nat, stale: nat, read: nat)
    requires d <= |msgs| && History(msgs, leftovers, marks, Idle, log, d, stale, read)
    requires read == StartOf(msgs, d) && (d > 0 ==> !NoData(msgs[d - 1]))
    ensures History(msgs, leftovers + [left], marks + [read], Repeat, log, d, left, read)
  {
    ShowsStays(msgs, leftovers, marks, left, read, log, d);
    FirstIsLast(marks, read);
    if d < |msgs| {
      BehindNext(msgs, marks, d);
      StartsAscend(msgs, d, d + 1);
      BehindMore(msgs, marks, read, d);
    }
  }

  /** A complete message is shown and handed over. */
  lemma {:induction false} ShownNext(msgs: seq<Message>, leftovers: seq<nat>, marks: seq<nat>, log: seq<Shown>, d: nat, stale: nat, read: nat)
    requires d < |msgs| && History(msgs, leftovers, marks, Finished, log, d, stale, read)
    ensures History(msgs, leftovers, marks, Idle, log + [ShownFor(msgs[d], stale)], d + 1, stale, read)
  {
  }

  /** The next message is received into the fragment of the one before. */
  lemma {:induction false} GoesOnInSame(msgs: seq<Message>, leftovers: seq<nat>, marks: seq<nat>, log: seq<Shown>, d: nat, stale: nat, read: nat)
    requires 0 < d <= |msgs| && History(msgs, leftovers, marks, Idle, log, d, stale, read) && StartOf(msgs, d) < read
    ensures History(msgs, leftovers, marks, Repeat, log, d, SegAfter(msgs[d - 1], LeftIn(msgs, leftovers, marks, d - 1)), read)
  {
    if d < |msgs| {
      BehindNext(msgs, marks, d);
    }
  }

  lemma {:induction false} ReadOn(msgs: seq<Message>, leftovers: seq<nat>, marks: seq<nat>, o: Outcome, o2: Outcome, log: seq<Shown>, d: nat, stale: nat, read: nat, more: nat)
    requires d <= |msgs| && History(msgs, leftovers, marks, o, log, d, stale, read) && read <= more && !o.Idle? && !o2.Idle?
    ensures History(msgs, leftovers, marks, o2, log, d, stale, more)
  {
  }

  /** Where the receiver stands: waiting for bytes, with a complete fragment, with bytes in the
      cache to go on with, or without a fragment. */
  datatype Outcome = Open | Finished | Repeat | Idle

  class Endpoint {
    /** endpoint_cache, endpoint_cache_pos (as an offset) and endpoint_cache_length. */
    const cache: array<byte>
    var pos: nat
    var length: nat

    /** The fragment being received: `lens` are the vectors set up so far (iov[0..]), the
        first `idx` of them are full, `needs` is what the others lack (iov_len). `body` is what
        was copied into them in order. With `viewAt >= 0` the payload was not copied: vector 1
        points into the cache at that offset. */
    var busy: bool
    var lens: seq<nat>
    var idx: nat
    var needs: seq<nat>
    var body: seq<byte>
    var viewAt: int

    /** segments[0].seg_len of the fragment, and what it was when the fragment was set up. */
    var segLen: nat
    ghost var stale: nat

    /** The messages completed, and what their receivers were given. */
    var delivered: seq<Message>
    var log: seq<Shown>

    /** For each event so far, how much had been read before it, and what segments[0].seg_len of a
        fragment allocated then happens to be. */
    ghost var marks: seq<nat>
    ghost var leftovers: seq<nat>

    constructor (size: nat)
      requires size > 0
      ensures fresh(cache) && cache.Length == size
      ensures pos == length == 0 && !busy && delivered == [] && log == [] && marks == [] && leftovers == []
    {
      cache := new byte[size](_ => 0);
      pos, length := 0, 0;
      busy, lens, idx, needs, body, viewAt := false, [], 0, [], [], -1;
      delivered, log, marks, leftovers := [], [], [], [];
      segLen, stale := 0, 0;
    }

    ghost predicate CacheOk()
      reads `pos, `length
    {
      && cache.Length > 0
      && pos + length <= cache.Length
      && (length == 0 ==> pos == 0)
    }

    ghost function Cached(): seq<byte>
      reads `pos, `length, cache
      requires pos + length <= cache.Length
    {
      cache[pos..pos + length]
    }

    ghost predicate ViewOk()
      reads `viewAt, `lens, `idx, `body
    {
      viewAt < 0 || (|lens| == 2 && idx <= 2 && |body| == HEADER && viewAt + lens[1] <= cache.Length)
    }

    /** The bytes of the current fragment, wherever they are. */
    ghost function Content(): seq<byte>
      reads `viewAt, `lens, `idx, `body, cache
      requires ViewOk()
    {
      if viewAt < 0 then body else body + cache[viewAt..viewAt + lens[1]]
    }

    ghost predicate VectorsOk()
      reads `lens, `idx, `needs
    {
      && |lens| == idx + |needs|
      && (needs != [] ==> needs[0] <= lens[idx] && needs[1..] == lens[idx + 1..])
    }

    /** MCA_BTL_TCP_FRAG_INIT_DST */
    method InitDst()
      modifies this`lens, this`idx, this`needs, this`body, this`viewAt
      ensures lens == [HEADER] && idx == 0 && needs == [HEADER] && body == [] && viewAt == -1
    {
      lens, idx, needs, body, viewAt := [HEADER], 0, [HEADER], [], -1;
    }

    /** Hands the next `chunk` cached bytes to the open vector `i`. */
    method CopyOne(i: nat, chunk: nat, dontCopy: bool)
      requires pos + length <= cache.Length && ViewOk() && VectorsOk() && viewAt < 0
      requires i < |needs| && chunk <= needs[i] && chunk <= length && length > 0
      requires dontCopy ==> |needs| == 1 && |lens| == 2 && |body| == HEADER && needs[0] == lens[1]
      modifies this`pos, this`length, this`body, this`viewAt
      ensures length == old(length) - chunk
      ensures ViewOk() && CacheOk()
      ensures viewAt >= 0 ==> dontCopy
      ensures Content() + Cached() == old(body) + old(Cached())
      ensures |Content()| == |old(body)| + chunk
    {
      ghost var (front, back) := (cache[pos..pos + chunk], cache[pos + chunk..pos + length]);
      assert Cached() == front + back;
      Associates(body, front, back);
      if !dontCopy || chunk < needs[i] {
        body := body + cache[pos..pos + chunk];
      } else {
        viewAt := pos;
      }
      assert Content() == old(body) + front;
      pos := pos + chunk;
      length := length - chunk;
      if length == 0 {
        pos := 0;
      }
      assert Cached() == back;
    }

    /** btl_tcp2_frag.c, lines 164 to 182: hands cached bytes to the open vectors, by reference when allowed.
        Returns how many bytes the cache held before. */
    method CopyFromCache(dontCopy: bool) returns (count: nat)
      requires CacheOk() && ViewOk() && VectorsOk() && viewAt < 0
      requires length > 0
      requires dontCopy ==> |needs| == 1 && |lens| == 2 && |body| == HEADER && needs[0] == lens[1]
      modifies this`pos, this`length, this`body, this`viewAt
      ensures ViewOk() && CacheOk() && count == old(length)
      ensures viewAt >= 0 ==> dontCopy
      ensures Content() + Cached() == old(body) + old(Cached())
      ensures |Content()| == |old(body)| + Min(count, Sum(needs))
    {
      count := length;
      var i := 0;
      assert needs[0..] == needs;
      while i < |needs| && length > 0
        invariant i <= |needs| && ViewOk() && CacheOk()
        invariant viewAt >= 0 ==> i == |needs| && dontCopy
        invariant i == 0 ==> body == old(body)
        invariant Content() + Cached() == old(body) + old(Cached())
        invariant |Content()| + Min(length, Sum(needs[i..])) == |old(body)| + Min(count, Sum(needs))
      {
        SumTail(needs, i);
        var chunk := if length > needs[i] then needs[i] else length;
        CopyOne(i, chunk, dontCopy);
        i := i + 1;
      }
      assert i == |needs| ==> needs[i..] == [];
    }

    /** btl_tcp2_frag.c, lines 224 to 239: moves the vector pointers past `count` bytes. */
    method Advance(count: nat) returns (left: nat)
      requires VectorsOk()
      modifies this`needs, this`idx
      ensures VectorsOk()
      ensures needs == Advanced(old(needs), count).0 && left == Advanced(old(needs), count).1
      ensures idx == old(idx) + |old(needs)| - |needs|
    {
      left := count;
      while needs != []
        invariant VectorsOk()
        invariant |needs| <= |old(needs)| && idx == old(idx) + |old(needs)| - |needs|
        invariant Advanced(needs, left) == Advanced(old(needs), count)
        decreases |needs|
      {
        if left < needs[0] {
          needs := [needs[0] - left] + needs[1..];
          left := 0;
          return;
        }
        left := left - needs[0];
        needs := needs[1..];
        idx := idx + 1;
      }
    }

    /** btl_tcp2_frag.c, lines 184 to 197: one read into the open vectors and, behind them, the cache. The
        `count - m` bytes behind the vectors are the new cache contents. */
    method ReadFromSocket(socket: Socket) returns (count: nat)
      requires CacheOk() && ViewOk() && viewAt < 0 && length == 0 && socket.Valid()
      modifies socket, cache, this`body
      ensures socket.Valid() && socket.offset == old(socket.offset) + count
      ensures socket.offset >= old(socket.offset + socket.Offers(cache.Length))
      ensures count - Min(count, Sum(needs)) <= cache.Length
      ensures body + cache[..count - Min(count, Sum(needs))] == old(body) + socket.stream[old(socket.offset)..socket.offset]
      ensures |body| == |old(body)| + Min(count, Sum(needs))
    {
      var total := Sum(needs);
      var bytes := socket.Readv(total + cache.Length);
      count := |bytes|;
      var m := if count < total then count else total;
      body := body + bytes[..m];
      var i := 0;
      while i < count - m
        modifies cache
        invariant 0 <= i <= count - m
        invariant forall j :: 0 <= j < i ==> cache[j] == bytes[m + j]
      {
        cache[i] := bytes[m + i];
        i := i + 1;
      }
      assert cache[..count - m] == bytes[m..];
      assert body + bytes[m..] == old(body) + bytes;
    }

    /** Cache and vectors are consistent, and the open vectors lack exactly what is missing. */
    ghost predicate Shaped()
      reads `pos, `length, `viewAt, `lens, `idx, `body, `needs, cache
    {
      && CacheOk() && ViewOk() && VectorsOk()
      && |Content()| + Sum(needs) == Sum(lens)
    }

    /** Every byte read is accounted for: in a message handed over, in the current fragment, or
        in the cache. */
    ghost predicate Accounted(taken: seq<byte>)
      reads `delivered, `pos, `length, `viewAt, `lens, `idx, `body, cache
      requires CacheOk() && ViewOk()
    {
      taken == EncodeAll(delivered) + (Content() + Cached()) && Beyond(delivered, taken)
    }

    /** The messages handed over are the first ones sent. */
    ghost predicate InOrder(msgs: seq<Message>)
      reads `delivered
    {
      |delivered| <= |msgs| && delivered == msgs[..|delivered|]
    }

    ghost predicate Logged(o: Outcome, msgs: seq<Message>, read: nat)
      reads `delivered, `log, `marks, `leftovers, `stale
    {
      |delivered| <= |msgs| && History(msgs, leftovers, marks, o, log, |delivered|, stale, read)
    }

    /** The vectors set up so far fit the message being received. */
    ghost predicate Staged(msgs: seq<Message>)
      reads `lens, `segLen, `stale, `delivered
    {
      match |lens|
      case 0 => false
      case 1 => lens == [HEADER] && segLen == stale
      case 2 =>
        && |delivered| < |msgs| && lens == SecondPlan(msgs[|delivered|])
        && (msgs[|delivered|].Send? ==> lens[1] > 0 && segLen == lens[1])
      case _ =>
        && |delivered| < |msgs| && lens == ThirdPlan(msgs[|delivered|]) && msgs[|delivered|].Put?
        && segLen == SegAfter(msgs[|delivered|], stale)
    }

    /** A fragment that waits for more bytes: every vector set up before the last stage is full. */
    ghost predicate Waiting(msgs: seq<Message>)
      reads `needs, `viewAt, `lens, `idx, `segLen, `stale, `delivered
    {
      && needs != [] && viewAt < 0 && Staged(msgs)
      && (|lens| == 1 ==> idx == 0) && (|lens| == 2 ==> idx == 1) && (|lens| > 2 ==> idx >= 2)
      && (Lacks(needs) || (|delivered| < |msgs| && NoData(msgs[|delivered|])))
    }

    /** The payload vector of a SEND, with nothing in it yet. */
    ghost predicate FreshPayload(msgs: seq<Message>)
      reads `needs, `lens, `body, `delivered
    {
      && |needs| == 1 && |lens| == 2 && |body| == HEADER && needs[0] == lens[1]
      && |delivered| < |msgs| && msgs[|delivered|].Send?
    }

    method FillFromCache(dontCopy: bool)
      requires Shaped() && needs != [] && viewAt < 0 && length != 0
      requires dontCopy ==> |needs| == 1 && |lens| == 2 && |body| == HEADER && needs[0] == lens[1]
      modifies this`pos, this`length, this`idx, this`needs, this`body, this`viewAt
      ensures Shaped() && idx >= old(idx)
      ensures Content() + Cached() == old(body) + old(Cached())
      ensures needs != [] ==> viewAt < 0 && length == 0 && Lacks(needs)
      ensures viewAt >= 0 ==> dontCopy
      ensures Sum(old(needs)) == 0 ==> length == old(length)
    {
      var count := CopyFromCache(dontCopy);
      ghost var (left, content, cached) := (length, Content(), Cached());
      assert |content| + left == |old(body)| + count;
      length := Advance(count);
      assert Content() == content && Cached() == cached;
      assert length == left;
    }

    method FillFromSocket(socket: Socket)
      requires Shaped() && needs != [] && viewAt < 0 && length == 0 && socket.Valid()
      modifies socket, cache, this`length, this`idx, this`needs, this`body
      ensures Shaped() && idx >= old(idx)
      ensures socket.Valid() && socket.offset >= old(socket.offset)
      ensures Content() + Cached() == old(body) + socket.stream[old(socket.offset)..socket.offset]
      ensures needs != [] ==> length == 0 && (Lacks(needs) || needs == old(needs))
      ensures needs == [] && Sum(old(needs)) == 0 ==> length > 0
      ensures socket.offset >= old(socket.offset + socket.Offers(cache.Length))
    {
      var count := ReadFromSocket(socket);
      ghost var bytes := socket.stream[old(socket.offset)..socket.offset];
      if count == 0 {
        NothingRead(old(body), body, cache[..0], bytes);
        return;
      }
      TakeIn(count);
    }

    lemma {:induction false} NothingRead(before: seq<byte>, after: seq<byte>, cached: seq<byte>, bytes: seq<byte>)
      requires cached == [] && bytes == [] && after + cached == before + bytes
      ensures after == before && after + cached == after
    {
      assert after + [] == after && before + [] == before;
    }

    /** `count` bytes were read: as many as fit are in the vectors, the others at the start of the
        cache. */
    method TakeIn(count: nat)
      requires CacheOk() && ViewOk() && VectorsOk() && viewAt < 0 && length == 0 && needs != []
      requires count - Min(count, Sum(needs)) <= cache.Length && |body| + Sum(needs) - Min(count, Sum(needs)) == Sum(lens)
      modifies this`length, this`idx, this`needs
      ensures Shaped() && idx >= old(idx)
      ensures Content() + Cached() == body + cache[..count - Min(count, Sum(old(needs)))]
      ensures count > 0 && needs != [] ==> length == 0 && Lacks(needs)
      ensures count > 0 && needs == [] && Sum(old(needs)) == 0 ==> length > 0
    {
      length := Advance(count);
    }

    method ReadHeader(ghost m: Message) returns (header: Header)
      requires ViewOk() && WellFormed(m) && |body| >= HEADER && Content() <= Encode(m)
      ensures header == HeaderOf(m)
    {
      header := DecodeHeader(body);
      HeaderKnown(m, Content(), body);
    }

    method ReadSegments(count: nat, ghost m: Message) returns (segments: seq<Segment>)
      requires ViewOk() && WellFormed(m) && m.Put? && count == |m.segments|
      requires |body| == HEADER + SEGMENT * count && Content() <= Encode(m)
      ensures segments == m.segments
    {
      segments := DecodeSegments(body[HEADER..HEADER + SEGMENT * count], count);
      HeaderKnown(m, Content(), body);
    }

    method OpenVectors(more: seq<nat>)
      requires Shaped() && needs == [] && (viewAt >= 0 ==> more == [])
      modifies this`lens, this`needs
      ensures lens == old(lens) + more && needs == more
      ensures Shaped() && Content() == old(Content())
    {
      SumAppend(lens, more);
      lens, needs := lens + more, more;
    }

    /** Opens the vectors of the second stage: the payload of a SEND, or the descriptors. */
    method OpenSecond(len: nat, send: bool, ghost msgs: seq<Message>)
      requires Shaped() && needs == [] && lens == [HEADER] && viewAt < 0 && segLen == stale
      requires |delivered| < |msgs| && WellFormed(msgs[|delivered|]) && [HEADER, len] == SecondPlan(msgs[|delivered|]) && len > 0
      requires send == msgs[|delivered|].Send?
      modifies this`lens, this`needs, this`segLen
      ensures Shaped() && Content() == old(Content()) && Waiting(msgs) && |lens| == 2
      ensures send ==> FreshPayload(msgs)
    {
      OpenVectors([len]);
      if send {
        segLen := len;
      }
    }

    /** Opens the vectors of the third stage: the destinations of a PUT. */
    method OpenThird(segments: seq<Segment>, ghost msgs: seq<Message>)
      requires Shaped() && needs == [] && |lens| == 2 && viewAt < 0 && Staged(msgs)
      requires |delivered| < |msgs| && WellFormed(msgs[|delivered|]) && msgs[|delivered|].Put? && segments == msgs[|delivered|].segments
      modifies this`lens, this`needs, this`segLen
      ensures Shaped() && Content() == old(Content()) && Waiting(msgs) && |lens| > 2
    {
      OpenVectors(Lengths(segments));
      segLen := segments[0].len;
    }

    /** How a complete message lies in the fragment. */
    ghost predicate Framed(m: Message)
      reads `segLen, `stale, `lens
    {
      && segLen == SegAfter(m, stale)
      && if m.Send? then |lens| == (if m.payload == [] then 1 else 2) else |lens| > 2
    }

    /** btl_tcp2_frag.c, lines 243 to 283: the vectors are full; sets up the next ones the header asks for, or
        reports the fragment complete. */
    method NextVectors(ghost msgs: seq<Message>) returns (complete: bool, dontCopy: bool)
      requires Shaped() && needs == [] && Staged(msgs)
      requires |delivered| < |msgs| && WellFormed(msgs[|delivered|])
      requires viewAt >= 0 ==> |lens| == 2 && msgs[|delivered|].Send?
      requires |Content()| <= |Encode(msgs[|delivered|])| ==> Content() <= Encode(msgs[|delivered|])
      modifies this`lens, this`needs, this`segLen
      ensures Shaped() && Content() == old(Content())
      ensures complete ==> Content() == Encode(msgs[|delivered|]) && Framed(msgs[|delivered|]) && lens == old(lens)
      ensures !complete ==> Waiting(msgs) && |lens| > |old(lens)| && |old(lens)| <= 2
      ensures dontCopy ==> !complete && FreshPayload(msgs)
    {
      ghost var m := msgs[|delivered|];
      SumFirst(lens);
      PlanLength(m);
      complete, dontCopy := false, false;
      var header := ReadHeader(m);
      if header.kind == TYPE_SEND && idx == 1 && header.size != 0 {
        OpenSecond(header.size, true, msgs);
        dontCopy := true;
      } else if header.kind == TYPE_PUT && idx == 1 {
        OpenSecond(SEGMENT * header.count, false, msgs);
      } else if header.kind == TYPE_PUT && idx == 2 {
        var segments := ReadSegments(header.count, m);
        OpenThird(segments, msgs);
      } else {
        complete := true;
      }
    }

    ghost predicate Receiving(msgs: seq<Message>, taken: seq<byte>)
      reads `pos, `length, `viewAt, `lens, `idx, `body, `needs, `segLen, `stale, `delivered, cache
    {
      Shaped() && Accounted(taken) && InOrder(msgs) && Waiting(msgs)
    }

    /** The whole of the next message is in the fragment. */
    ghost predicate Complete(msgs: seq<Message>, taken: seq<byte>)
      reads `pos, `length, `viewAt, `lens, `idx, `body, `needs, `segLen, `stale, `delivered, cache
    {
      && Shaped() && Accounted(taken) && InOrder(msgs)
      && |delivered| < |msgs| && Content() == Encode(msgs[|delivered|]) && Framed(msgs[|delivered|])
      && (|lens| != 2 ==> viewAt < 0) && (NoData(msgs[|delivered|]) ==> length > 0)
    }

    /** btl_tcp2_frag.c, lines 156 to 240: one transfer, from the cache if it holds anything, else from the
        socket. Returns false when some vector is still open. */
    method Fill(socket: Socket, dontCopy: bool, ghost msgs: seq<Message>) returns (full: bool)
      requires socket.Valid() && Receiving(msgs, socket.Taken()) && (dontCopy ==> FreshPayload(msgs))
      modifies socket, cache, this`pos, this`length, this`idx, this`needs, this`body, this`viewAt
      ensures socket.Valid() && lens == old(lens)
      ensures if full then Full(msgs, socket.Taken()) else Receiving(msgs, socket.Taken()) && length == 0
      ensures socket.offset >= old(socket.offset + if length == 0 then socket.Offers(cache.Length) else 0)
    {
      DataFreeNeeds(msgs);
      if length != 0 {
        FillFromCache(dontCopy);
      } else {
        ghost var start := body;
        assert Cached() == [] && start + Cached() == start;
        FillFromSocket(socket);
        AppendTaken(EncodeAll(delivered), start, socket.stream, old(socket.offset), socket.offset, Content() + Cached());
      }
      return needs == [];
    }

    /** A PUT without data lacks nothing more once its descriptors are in. */
    lemma {:induction false} DataFreeNeeds(msgs: seq<Message>)
      requires VectorsOk() && Waiting(msgs)
      ensures |lens| > 2 && NoData(msgs[|delivered|]) ==> Sum(needs) == 0
    {
      SumBounds(needs);
    }

    /** The full vectors hold a beginning of the next message. */
    lemma {:induction false} Current(msgs: seq<Message>, taken: seq<byte>)
      requires Shaped() && Accounted(taken) && InOrder(msgs) && Staged(msgs) && needs == []
      requires taken <= EncodeAll(msgs)
      ensures |delivered| < |msgs|
      ensures |Content()| <= |Encode(msgs[|delivered|])| ==> Content() <= Encode(msgs[|delivered|])
    {
      CurrentBytes(msgs, |delivered|, taken, Content() + Cached());
      SumFirst(lens);
      assert Content() <= EncodeAll(msgs[|delivered|..]);
      if |Content()| <= |Encode(msgs[|delivered|])| {
        WithinCurrent(msgs, |delivered|, Content());
      }
    }

    /** The transfer filled every vector, after `taken` was read. */
    ghost predicate Full(msgs: seq<Message>, taken: seq<byte>)
      reads `pos, `length, `viewAt, `lens, `idx, `body, `needs, `segLen, `stale, `delivered, cache
    {
      && Shaped() && Accounted(taken) && InOrder(msgs) && Staged(msgs) && needs == []
      && (viewAt >= 0 ==> |lens| == 2 && |delivered| < |msgs| && msgs[|delivered|].Send?)
      && (|lens| > 2 && NoData(msgs[|delivered|]) ==> length > 0)
    }

    method AfterFull(ghost msgs: seq<Message>, ghost taken: seq<byte>) returns (complete: bool, dontCopy: bool)
      requires Full(msgs, taken) && AllWellFormed(msgs) && taken <= EncodeAll(msgs)
      modifies this`lens, this`needs, this`segLen
      ensures complete ==> Complete(msgs, taken)
      ensures !complete ==> Receiving(msgs, taken) && |lens| > |old(lens)| && |old(lens)| <= 2
      ensures dontCopy ==> !complete && FreshPayload(msgs)
    {
      Current(msgs, taken);
      ghost var (content, cached) := (Content(), Cached());
      complete, dontCopy := NextVectors(msgs);
      assert Content() == content && Cached() == cached;
    }

    ghost predicate Stands(o: Outcome, msgs: seq<Message>, taken: seq<byte>)
      reads `pos, `length, `viewAt, `lens, `idx, `body, `needs, `segLen, `stale, `delivered, cache
    {
      match o
      case Open => Receiving(msgs, taken) && length == 0
      case Finished => Complete(msgs, taken)
      case Repeat => Receiving(msgs, taken)
      case Idle => Handed(msgs, taken)
    }

    /** Where the receiver stands, with the log right. */
    ghost predicate At(o: Outcome, msgs: seq<Message>, taken: seq<byte>)
      reads `pos, `length, `viewAt, `lens, `idx, `body, `needs, `segLen, `stale, `delivered, `log, `marks, `leftovers, cache
    {
      match (o, taken)
      case (outcome, bytes) => Stands(outcome, msgs, bytes) && Logged(outcome, msgs, |bytes|)
    }

    /** One pass of the `repeat` loop. */
    method Pass(socket: Socket, dontCopy: bool, ghost msgs: seq<Message>)
      returns (outcome: Outcome, noCopyNext: bool)
      requires socket.Valid() && Stands(Repeat, msgs, socket.Taken()) && (dontCopy ==> FreshPayload(msgs))
      requires AllWellFormed(msgs) && socket.stream <= EncodeAll(msgs)
      modifies socket, cache, this`pos, this`length, this`lens, this`idx, this`needs, this`body, this`viewAt, this`segLen
      ensures socket.Valid()
      ensures !outcome.Idle? && Stands(outcome, msgs, socket.Taken())
      ensures outcome.Repeat? ==> |lens| > |old(lens)| && |old(lens)| <= 2
      ensures noCopyNext ==> outcome.Repeat? && FreshPayload(msgs)
      ensures socket.offset >= old(socket.offset + if length == 0 then socket.Offers(cache.Length) else 0)
    {
      var full := Fill(socket, dontCopy, msgs);
      if !full {
        return Open, false;
      }
      var complete, next := AfterFull(msgs, socket.Taken());
      return if complete then Finished else Repeat, next;
    }

    /** btl_tcp2_frag.c, lines 149 to 285: runs until the fragment is complete or the socket has no more. */
    method FragRecv(socket: Socket, ghost msgs: seq<Message>) returns (complete: bool)
      requires socket.Valid() && Stands(Repeat, msgs, socket.Taken())
      requires AllWellFormed(msgs) && socket.stream <= EncodeAll(msgs)
      modifies socket, cache, this`pos, this`length, this`lens, this`idx, this`needs, this`body, this`viewAt, this`segLen
      ensures socket.Valid() && Stands(if complete then Finished else Open, msgs, socket.Taken())
      ensures socket.offset >= old(socket.offset + if length == 0 then socket.Offers(cache.Length) else 0)
    {
      var outcome, dontCopy := Repeat, false;
      ghost var (least, start) := (socket.offset + if length == 0 then socket.Offers(cache.Length) else 0, true);
      while outcome.Repeat?
        invariant socket.Valid()
        invariant !outcome.Idle? && Stands(outcome, msgs, socket.Taken())
        invariant start ==> outcome.Repeat? && least == socket.offset + if length == 0 then socket.Offers(cache.Length) else 0
        invariant !start ==> socket.offset >= least
        invariant dontCopy ==> FreshPayload(msgs)
        decreases outcome.Repeat?, if |lens| < 3 then 3 - |lens| else 0
      {
        outcome, dontCopy := Pass(socket, dontCopy, msgs);
        start := false;
      }
      return outcome.Finished?;
    }

    /** The state between two runs of the receive handler, after `taken` was read: the cache
        holds nothing, as both assertions of the handler demand. */
    ghost predicate Between(msgs: seq<Message>, taken: seq<byte>)
      reads this, cache
    {
      CacheOk() && length == 0 && At(if busy then Open else Idle, msgs, taken)
    }

    /** Hands the completed fragment over: the SEND callback gets segments[0], which describes the
        payload, in the cache or in the fragment, if there is one; a PUT has filled its
        destinations. */
    method Deliver(ghost msgs: seq<Message>, ghost taken: seq<byte>)
      requires At(Finished, msgs, taken) && AllWellFormed(msgs)
      modifies this`delivered, this`log
      ensures |old(delivered)| < |msgs| && delivered == old(delivered) + [msgs[|old(delivered)|]]
      ensures At(Idle, msgs, taken) && LeftBehind(msgs)
    {
      var now, shown := Assemble(msgs[|delivered|]);
      Record(now, shown, msgs, taken);
    }

    /** segments[0].seg_len is what the last message left. */
    ghost predicate LeftBehind(msgs: seq<Message>)
      reads `delivered, `marks, `leftovers, `segLen
    {
      && 0 < |delivered| <= |msgs| && |leftovers| == |marks|
      && segLen == SegAfter(msgs[|delivered| - 1], LeftIn(msgs, leftovers, marks, |delivered| - 1))
    }

    method Record(now: Message, shown: Shown, ghost msgs: seq<Message>, ghost taken: seq<byte>)
      requires CacheOk() && ViewOk() && InOrder(msgs) && Accounted(taken) && Logged(Finished, msgs, |taken|)
      requires |delivered| < |msgs| && now == msgs[|delivered|] && Content() == Encode(now)
      requires shown == ShownFor(now, stale) && segLen == SegAfter(now, stale) && (NoData(now) ==> length > 0)
      modifies this`delivered, this`log
      ensures delivered == old(delivered) + [now]
      ensures At(Idle, msgs, taken) && LeftBehind(msgs)
    {
      HandedNext(now, msgs, taken);
      LoggedNext(now, msgs, |taken|);
      Append(now, shown, msgs, taken);
    }

    lemma {:induction false} HandedNext(now: Message, msgs: seq<Message>, taken: seq<byte>)
      requires CacheOk() && ViewOk() && InOrder(msgs) && Accounted(taken)
      requires |delivered| < |msgs| && now == msgs[|delivered|] && Content() == Encode(now) && (NoData(now) ==> length > 0)
      ensures delivered + [now] == msgs[..|delivered| + 1]
      ensures taken == EncodeAll(delivered + [now]) + Cached() && Beyond(delivered + [now], taken)
    {
      assert |Cached()| == length;
      HandedMore(delivered, msgs, |delivered|, now, Cached(), taken);
    }

    lemma {:induction false} LoggedNext(now: Message, msgs: seq<Message>, read: nat)
      requires |delivered| < |msgs| && now == msgs[|delivered|] && Logged(Finished, msgs, read) && segLen == SegAfter(now, stale)
      ensures History(msgs, leftovers, marks, Idle, log + [ShownFor(now, stale)], |delivered| + 1, stale, read)
      ensures |leftovers| == |marks| && segLen == SegAfter(now, LeftIn(msgs, leftovers, marks, |delivered|))
    {
      ShownNext(msgs, leftovers, marks, log, |delivered|, stale, read);
    }

    method Append(now: Message, shown: Shown, ghost msgs: seq<Message>, ghost taken: seq<byte>)
      requires CacheOk() && |delivered| < |msgs| && now == msgs[|delivered|]
      requires delivered + [now] == msgs[..|delivered| + 1]
      requires taken == EncodeAll(delivered + [now]) + Cached() && Beyond(delivered + [now], taken)
      requires History(msgs, leftovers, marks, Idle, log + [shown], |delivered| + 1, stale, |taken|)
      requires |leftovers| == |marks| && segLen == SegAfter(now, LeftIn(msgs, leftovers, marks, |delivered|))
      modifies this`delivered, this`log
      ensures delivered == old(delivered) + [now]
      ensures At(Idle, msgs, taken) && LeftBehind(msgs)
    {
      delivered, log := delivered + [now], log + [shown];
    }

    method Assemble(ghost m: Message) returns (r: Message, shown: Shown)
      requires ViewOk() && WellFormed(m) && Content() == Encode(m) && Framed(m)
      requires |body| >= HEADER && (|lens| != 2 ==> viewAt < 0)
      ensures r == m && shown == ShownFor(m, stale)
    {
      var header := ReadHeader(m);
      if header.kind == TYPE_SEND {
        if header.size == 0 {
          assert Content()[HEADER..] == m.payload;
          return Send(header.tag, []), Leftover(header.tag, segLen);
        }
        assert lens[1] == segLen || viewAt < 0;
        var payload := if viewAt >= 0 then cache[viewAt..viewAt + lens[1]] else body[HEADER..];
        assert payload == Content()[HEADER..];
        return Send(header.tag, payload), Payload(header.tag, payload);
      }
      PrefixReveals(m, Content());
      PutLengths(m);
      var fixed := HEADER + SEGMENT * header.count;
      var segments := DecodeSegments(body[HEADER..fixed], header.count);
      assert body[fixed..] == Flatten(m.pieces);
      return Put(segments, Cut(body[fixed..], Lengths(segments))), Stored;
    }

    /** Everything read is in messages handed over or in the cache. */
    ghost predicate Handed(msgs: seq<Message>, taken: seq<byte>)
      reads `delivered, `pos, `length, cache
    {
      CacheOk() && InOrder(msgs) && taken == EncodeAll(delivered) + Cached() && Beyond(delivered, taken)
    }

    /** Starts a message in a fragment, on what the cache holds. */
    method BeginOn(ghost msgs: seq<Message>, ghost taken: seq<byte>)
      requires Handed(msgs, taken)
      modifies this`lens, this`idx, this`needs, this`body, this`viewAt, this`stale
      ensures Stands(Repeat, msgs, taken) && stale == segLen
    {
      ghost var cached := Cached();
      InitDst();
      stale := segLen;
      assert Content() + Cached() == cached;
    }

    /** Starts the next message in the fragment just handed over. */
    method BeginAgain(ghost msgs: seq<Message>, ghost taken: seq<byte>)
      requires At(Idle, msgs, taken) && LeftBehind(msgs) && length > 0
      modifies this`lens, this`idx, this`needs, this`body, this`viewAt, this`stale
      ensures At(Repeat, msgs, taken)
    {
      GoesOnInSame(msgs, leftovers, marks, log, |delivered|, stale, |taken|);
      BeginOn(msgs, taken);
    }

    lemma {:induction false} AllHandedOver(msgs: seq<Message>, taken: seq<byte>)
      requires At(Idle, msgs, taken) && length == 0
      ensures Handed(msgs, taken) && |delivered| <= |msgs| && |taken| == StartOf(msgs, |delivered|)
      ensures |delivered| > 0 ==> !NoData(msgs[|delivered| - 1])
    {
      assert Cached() == [] && taken == EncodeAll(delivered) + [] == EncodeAll(delivered);
    }

    /** A new fragment, in an event that finds everything handed over. */
    method Allocate(leftover: nat, ghost msgs: seq<Message>, ghost taken: seq<byte>)
      requires At(Idle, msgs, taken) && length == 0
      modifies this`lens, this`idx, this`needs, this`body, this`viewAt, this`segLen, this`stale, this`marks, this`leftovers
      ensures At(Repeat, msgs, taken) && NextEvent(old(marks), old(leftovers), |taken|, leftover)
    {
      AllHandedOver(msgs, taken);
      EventBegins(msgs, leftovers, marks, leftover, log, |delivered|, stale, |taken|);
      BeginNew(leftover, msgs, taken);
      Note(leftover, msgs, taken);
    }

    method BeginNew(leftover: nat, ghost msgs: seq<Message>, ghost taken: seq<byte>)
      requires Handed(msgs, taken)
      modifies this`lens, this`idx, this`needs, this`body, this`viewAt, this`segLen, this`stale
      ensures Stands(Repeat, msgs, taken) && stale == leftover
    {
      segLen := leftover;
      BeginOn(msgs, taken);
    }

    method Note(leftover: nat, ghost msgs: seq<Message>, ghost taken: seq<byte>)
      requires Stands(Repeat, msgs, taken) && |delivered| <= |msgs|
      requires History(msgs, leftovers + [leftover], marks + [|taken|], Repeat, log, |delivered|, stale, |taken|)
      modifies this`marks, this`leftovers
      ensures At(Repeat, msgs, taken) && NextEvent(old(marks), old(leftovers), |taken|, leftover)
    {
      marks, leftovers := marks + [|taken|], leftovers + [leftover];
    }

    /** One more event has begun. */
    ghost predicate NextEvent(before: seq<nat>, lefts: seq<nat>, read: nat, leftover: nat)
      reads `marks, `leftovers
    {
      match (marks, leftovers)
      case (m, l) => m == before + [read] && l == lefts + [leftover]
    }

    lemma {:induction false} NotAllThere(msgs: seq<Message>, taken: seq<byte>)
      requires Stands(Open, msgs, taken) && AllWellFormed(msgs) && taken <= EncodeAll(msgs)
      ensures |delivered| <= |msgs| && StartOf(msgs, |delivered|) <= |taken|
      ensures |delivered| < |msgs| ==>
                || |taken| < StartOf(msgs, |delivered| + 1)
                || (|taken| == StartOf(msgs, |delivered| + 1) && NoData(msgs[|delivered|]))
    {
      var d := |delivered|;
      WaitingIsShort(this, msgs, taken);
      assert Cached() == [] && Content() + [] == Content();
      if d < |msgs| {
        StartNext(msgs, d);
      }
    }

    /** An event that goes on with the fragment that waits. */
    method TakeUp(leftover: nat, ghost msgs: seq<Message>, ghost taken: seq<byte>)
      requires At(Open, msgs, taken) && length == 0 && AllWellFormed(msgs) && taken <= EncodeAll(msgs)
      modifies this`marks, this`leftovers
      ensures At(Repeat, msgs, taken) && NextEvent(old(marks), old(leftovers), |taken|, leftover)
    {
      NotAllThere(msgs, taken);
      LoggedGoesOn(leftover, msgs, |taken|);
      GoesOn(msgs, taken);
      Note(leftover, msgs, taken);
    }

    lemma {:induction false} GoesOn(msgs: seq<Message>, taken: seq<byte>)
      requires Stands(Open, msgs, taken)
      ensures Stands(Repeat, msgs, taken)
    {
    }

    lemma {:induction false} LoggedGoesOn(leftover: nat, msgs: seq<Message>, read: nat)
      requires |delivered| <= |msgs| && Logged(Open, msgs, read) && StartOf(msgs, |delivered|) <= read
      requires |delivered| < |msgs| ==>
                 || read < StartOf(msgs, |delivered| + 1)
                 || (read == StartOf(msgs, |delivered| + 1) && NoData(msgs[|delivered|]))
      ensures History(msgs, leftovers + [leftover], marks + [read], Repeat, log, |delivered|, stale, read)
    {
      EventGoesOn(msgs, leftovers, marks, leftover, log, |delivered|, stale, read);
    }

    /** An event goes on with the fragment that waits, or allocates one. */
    method BeginEvent(leftover: nat, ghost msgs: seq<Message>, ghost taken: seq<byte>)
      requires Between(msgs, taken) && AllWellFormed(msgs) && taken <= EncodeAll(msgs)
      modifies this`lens, this`idx, this`needs, this`body, this`viewAt, this`segLen, this`stale, this`marks, this`leftovers
      ensures At(Repeat, msgs, taken) && NextEvent(old(marks), old(leftovers), |taken|, leftover)
    {
      if busy {
        TakeUp(leftover, msgs, taken);
      } else {
        Allocate(leftover, msgs, taken);
      }
    }

    /** FragRecv, which does not touch what was handed over. */
    method Receive(socket: Socket, ghost msgs: seq<Message>) returns (complete: bool)
      requires socket.Valid() && At(Repeat, msgs, socket.Taken())
      requires AllWellFormed(msgs) && socket.stream <= EncodeAll(msgs)
      modifies socket, cache, this`pos, this`length, this`lens, this`idx, this`needs, this`body, this`viewAt, this`segLen
      ensures socket.Valid() && At(if complete then Finished else Open, msgs, socket.Taken()) && (!complete ==> length == 0)
      ensures socket.offset >= old(socket.offset + if length == 0 then socket.Offers(cache.Length) else 0)
    {
      ghost var read := |socket.Taken()|;
      complete := FragRecv(socket, msgs);
      ReadOn(msgs, leftovers, marks, Repeat, if complete then Finished else Open, log, |delivered|, stale, read, |socket.Taken()|);
    }

    lemma {:induction false} StillAhead(msgs: seq<Message>, taken: seq<byte>)
      requires At(Finished, msgs, taken)
      ensures |delivered| < |msgs|
    {
    }

    /** btl_tcp2_endpoint.c, lines 711 to 728: hands over completed fragments until the cache is flushed, receiving all
        but the first into the fragment of the one before. */
    method Flush(socket: Socket, ghost msgs: seq<Message>) returns (o: Outcome)
      requires socket.Valid() && At(Finished, msgs, socket.Taken())
      requires AllWellFormed(msgs) && socket.stream <= EncodeAll(msgs)
      modifies socket, cache, this`pos, this`length, this`lens, this`idx, this`needs, this`body, this`viewAt, this`segLen
      modifies this`delivered, this`log, this`stale
      ensures socket.Valid() && length == 0 && At(o, msgs, socket.Taken()) && (o.Idle? || o.Open?)
      ensures socket.offset >= old(socket.offset)
    {
      o := Finished;
      StillAhead(msgs, socket.Taken());
      while o.Finished?
        invariant socket.Valid() && At(o, msgs, socket.Taken()) && socket.offset >= old(socket.offset)
        invariant if o.Finished? then |delivered| < |msgs| else length == 0 && !o.Repeat?
        decreases |msgs| - |delivered|, o.Finished?
      {
        o := FlushOne(socket, msgs);
      }
    }

    method FlushOne(socket: Socket, ghost msgs: seq<Message>) returns (o: Outcome)
      requires socket.Valid() && At(Finished, msgs, socket.Taken())
      requires AllWellFormed(msgs) && socket.stream <= EncodeAll(msgs)
      modifies socket, cache, this`pos, this`length, this`lens, this`idx, this`needs, this`body, this`viewAt, this`segLen
      modifies this`delivered, this`log, this`stale
      ensures socket.Valid() && At(o, msgs, socket.Taken()) && socket.offset >= old(socket.offset)
      ensures if o.Finished? then |delivered| < |msgs| else length == 0 && !o.Repeat?
      ensures |delivered| == |old(delivered)| + 1
    {
      Deliver(msgs, socket.Taken());
      o := GoOn(socket, msgs);
    }

    /** btl_tcp2_endpoint.c, lines 721 to 729: done with the fragment, or on with what the cache still holds. */
    method GoOn(socket: Socket, ghost msgs: seq<Message>) returns (o: Outcome)
      requires socket.Valid() && At(Idle, msgs, socket.Taken()) && LeftBehind(msgs)
      requires AllWellFormed(msgs) && socket.stream <= EncodeAll(msgs)
      modifies socket, cache, this`pos, this`length, this`lens, this`idx, this`needs, this`body, this`viewAt, this`segLen
      modifies this`stale
      ensures socket.Valid() && At(o, msgs, socket.Taken()) && !o.Repeat? && socket.offset >= old(socket.offset)
      ensures if o.Finished? then |delivered| < |msgs| else length == 0
    {
      if length == 0 {
        return Idle;
      }
      BeginAgain(msgs, socket.Taken());
      var complete := Receive(socket, msgs);
      o := if complete then Finished else Open;
      if complete {
        StillAhead(msgs, socket.Taken());
      }
    }

    /** Receives and hands over messages until the socket has no more; `leftover` is what
        segments[0].seg_len of a newly allocated fragment happens to be. */
    method Run(socket: Socket, leftover: nat, ghost msgs: seq<Message>) returns (o: Outcome)
      requires socket.Valid() && Between(msgs, socket.Taken())
      requires AllWellFormed(msgs) && socket.stream <= EncodeAll(msgs)
      modifies socket, cache, this`pos, this`length, this`lens, this`idx, this`needs, this`body, this`viewAt, this`segLen
      modifies this`delivered, this`log, this`stale, this`marks, this`leftovers
      ensures socket.Valid() && length == 0 && At(o, msgs, socket.Taken()) && (o.Idle? || o.Open?)
      ensures NextEvent(old(marks), old(leftovers), old(socket.offset), leftover)
      ensures socket.offset >= old(socket.offset + socket.Offers(cache.Length))
    {
      ghost var read := socket.offset;
      assert |socket.Taken()| == read;
      BeginEvent(leftover, msgs, socket.Taken());
      assert NextEvent(old(marks), old(leftovers), read, leftover);
      o := ReceiveAll(socket, msgs);
    }

    method ReceiveAll(socket: Socket, ghost msgs: seq<Message>) returns (o: Outcome)
      requires socket.Valid() && At(Repeat, msgs, socket.Taken()) && length == 0
      requires AllWellFormed(msgs) && socket.stream <= EncodeAll(msgs)
      modifies socket, cache, this`pos, this`length, this`lens, this`idx, this`needs, this`body, this`viewAt, this`segLen
      modifies this`delivered, this`log, this`stale
      ensures socket.Valid() && length == 0 && At(o, msgs, socket.Taken()) && (o.Idle? || o.Open?)
      ensures socket.offset >= old(socket.offset + socket.Offers(cache.Length))
    {
      var complete := Receive(socket, msgs);
      if !complete {
        return Open;
      }
      o := Flush(socket, msgs);
    }

    /** The CONNECTED branch of the receive handler. */
    method ReceiveHandler(socket: Socket, leftover: nat, ghost msgs: seq<Message>)
      requires socket.Valid() && Between(msgs, socket.Taken())
      requires AllWellFormed(msgs) && socket.stream <= EncodeAll(msgs)
      modifies socket, cache, this
      ensures socket.Valid() && Between(msgs, socket.Taken())
      ensures NextEvent(old(marks), old(leftovers), old(socket.offset), leftover)
      ensures socket.offset >= old(socket.offset + socket.Offers(cache.Length))
    {
      var o := Run(socket, leftover, msgs);
      SetBusy(o, msgs, socket.Taken());
    }

    method SetBusy(o: Outcome, ghost msgs: seq<Message>, ghost taken: seq<byte>)
      requires CacheOk() && length == 0 && At(o, msgs, taken) && (o.Idle? || o.Open?)
      modifies this`busy
      ensures Between(msgs, taken)
    {
      busy := o.Open?;
    }
  }

  lemma {:induction false} HandedMore(done: seq<Message>, msgs: seq<Message>, d: nat, now: Message, cached: seq<byte>, taken: seq<byte>)
    requires d < |msgs| && done == msgs[..d] && now == msgs[d] && taken == EncodeAll(done) + (Encode(now) + cached)
    requires NoData(now) ==> cached != []
    ensures done + [now] == msgs[..d + 1] && taken == EncodeAll(done + [now]) + cached && Beyond(done + [now], taken)
  {
    HandedOver(done, now, cached);
    BeyondStep(done, now, cached, taken);
  }

  lemma {:induction false} BeyondStep(done: seq<Message>, now: Message, cached: seq<byte>, taken: seq<byte>)
    requires taken == EncodeAll(done + [now]) + cached && (NoData(now) ==> cached != [])
    ensures Beyond(done + [now], taken)
  {
  }

  /** If the last message handed over has no data, the bytes read go beyond it. */
  ghost predicate Beyond(done: seq<Message>, taken: seq<byte>) {
    done != [] && NoData(done[|done| - 1]) ==> |EncodeAll(done)| < |taken|
  }

  /** Some open vector has room; there are never more than two. */
  ghost predicate Lacks(needs: seq<nat>) {
    needs != [] && (needs[0] > 0 || (|needs| == 2 && needs[1] > 0))
  }

  ghost predicate AllWellFormed(msgs: seq<Message>) {
    forall i :: 0 <= i < |msgs| ==> WellFormed(msgs[i])
  }

  lemma AppendTaken(done: seq<byte>, held: seq<byte>, stream: seq<byte>, from: nat, to: nat, now: seq<byte>)
    requires from <= to <= |stream| && stream[..from] == done + held
    requires now == held + stream[from..to]
    ensures stream[..to] == done + now
  {
    assert stream[..to] == stream[..from] + stream[from..to];
  }

  lemma {:induction false} SumFirst(xs: seq<nat>)
    requires xs != []
    ensures Sum(xs) >= xs[0]
  {
  }

  lemma {:induction false} HeaderKnown(m: Message, content: seq<byte>, body: seq<byte>)
    requires WellFormed(m) && content <= Encode(m) && HEADER <= |body| && body <= content
    ensures DecodeHeader(body) == HeaderOf(m)
    ensures m.Put? && |body| >= HEADER + SEGMENT * |m.segments| ==>
              DecodeSegments(body[HEADER..HEADER + SEGMENT * |m.segments|], |m.segments|) == m.segments
  {
    PrefixReveals(m, body);
  }

  lemma DropPrefix(done: seq<byte>, held: seq<byte>, rest: seq<byte>)
    requires done + held <= done + rest
    ensures held <= rest
  {
    var (left, right) := (done + held, done + rest);
    assert |left| <= |right| && left == right[..|left|];
    assert left[|done|..] == held && right[|done|..] == rest;
    assert right[..|left|][|done|..] == rest[..|held|];
  }

  /** The bytes that are not in handed-over messages begin the remaining messages. */
  lemma {:induction false} CurrentBytes(msgs: seq<Message>, d: nat, taken: seq<byte>, held: seq<byte>)
    requires d <= |msgs| && taken == EncodeAll(msgs[..d]) + held
    requires taken <= EncodeAll(msgs)
    ensures held <= EncodeAll(msgs[d..])
  {
    EncodeAllSplits(msgs, d);
    DropPrefix(EncodeAll(msgs[..d]), held, EncodeAll(msgs[d..]));
  }

  lemma {:induction false} WithinCurrent(msgs: seq<Message>, d: nat, content: seq<byte>)
    requires d < |msgs| && content <= EncodeAll(msgs[d..]) && |content| <= |Encode(msgs[d])|
    ensures content <= Encode(msgs[d])
  {
    assert EncodeAll(msgs[d..]) == Encode(msgs[d]) + EncodeAll(msgs[d..][1..]);
  }

  lemma {:induction false} SumAppend(xs: seq<nat>, ys: seq<nat>)
    ensures Sum(xs + ys) == Sum(xs) + Sum(ys)
  {
    SumSplits(xs + ys, |xs|);
    assert (xs + ys)[..|xs|] == xs && (xs + ys)[|xs|..] == ys;
  }

  lemma {:induction false} PlanLength(m: Message)
    requires WellFormed(m)
    ensures Sum(ThirdPlan(m)) == |Encode(m)|
    ensures Sum(SecondPlan(m)) == HEADER + SecondPlan(m)[1] <= |Encode(m)|
  {
    SumAppend(SecondPlan(m), if m.Send? then [] else Lengths(m.segments));
    assert Sum(SecondPlan(m)) == HEADER + SecondPlan(m)[1];
    if m.Put? {
      PutLengths(m);
    } else {
      assert ThirdPlan(m) == SecondPlan(m);
    }
  }

  lemma {:induction false} HandedOver(ms: seq<Message>, m: Message, cached: seq<byte>)
    ensures EncodeAll(ms) + (Encode(m) + cached) == EncodeAll(ms + [m]) + cached
  {
    EncodeAllLast(ms, m);
    Associates(EncodeAll(ms), Encode(m), cached);
  }

  lemma {:induction false} Associates(a: seq<byte>, b: seq<byte>, c: seq<byte>)
    ensures a + (b + c) == (a + b) + c
  {
  }

  lemma {:induction false} EncodeAllLast(ms: seq<Message>, m: Message)
    ensures EncodeAll(ms + [m]) == EncodeAll(ms) + Encode(m)
  {
    EncodeAllSplits(ms + [m], |ms|);
    assert (ms + [m])[..|ms|] == ms && (ms + [m])[|ms|..] == [m];
    assert EncodeAll([m]) == Encode(m) + EncodeAll([m][1..]) && [m][1..] == [];
  }

  /** The vectors of a message once its header is in, and once its descriptors are in. */
  ghost function SecondPlan(m: Message): seq<nat> {
    [HEADER, if m.Send? then |m.payload| else SEGMENT * |m.segments|]
  }

  ghost function ThirdPlan(m: Message): seq<nat> {
    SecondPlan(m) + (if m.Send? then [] else Lengths(m.segments))
  }

  // ---------------------------------------------------------------------------
  // What was handed over is decided by how much was read, not by how it was cut up
  // ---------------------------------------------------------------------------

  /** Handed over are the messages that lie wholly within `taken`, but for a PUT without data that
      ends exactly where the reads end: it waits for the next byte. */
  ghost predicate WhollyRead(done: seq<Message>, msgs: seq<Message>, taken: seq<byte>) {
    && |done| <= |msgs| && done == msgs[..|done|] && EncodeAll(done) <= taken && Beyond(done, taken)
    && if |done| == |msgs| then taken == EncodeAll(msgs)
       else
         var next := msgs[|done|];
         |taken| < |EncodeAll(done + [next])| || (NoData(next) && taken == EncodeAll(done + [next]))
  }

  lemma {:induction false} SumBounds(xs: seq<nat>)
    ensures Lacks(xs) ==> Sum(xs) > 0
    ensures (forall i :: 0 <= i < |xs| ==> xs[i] == 0) ==> Sum(xs) == 0
  {
    if xs != [] {
      SumBounds(xs[1..]);
      if |xs| == 2 {
        assert Sum(xs[1..]) == xs[1] + Sum(xs[1..][1..]);
      }
    }
  }

  lemma WaitingIsShort(e: Endpoint, msgs: seq<Message>, taken: seq<byte>)
    requires e.Receiving(msgs, taken) && AllWellFormed(msgs) && taken <= EncodeAll(msgs) && e.length == 0
    ensures |e.delivered| < |msgs| || e.Content() == []
    ensures |e.delivered| < |msgs| ==>
              var m := msgs[|e.delivered|];
              |e.Content()| < |Encode(m)| || (NoData(m) && e.Content() == Encode(m))
  {
    assert e.Cached() == [];
    assert e.Content() + e.Cached() == e.Content();
    CurrentBytes(msgs, |e.delivered|, taken, e.Content());
    SumBounds(e.needs);
    if |e.delivered| < |msgs| {
      var m := msgs[|e.delivered|];
      PlanLength(m);
      WithinCurrent(msgs, |e.delivered|, e.Content()[..Min(|e.Content()|, |Encode(m)|)]);
    }
  }

  lemma BetweenDecides(e: Endpoint, msgs: seq<Message>, taken: seq<byte>)
    requires e.Between(msgs, taken) && AllWellFormed(msgs) && taken <= EncodeAll(msgs)
    ensures WhollyRead(e.delivered, msgs, taken)
  {
    var d := |e.delivered|;
    assert e.Cached() == [];
    var held := if e.busy then e.Content() else [];
    assert taken == EncodeAll(e.delivered) + held;
    if e.busy {
      WaitingIsShort(e, msgs, taken);
    }
    if d == |msgs| {
      assert msgs[..d] == msgs;
    } else {
      EncodeAllLast(e.delivered, msgs[d]);
    }
  }

  lemma {:induction false} FewerAreShorter(ms: seq<Message>, k: nat)
    requires k <= |ms|
    ensures EncodeAll(ms[..k]) <= EncodeAll(ms)
    ensures k < |ms| ==> |EncodeAll(ms[..k])| < |EncodeAll(ms)|
  {
    EncodeAllSplits(ms, k);
    if k < |ms| {
      var rest := ms[k..];
      assert EncodeAll(rest) == Encode(rest[0]) + EncodeAll(rest[1..]);
    }
  }

  lemma {:induction false} NotPastNext(done: seq<Message>, msgs: seq<Message>, taken: seq<byte>)
    requires WhollyRead(done, msgs, taken) && |done| < |msgs|
    ensures |taken| <= |EncodeAll(msgs[..|done| + 1])|
    ensures |taken| == |EncodeAll(msgs[..|done| + 1])| ==> NoData(msgs[|done|])
  {
    assert msgs[..|done| + 1] == done + [msgs[|done|]];
  }

  /** The exact condition: a message is handed over if and only if its last byte is read and, for a
      PUT without data, one byte more. */
  lemma {:induction false} HandedOverIff(done: seq<Message>, msgs: seq<Message>, taken: seq<byte>, k: nat)
    requires WhollyRead(done, msgs, taken) && 0 < k <= |msgs|
    ensures k <= |done| <==> if NoData(msgs[k - 1]) then |EncodeAll(msgs[..k])| < |taken| else |EncodeAll(msgs[..k])| <= |taken|
  {
    if k <= |done| {
      FewerAreShorter(done, k);
      assert done[..k] == msgs[..k];
    } else {
      NotPastNext(done, msgs, taken);
      FewerAreShorter(msgs[..k], |done| + 1);
      assert msgs[..k][..|done| + 1] == msgs[..|done| + 1];
    }
  }

  lemma {:induction false} NotFewer(a: seq<Message>, b: seq<Message>, msgs: seq<Message>, taken: seq<byte>)
    requires WhollyRead(a, msgs, taken) && WhollyRead(b, msgs, taken)
    ensures |b| <= |a|
  {
    if |b| > 0 {
      HandedOverIff(a, msgs, taken, |b|);
      HandedOverIff(b, msgs, taken, |b|);
    }
  }

  /** Two ways of reading the same bytes hand over the same messages. */
  lemma {:induction false} ChunkingIrrelevant(a: seq<Message>, b: seq<Message>, msgs: seq<Message>, taken: seq<byte>)
    requires WhollyRead(a, msgs, taken) && WhollyRead(b, msgs, taken)
    ensures a == b
  {
    NotFewer(a, b, msgs, taken);
    NotFewer(b, a, msgs, taken);
  }

  /** Once everything sent is read, everything is handed over, except a PUT without data at the
      very end. */
  lemma {:induction false} EverythingHandedOver(done: seq<Message>, msgs: seq<Message>)
    requires WhollyRead(done, msgs, EncodeAll(msgs))
    ensures done == if msgs != [] && NoData(msgs[|msgs| - 1]) then msgs[..|msgs| - 1] else msgs
  {
    var n := |msgs|;
    assert msgs[..n] == msgs;
    if n > 0 {
      HandedOverIff(done, msgs, EncodeAll(msgs), n);
      if n > 1 {
        HandedOverIff(done, msgs, EncodeAll(msgs), n - 1);
        FewerAreShorter(msgs, n - 1);
      }
    }
  }

  /** The smallest instance: a single PUT of one empty segment is never handed over. */
  lemma {:induction false} EmptyPutWithheld(done: seq<Message>, addr: nat)
    requires addr < Power(8)
    ensures var msgs := [Put([Segment(addr, 0)], [[]])];
            AllWellFormed(msgs) && (WhollyRead(done, msgs, EncodeAll(msgs)) <==> done == [])
  {
    PowerValues();
    var pieces: seq<seq<byte>> := [[]];
    var m := Put([Segment(addr, 0)], pieces);
    assert Flatten(pieces) == pieces[0] + Flatten(pieces[1..]) && pieces[1..] == [];
    assert EncodeAll([m]) == Encode(m) + EncodeAll([m][1..]) && [m][1..] == [];
    assert [] + [m] == [m];
    if WhollyRead(done, [m], EncodeAll([m])) {
      EverythingHandedOver(done, [m]);
      assert [m][..0] == [];
    }
  }

  /** A SEND callback is given the message exactly when there is a payload or nothing was left in
      segments[0]. */
  ghost predicate Faithful(shown: Shown, m: Message) {
    match m
    case Send(tag, payload) => shown == Payload(tag, payload) || (payload == [] && shown == Leftover(tag, 0))
    case Put(_, _) => shown == Stored
  }

  /** The exact condition, on the messages, on how far each event found the reading, and on what
      newly allocated fragments happen to hold. */
  lemma {:induction false} ShownFaithfully(msgs: seq<Message>, leftovers: seq<nat>, marks: seq<nat>, log: seq<Shown>, d: nat, i: nat)
    requires i < d <= |msgs| && |leftovers| == |marks| && Shows(msgs, leftovers, marks, log, d)
    ensures Faithful(log[i], msgs[i]) <==> msgs[i].Put? || msgs[i].payload != [] || LeftIn(msgs, leftovers, marks, i) == 0
  {
    assert log[i] == ShownFor(msgs[i], LeftIn(msgs, leftovers, marks, i));
  }

  /** For a SEND without payload, spelled out: in a new fragment that fragment has to hold 0; in the
      fragment of the message before, that must be a PUT whose first segment is empty, or itself a
      SEND without payload that is shown right. */
  lemma {:induction false} EmptySendShown(msgs: seq<Message>, leftovers: seq<nat>, marks: seq<nat>, log: seq<Shown>, d: nat, i: nat)
    requires i < d <= |msgs| && |leftovers| == |marks| && Shows(msgs, leftovers, marks, log, d)
    requires msgs[i].Send? && msgs[i].payload == [] && AllWellFormed(msgs) && (marks != [] && marks[0] == 0)
    ensures NewFragment(msgs, marks, i) ==> (Faithful(log[i], msgs[i]) <==> leftovers[FirstAt(marks, StartOf(msgs, i))] == 0)
    ensures !NewFragment(msgs, marks, i) ==>
              && i > 0
              && (Faithful(log[i], msgs[i]) <==>
                  match msgs[i - 1]
                  case Put(segments, _) => segments[0].len == 0
                  case Send(_, payload) => payload == [] && Faithful(log[i - 1], msgs[i - 1]))
  {
    ShownFaithfully(msgs, leftovers, marks, log, d, i);
    if i == 0 {
      assert msgs[..0] == [];
    } else {
      ShownFaithfully(msgs, leftovers, marks, log, d, i - 1);
      assert WellFormed(msgs[i - 1]);
    }
  }

  /** A SEND without payload that follows a SEND with one in the same fragment is shown a segment as
      long as that payload. */
  lemma {:induction false} EmptySendShownWrong(msgs: seq<Message>, leftovers: seq<nat>, marks: seq<nat>, log: seq<Shown>, d: nat, i: nat)
    requires 0 < i < d <= |msgs| && |leftovers| == |marks| && Shows(msgs, leftovers, marks, log, d) && !NewFragment(msgs, marks, i)
    requires msgs[i].Send? && msgs[i].payload == [] && msgs[i - 1].Send? && msgs[i - 1].payload != []
    ensures log[i] == Leftover(msgs[i].tag, |msgs[i - 1].payload|) && !Faithful(log[i], msgs[i])
  {
    assert log[i] == ShownFor(msgs[i], LeftIn(msgs, leftovers, marks, i));
  }

  /** How far the events found the reading: from nothing on, never backwards. */
  ghost predicate Reading(marks: seq<nat>, read: nat) {
    && (marks != [] ==> marks[0] == 0)
    && (forall j, k :: 0 <= j < k < |marks| ==> marks[j] <= marks[k])
    && forall k :: 0 <= k < |marks| ==> marks[k] <= read
  }

  lemma {:induction false} TakeNext(xs: seq<nat>, i: nat)
    requires i < |xs|
    ensures xs[..i + 1] == xs[..i] + [xs[i]] && xs[..|xs|] == xs
  {
  }

  lemma {:induction false} ReadingMore(marks: seq<nat>, read: nat, more: nat)
    requires Reading(marks, read) && read <= more && (marks == [] ==> read == 0)
    ensures Reading(marks + [read], more)
  {
  }

  method OneEvent(e: Endpoint, socket: Socket, leftover: nat, marks: seq<nat>, ghost msgs: seq<Message>) returns (more: seq<nat>)
    requires socket.Valid() && e.Between(msgs, socket.Taken()) && AllWellFormed(msgs) && socket.stream <= EncodeAll(msgs)
    requires e.marks == marks && Reading(marks, socket.offset) && (marks == [] ==> socket.offset == 0)
    modifies socket, e, e.cache
    ensures socket.Valid() && e.Between(msgs, socket.Taken())
    ensures e.marks == more && |more| == |marks| + 1 && Reading(more, socket.offset) && e.leftovers == old(e.leftovers) + [leftover]
  {
    ghost var read := socket.offset;
    more := marks + [socket.offset];
    e.ReceiveHandler(socket, leftover, msgs);
    ReadingMore(marks, read, socket.offset);
  }

  /** A whole connection: any number of read events, each reading any number of bytes, and each
      finding anything left in a newly allocated fragment. */
  method Session(stream: seq<byte>, sizes: seq<nat>, cacheSize: nat, leftovers: seq<nat>, ghost msgs: seq<Message>)
    returns (taken: seq<byte>, done: seq<Message>, log: seq<Shown>, marks: seq<nat>)
    requires cacheSize > 0 && AllWellFormed(msgs) && stream <= EncodeAll(msgs)
    ensures taken <= stream && WhollyRead(done, msgs, taken)
    ensures |marks| == |leftovers| && Reading(marks, |taken|) && Shows(msgs, leftovers, marks, log, |done|)
  {
    var socket := new Socket(stream, sizes);
    var endpoint := new Endpoint(cacheSize);
    assert socket.Taken() == [] && endpoint.Cached() == [];
    marks := [];
    for i := 0 to |leftovers|
      invariant socket.Valid() && socket.stream == stream && endpoint.Between(msgs, socket.Taken())
      invariant fresh(socket) && fresh(endpoint) && fresh(endpoint.cache)
      invariant endpoint.marks == marks && endpoint.leftovers == leftovers[..i] && |marks| == i
      invariant i == |leftovers| ==> endpoint.leftovers == leftovers
      invariant Reading(marks, socket.offset) && (marks == [] ==> socket.offset == 0)
    {
      marks := OneEvent(endpoint, socket, leftovers[i], marks, msgs);
      TakeNext(leftovers, i);
    }
    ShownSoFar(endpoint, msgs, socket.Taken());
    return stream[..socket.offset], endpoint.delivered, endpoint.log, marks;
  }

  /** The instance: two SENDs read at once, the second one empty. Its callback is given a segment
      as long as the first payload, whatever the fragment held. */
  method ReadBothAtOnce(tag: byte, payload: seq<byte>, leftover: nat) returns (log: seq<Shown>)
    requires 0 < |payload| < Power(4)
    ensures log == [Payload(tag, payload), Leftover(tag, |payload|)]
  {
    ghost var msgs := [Message.Send(tag, payload), Message.Send(tag, [])];
    var stream := Encode(Message.Send(tag, payload)) + Encode(Message.Send(tag, []));
    BothEncoded(tag, payload, stream);
    var socket := new Socket(stream, [|stream|]);
    var endpoint := new Endpoint(|stream|);
    assert socket.Taken() == [] && endpoint.Cached() == [];
    endpoint.ReceiveHandler(socket, leftover, msgs);
    assert socket.Taken() == stream;
    AllShown(endpoint, msgs, stream);
    log := endpoint.log;
    BothShown(tag, payload, leftover, log);
  }

  lemma {:induction false} ShownSoFar(e: Endpoint, msgs: seq<Message>, taken: seq<byte>)
    requires e.Between(msgs, taken) && AllWellFormed(msgs) && taken <= EncodeAll(msgs)
    ensures WhollyRead(e.delivered, msgs, taken)
    ensures |e.leftovers| == |e.marks| && |e.delivered| <= |msgs| && Shows(msgs, e.leftovers, e.marks, e.log, |e.delivered|)
  {
    BetweenDecides(e, msgs, taken);
    assert e.Logged(if e.busy then Open else Idle, msgs, |taken|);
  }

  lemma {:induction false} AllShown(e: Endpoint, msgs: seq<Message>, taken: seq<byte>)
    requires e.Between(msgs, taken) && AllWellFormed(msgs) && taken == EncodeAll(msgs) && msgs != [] && !NoData(msgs[|msgs| - 1])
    ensures e.delivered == msgs && |e.leftovers| == |e.marks| && Shows(msgs, e.leftovers, e.marks, e.log, |msgs|)
  {
    ShownSoFar(e, msgs, taken);
    EverythingHandedOver(e.delivered, msgs);
  }

  lemma {:induction false} BothEncoded(tag: byte, payload: seq<byte>, stream: seq<byte>)
    requires stream == Encode(Message.Send(tag, payload)) + Encode(Message.Send(tag, []))
    requires |payload| < Power(4)
    ensures var msgs := [Message.Send(tag, payload), Message.Send(tag, [])];
            stream == EncodeAll(msgs) && AllWellFormed(msgs)
  {
    var msgs := [Message.Send(tag, payload), Message.Send(tag, [])];
    PowerValues();
    assert msgs[1..] == [msgs[1]] && msgs[1..][1..] == [];
    assert EncodeAll(msgs[1..]) == Encode(msgs[1]) + [];
  }

  lemma {:induction false} BothShown(tag: byte, payload: seq<byte>, leftover: nat, log: seq<Shown>)
    requires payload != []
    requires Shows([Message.Send(tag, payload), Message.Send(tag, [])], [leftover], [0], log, 2)
    ensures log == [Payload(tag, payload), Leftover(tag, |payload|)]
  {
    var msgs := [Message.Send(tag, payload), Message.Send(tag, [])];
    assert msgs[..0] == [];
    StartsAscend(msgs, 0, 1);
    assert FirstAt([0][1..], StartOf(msgs, 1)) == 0;
    assert log[0] == ShownFor(msgs[0], LeftIn(msgs, [leftover], [0], 0));
    EmptySendShownWrong(msgs, [leftover], [0], log, 2, 1);
  }
}
