/** Both ends of one connection: what is submitted on one side is handed over on the other. */
module TcpLink {
  import opened TcpFrame
  import S = TcpSend
  import R = TcpReceive

  /** Fragment by fragment, the sender was given these messages. */
  ghost predicate Carries(frags: seq<S.Fragment>, msgs: seq<Message>) {
    |frags| == |msgs| && forall i :: 0 <= i < |frags| ==> WellFormed(msgs[i]) && frags[i].Bytes() == Encode(msgs[i])
  }

  lemma {:induction false} CarriedBytes(frags: seq<S.Fragment>, msgs: seq<Message>)
    requires Carries(frags, msgs)
    ensures S.AllBytes(frags) == EncodeAll(msgs)
  {
    if frags != [] {
      CarriedBytes(frags[1..], msgs[1..]);
    }
  }

  /** Whatever the sender has put on the wire is a stream the receiver accepts. */
  lemma {:induction false} WireIsReceivable(e: S.Endpoint, msgs: seq<Message>)
    requires e.Valid() && Carries(e.submitted, msgs)
    ensures e.wire.sent <= EncodeAll(msgs) && R.AllWellFormed(msgs)
  {
    e.StreamInOrder();
    CarriedBytes(e.submitted, msgs);
  }

  /** A fragment built by send carries its message. */
  method SendFragment(tag: byte, sources: seq<seq<byte>>, priority: bool, callback: bool) returns (frag: S.Fragment, ghost m: Message)
    requires |Flatten(sources)| < Power(4)
    ensures fresh(frag) && frag.rest == frag.vectors && Carries([frag], [m]) && m == Message.Send(tag, Flatten(sources))
  {
    var vectors := S.SendVectors(tag, sources);
    frag := new S.Fragment(vectors, priority, callback);
    m := Message.Send(tag, Flatten(sources));
  }

  /** So does one built by put, for one or two destinations that match the sources. */
  method PutFragment(destinations: seq<Segment>, sources: seq<seq<byte>>, priority: bool, callback: bool) returns (frag: S.Fragment, ghost m: Message)
    requires |Flatten(sources)| < Power(4) && S.Matching(destinations, sources)
    ensures fresh(frag) && frag.rest == frag.vectors && Carries([frag], [m]) && m == Put(destinations, sources)
  {
    var vectors := S.PutVectors(destinations, sources);
    frag := new S.Fragment(vectors, priority, callback);
    m := Put(destinations, sources);
  }

  /** What is handed over once everything submitted is read. */
  ghost function Released(msgs: seq<Message>): seq<Message> {
    if msgs != [] && R.NoData(msgs[|msgs| - 1]) then msgs[..|msgs| - 1] else msgs
  }

  /** End to end: however the sender's writes and the receiver's reads were cut up, what the
      receiver hands over is a beginning of what was submitted, and once the sender has no
      current fragment and the receiver has read all there is, it is everything but a PUT without
      data at the very end. */
  method EndToEnd(e: S.Endpoint, sizes: seq<nat>, cacheSize: nat, leftovers: seq<nat>, ghost msgs: seq<Message>)
    returns (taken: seq<byte>, done: seq<Message>)
    requires e.Valid() && Carries(e.submitted, msgs) && cacheSize > 0
    ensures taken <= e.wire.sent && done <= msgs && R.WhollyRead(done, msgs, taken)
    ensures e.state == S.Connected && e.sendFrag == null && taken == e.wire.sent ==> done == Released(msgs)
  {
    WireIsReceivable(e, msgs);
    e.StreamInOrder();
    CarriedBytes(e.submitted, msgs);
    var log, marks;
    taken, done, log, marks := R.Session(e.wire.sent, sizes, cacheSize, leftovers, msgs);
    if e.state == S.Connected && e.sendFrag == null && taken == e.wire.sent {
      R.EverythingHandedOver(done, msgs);
    }
  }
}
