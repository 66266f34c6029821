/** The byte format of the TCP transfer layer: an 8-byte header, then the payload of a SEND,
    or the segment descriptors and the data of a PUT. */
module TcpFrame {

  type byte = b: int | 0 <= b < 256

  const HEADER := 8
  const SEGMENT := 16
  const TYPE_SEND: byte := 1
  const TYPE_PUT: byte := 2
  const TAG_BTL: byte := 0

  datatype Header = Header(tag: byte, kind: byte, count: nat, size: nat)

  /** One destination of a PUT: where the data goes and how much of it. */
  datatype Segment = Segment(addr: nat, len: nat)

  datatype Message =
    | Send(tag: byte, payload: seq<byte>)
    | Put(segments: seq<Segment>, pieces: seq<seq<byte>>)

  function Power(k: nat): (r: nat)
    ensures r > 0
  {
    if k == 0 then 1 else 256 * Power(k - 1)
  }

  /** `k` bytes of `n`, least significant first. */
  function Little(n: nat, k: nat): (r: seq<byte>)
    ensures |r| == k
  {
    if k == 0 then [] else [n % 256] + Little(n / 256, k - 1)
  }

  function Value(bytes: seq<byte>): nat {
    if bytes == [] then 0 else bytes[0] + 256 * Value(bytes[1..])
  }

  lemma {:induction false} ValueOfLittle(n: nat, k: nat)
    requires n < Power(k)
    ensures Value(Little(n, k)) == n
  {
    if k > 0 {
      ValueOfLittle(n / 256, k - 1);
    }
  }

  function EncodeHeader(h: Header): (r: seq<byte>)
    ensures |r| == HEADER
  {
    [h.tag, h.kind] + Little(h.count, 2) + Little(h.size, 4)
  }

  function DecodeHeader(b: seq<byte>): Header
    requires |b| >= HEADER
  {
    Header(b[0], b[1], Value(b[2..4]), Value(b[4..8]))
  }

  function EncodeSegment(s: Segment): (r: seq<byte>)
    ensures |r| == SEGMENT
  {
    Little(s.addr, 8) + Little(s.len, 8)
  }

  function DecodeSegment(b: seq<byte>): Segment
    requires |b| == SEGMENT
  {
    Segment(Value(b[..8]), Value(b[8..]))
  }

  function EncodeSegments(ss: seq<Segment>): (r: seq<byte>)
    ensures |r| == SEGMENT * |ss|
  {
    if ss == [] then [] else EncodeSegment(ss[0]) + EncodeSegments(ss[1..])
  }

  function DecodeSegments(b: seq<byte>, count: nat): (r: seq<Segment>)
    requires |b| == SEGMENT * count
    ensures |r| == count
  {
    if count == 0 then [] else [DecodeSegment(b[..SEGMENT])] + DecodeSegments(b[SEGMENT..], count - 1)
  }

  function Flatten(pieces: seq<seq<byte>>): seq<byte> {
    if pieces == [] then [] else pieces[0] + Flatten(pieces[1..])
  }

  function Sum(xs: seq<nat>): nat {
    if xs == [] then 0 else xs[0] + Sum(xs[1..])
  }

  function Lengths(ss: seq<Segment>): (r: seq<nat>)
    ensures |r| == |ss|
  {
    seq(|ss|, i requires 0 <= i < |ss| => ss[i].len)
  }

  /** The messages the sender can put on the stream: header fields that fit their width, a
      SEND with any payload, a PUT with one or two segments and exactly their data. */
  ghost predicate WellFormed(m: Message) {
    match m
    case Send(tag, payload) => |payload| < Power(4)
    case Put(segments, pieces) =>
      && 1 <= |segments| <= 2 && |pieces| == |segments|
      && |Flatten(pieces)| < Power(4)
      && (forall i :: 0 <= i < |segments| ==> segments[i].addr < Power(8) && segments[i].len < Power(8))
      && (forall i :: 0 <= i < |segments| ==> |pieces[i]| == segments[i].len)
  }

  function HeaderOf(m: Message): Header {
    match m
    case Send(tag, payload) => Header(tag, TYPE_SEND, 0, |payload|)
    case Put(segments, pieces) => Header(TAG_BTL, TYPE_PUT, |segments|, |Flatten(pieces)|)
  }

  function Body(m: Message): seq<byte> {
    match m
    case Send(tag, payload) => payload
    case Put(segments, pieces) => EncodeSegments(segments) + Flatten(pieces)
  }

  function Encode(m: Message): (r: seq<byte>)
    ensures |r| >= HEADER
  {
    EncodeHeader(HeaderOf(m)) + Body(m)
  }

  function EncodeAll(ms: seq<Message>): seq<byte> {
    if ms == [] then [] else Encode(ms[0]) + EncodeAll(ms[1..])
  }

  // ---------------------------------------------------------------------------
  // Decoding undoes encoding
  // ---------------------------------------------------------------------------

  lemma PowerValues()
    ensures Power(2) == 0x1_0000 && Power(4) == 0x1_0000_0000
    ensures Power(8) == 0x1_0000_0000_0000_0000
  {
    assert Power(1) == 256 * Power(0);
    assert Power(2) == 256 * Power(1);
    assert Power(3) == 256 * Power(2);
    assert Power(4) == 256 * Power(3);
    assert Power(5) == 256 * Power(4);
    assert Power(6) == 256 * Power(5);
    assert Power(7) == 256 * Power(6);
    assert Power(8) == 256 * Power(7);
  }

  lemma HeaderRoundTrip(h: Header)
    requires h.count < Power(2) && h.size < Power(4)
    ensures DecodeHeader(EncodeHeader(h)) == h
  {
    var b := EncodeHeader(h);
    assert b[2..4] == Little(h.count, 2) && b[4..8] == Little(h.size, 4);
    ValueOfLittle(h.count, 2);
    ValueOfLittle(h.size, 4);
  }

  lemma SegmentRoundTrip(s: Segment)
    requires s.addr < Power(8) && s.len < Power(8)
    ensures DecodeSegment(EncodeSegment(s)) == s
  {
    var b := EncodeSegment(s);
    assert b[..8] == Little(s.addr, 8) && b[8..] == Little(s.len, 8);
    ValueOfLittle(s.addr, 8);
    ValueOfLittle(s.len, 8);
  }

  lemma {:induction false} SegmentsRoundTrip(ss: seq<Segment>)
    requires forall i :: 0 <= i < |ss| ==> ss[i].addr < Power(8) && ss[i].len < Power(8)
    ensures DecodeSegments(EncodeSegments(ss), |ss|) == ss
  {
    if ss != [] {
      var b := EncodeSegments(ss);
      assert b[..SEGMENT] == EncodeSegment(ss[0]) && b[SEGMENT..] == EncodeSegments(ss[1..]);
      SegmentRoundTrip(ss[0]);
      SegmentsRoundTrip(ss[1..]);
    }
  }

  lemma {:induction false} EachSegment(ss: seq<Segment>, i: nat)
    requires i < |ss|
    ensures EncodeSegments(ss)[SEGMENT * i..SEGMENT * i + SEGMENT] == EncodeSegment(ss[i])
  {
    if i > 0 {
      EachSegment(ss[1..], i - 1);
      var (e, rest) := (EncodeSegments(ss), EncodeSegments(ss[1..]));
      assert e[SEGMENT * i..SEGMENT * i + SEGMENT] == rest[SEGMENT * (i - 1)..SEGMENT * (i - 1) + SEGMENT];
    }
  }

  function Digit(b: seq<byte>, i: nat): int
    requires i < |b|
  {
    b[i]
  }

  /** `n` in the bytes from place `at` on, the lowest first. */
  ghost predicate Holds2(b: seq<byte>, at: nat, n: nat) {
    at + 2 <= |b| && n == Digit(b, at) + 0x100 * Digit(b, at + 1)
  }

  ghost predicate Holds4(b: seq<byte>, at: nat, n: nat) {
    at + 4 <= |b| && n == Digit(b, at) + 0x100 * Digit(b, at + 1) + 0x1_0000 * Digit(b, at + 2) + 0x100_0000 * Digit(b, at + 3)
  }

  lemma {:induction false} LittleDigits(n: nat)
    ensures n < 0x1_0000 ==> Holds2(Little(n, 2), 0, n)
    ensures n < 0x1_0000_0000 ==> Holds4(Little(n, 4), 0, n)
  {
    assert Little(n, 2) == [n % 256, n / 256 % 256] by {
      assert Little(n / 256, 1) == [n / 256 % 256] + Little(n / 256 / 256, 0);
    }
    var (a, b, c) := (n / 256, n / 256 / 256, n / 256 / 256 / 256);
    assert Little(c, 1) == [c % 256] + Little(c / 256, 0) == [c % 256];
    assert Little(b, 2) == [b % 256] + Little(c, 1);
    assert Little(a, 3) == [a % 256] + Little(b, 2);
    assert Little(n, 4) == [n % 256] + Little(a, 3);
  }

  /** Where everything is on the wire: the tag in the first byte, 1 for a SEND or 2 for a PUT in the second, then the
      count and the size, in a PUT the segments of 16 bytes, address before length, and then the data. */
  lemma WireLayout(m: Message)
    requires WellFormed(m)
    ensures var b := Encode(m);
            match m
            case Send(tag, payload) =>
              b[0] == tag && b[1] == 1 && Holds2(b, 2, 0) && Holds4(b, 4, |payload|) && b[8..] == payload
            case Put(segments, pieces) =>
              && b[0] == 0 && b[1] == 2 && Holds2(b, 2, |segments|) && Holds4(b, 4, |Flatten(pieces)|)
              && |b| == 8 + 16 * |segments| + |Flatten(pieces)| && b[8 + 16 * |segments|..] == Flatten(pieces)
              && forall i :: 0 <= i < |segments| ==>
                   Value(b[8 + 16 * i..16 + 16 * i]) == segments[i].addr && Value(b[16 + 16 * i..24 + 16 * i]) == segments[i].len
  {
    PowerValues();
    var (b, h) := (Encode(m), HeaderOf(m));
    LittleDigits(h.count);
    LittleDigits(h.size);
    assert b[2..4] == Little(h.count, 2) && b[4..8] == Little(h.size, 4);
    assert forall i :: 0 <= i < 2 ==> b[2 + i] == b[2..4][i];
    assert forall i :: 0 <= i < 4 ==> b[4 + i] == b[4..8][i];
    if m.Put? {
      SegmentLayout(m, b);
    }
  }

  lemma {:induction false} SegmentLayout(m: Message, b: seq<byte>)
    requires WellFormed(m) && m.Put? && b == Encode(m)
    ensures b[8 + 16 * |m.segments|..] == Flatten(m.pieces)
    ensures forall i :: 0 <= i < |m.segments| ==>
              Value(b[8 + 16 * i..16 + 16 * i]) == m.segments[i].addr && Value(b[16 + 16 * i..24 + 16 * i]) == m.segments[i].len
  {
    var e := EncodeSegments(m.segments);
    forall i | 0 <= i < |m.segments|
      ensures Value(b[8 + 16 * i..16 + 16 * i]) == m.segments[i].addr && Value(b[16 + 16 * i..24 + 16 * i]) == m.segments[i].len
    {
      var s := m.segments[i];
      EachSegment(m.segments, i);
      var own := e[16 * i..16 * i + 16];
      assert b[8 + 16 * i..24 + 16 * i] == own == Little(s.addr, 8) + Little(s.len, 8);
      assert b[8 + 16 * i..16 + 16 * i] == own[..8] == Little(s.addr, 8);
      assert b[16 + 16 * i..24 + 16 * i] == own[8..] == Little(s.len, 8);
      ValueOfLittle(s.addr, 8);
      ValueOfLittle(s.len, 8);
    }
  }

  /** Cuts `data` into consecutive pieces of the given lengths. */
  function Cut(data: seq<byte>, lens: seq<nat>): (pieces: seq<seq<byte>>)
    requires |data| == Sum(lens)
    ensures |pieces| == |lens|
  {
    if lens == [] then [] else [data[..lens[0]]] + Cut(data[lens[0]..], lens[1..])
  }

  lemma {:induction false} CutFlatten(pieces: seq<seq<byte>>, lens: seq<nat>)
    requires |pieces| == |lens| && forall i :: 0 <= i < |lens| ==> |pieces[i]| == lens[i]
    ensures |Flatten(pieces)| == Sum(lens) && Cut(Flatten(pieces), lens) == pieces
  {
    if lens != [] {
      CutFlatten(pieces[1..], lens[1..]);
      var data := Flatten(pieces);
      assert data[..lens[0]] == pieces[0] && data[lens[0]..] == Flatten(pieces[1..]);
    }
  }

  /** The length of the whole message whose first bytes are `b`, as far as `b` tells. */
  function Announced(b: seq<byte>): nat {
    if |b| < HEADER then HEADER
    else
      var h := DecodeHeader(b);
      if h.kind == TYPE_SEND then HEADER + h.size
      else if h.kind == TYPE_PUT then
        var fixed := HEADER + SEGMENT * h.count;
        if |b| < fixed then fixed
        else fixed + Sum(Lengths(DecodeSegments(b[HEADER..fixed], h.count)))
      else HEADER
  }

  lemma PutLengths(m: Message)
    requires WellFormed(m) && m.Put?
    ensures |Flatten(m.pieces)| == Sum(Lengths(m.segments))
    ensures Cut(Flatten(m.pieces), Lengths(m.segments)) == m.pieces
  {
    CutFlatten(m.pieces, Lengths(m.segments));
  }

  /** What a beginning of an encoded message reveals. */
  lemma PrefixReveals(m: Message, b: seq<byte>)
    requires WellFormed(m) && b <= Encode(m)
    ensures |b| >= HEADER ==> DecodeHeader(b) == HeaderOf(m)
    ensures m.Put? && |b| >= HEADER + SEGMENT * |m.segments| ==>
              DecodeSegments(b[HEADER..HEADER + SEGMENT * |m.segments|], |m.segments|) == m.segments
  {
    PowerValues();
    if |b| >= HEADER {
      var h := HeaderOf(m);
      HeaderRoundTrip(h);
      var e := EncodeHeader(h);
      assert b[..HEADER] == e;
      assert b[2..4] == e[2..4] && b[4..8] == e[4..8];
    }
    if m.Put? && |b| >= HEADER + SEGMENT * |m.segments| {
      SegmentsRoundTrip(m.segments);
      assert b[HEADER..HEADER + SEGMENT * |m.segments|] == EncodeSegments(m.segments);
    }
  }

  /** A beginning of an encoded message announces exactly how far the message goes, or a
      longer beginning; and it announces the end only when it knows the whole length. */
  lemma AnnouncedLength(m: Message, b: seq<byte>)
    requires WellFormed(m) && b <= Encode(m)
    ensures Announced(b) <= |Encode(m)|
    ensures |b| < Announced(b) || b == Encode(m)
  {
    PrefixReveals(m, b);
    if m.Put? {
      PutLengths(m);
    }
  }

  lemma {:induction false} EncodeAllSplits(ms: seq<Message>, k: nat)
    requires k <= |ms|
    ensures EncodeAll(ms) == EncodeAll(ms[..k]) + EncodeAll(ms[k..])
  {
    if k == 0 {
      assert ms[..0] == [] && ms[0..] == ms;
    } else {
      EncodeAllSplits(ms[1..], k - 1);
      assert ms[1..][..k - 1] == ms[..k][1..] && ms[1..][k - 1..] == ms[k..];
      assert Encode(ms[0]) + (EncodeAll(ms[..k][1..]) + EncodeAll(ms[k..])) ==
             (Encode(ms[0]) + EncodeAll(ms[..k][1..])) + EncodeAll(ms[k..]);
    }
  }
}
