/** Message framing on a byte stream: headers, frames, and a receiver that takes one byte at a time. */
module Wire {
  const HEADER_SIZE := 24
  const MAX_SIZE := 0x02000000
  const MAX_PROTOCOL_MESSAGE_LENGTH := 4000000

  type Byte = x: nat | x < 256

  datatype Header = Header(start: seq<Byte>, command: seq<Byte>, size: nat, checksum: seq<Byte>)

  predicate HeaderOk(h: Header) {
    |h.start| == 4 && |h.command| == 12 && h.size < 0x1_0000_0000 && |h.checksum| == 4
  }

  function WriteLE32(n: nat): (s: seq<Byte>)
    requires n < 0x1_0000_0000
    ensures |s| == 4
  {
    [n % 256, n / 256 % 256, n / 65536 % 256, n / 16777216]
  }

  function ReadLE32(s: seq<Byte>): (n: nat)
    requires |s| == 4
    ensures n < 0x1_0000_0000
  {
    var a: nat, b: nat, c: nat, d: nat := s[0], s[1], s[2], s[3];
    a + 256 * b + 65536 * c + 16777216 * d
  }

  function Serialize(h: Header): (s: seq<Byte>)
    requires HeaderOk(h)
    ensures |s| == HEADER_SIZE
  {
    h.start + h.command + WriteLE32(h.size) + h.checksum
  }

  function Parse(s: seq<Byte>): (h: Header)
    requires |s| == HEADER_SIZE
    ensures HeaderOk(h)
  {
    Header(s[..4], s[4..16], ReadLE32(s[16..20]), s[20..24])
  }

  lemma LE32RoundTrip(n: nat)
    requires n < 0x1_0000_0000
    ensures ReadLE32(WriteLE32(n)) == n
  {
    assert n / 256 == 256 * (n / 65536) + n / 256 % 256;
    assert n / 65536 == 256 * (n / 16777216) + n / 65536 % 256;
  }

  /** Parsing a serialized header gives it back. */
  lemma ParseSerialize(h: Header)
    requires HeaderOk(h)
    ensures Parse(Serialize(h)) == h
  {
    var s := Serialize(h);
    assert s[..4] == h.start && s[4..16] == h.command && s[16..20] == WriteLE32(h.size) && s[20..24] == h.checksum;
    LE32RoundTrip(h.size);
  }

  // ---------- the receiver, one byte at a time ----------

  datatype Msg = Msg(hdr: Header, data: seq<Byte>)

  /** The completed messages, and the header or the data read so far; or failure. */
  datatype Receiver =
    | Head(done: seq<Msg>, head: seq<Byte>)
    | Body(done: seq<Msg>, hdr: Header, data: seq<Byte>)
    | Failed(done: seq<Msg>)

  function WithHeader(done: seq<Msg>, hdr: Header): Receiver {
    if hdr.size > MAX_PROTOCOL_MESSAGE_LENGTH then Failed(done)
    else if hdr.size == 0 then Head(done + [Msg(hdr, [])], [])
    else Body(done, hdr, [])
  }

  function WithData(done: seq<Msg>, hdr: Header, data: seq<Byte>): Receiver {
    if |data| == hdr.size then Head(done + [Msg(hdr, data)], []) else Body(done, hdr, data)
  }

  function Feed(r: Receiver, b: Byte): Receiver {
    match r
    case Head(done, head) =>
      if |head| + 1 == HEADER_SIZE then WithHeader(done, Parse(head + [b])) else Head(done, head + [b])
    case Body(done, hdr, data) => WithData(done, hdr, data + [b])
    case Failed(_) => r
  }

  function FeedAll(r: Receiver, s: seq<Byte>): Receiver
    decreases |s|
  {
    if s == [] then r else FeedAll(Feed(r, s[0]), s[1..])
  }

  /** How the stream is cut into pieces makes no difference. */
  lemma {:induction false} FeedConcat(r: Receiver, s: seq<Byte>, t: seq<Byte>)
    ensures FeedAll(r, s + t) == FeedAll(FeedAll(r, s), t)
    decreases |s|
  {
    if s == [] {
      assert s + t == t;
    } else {
      assert (s + t)[1..] == s[1..] + t;
      FeedConcat(Feed(r, s[0]), s[1..], t);
    }
  }

  lemma {:induction false} FeedPieces(r: Receiver, pieces: seq<seq<Byte>>)
    ensures FeedEach(r, pieces) == FeedAll(r, Concat(pieces))
    decreases |pieces|
  {
    if pieces != [] {
      FeedConcat(r, pieces[0], Concat(pieces[1..]));
      FeedPieces(FeedAll(r, pieces[0]), pieces[1..]);
    }
  }

  function Concat<T>(pieces: seq<seq<T>>): seq<T> {
    if pieces == [] then [] else pieces[0] + Concat(pieces[1..])
  }

  function FeedEach(r: Receiver, pieces: seq<seq<Byte>>): Receiver
    decreases |pieces|
  {
    if pieces == [] then r else FeedEach(FeedAll(r, pieces[0]), pieces[1..])
  }

  /** Bytes that fit in the current header. */
  lemma {:induction false} FeedHead(done: seq<Msg>, head: seq<Byte>, s: seq<Byte>)
    requires |head| < HEADER_SIZE && |head| + |s| <= HEADER_SIZE
    ensures FeedAll(Head(done, head), s) ==
      if |head| + |s| == HEADER_SIZE then WithHeader(done, Parse(head + s)) else Head(done, head + s)
    decreases |s|
  {
    if s == [] {
      assert head + s == head;
    } else if |s| == 1 {
      assert s == [s[0]] && s[1..] == [];
    } else {
      assert head + [s[0]] + s[1..] == head + s;
      FeedHead(done, head + [s[0]], s[1..]);
    }
  }

  /** Bytes that fit in the current data. */
  lemma {:induction false} FeedBody(done: seq<Msg>, hdr: Header, data: seq<Byte>, s: seq<Byte>)
    requires |data| < hdr.size && |data| + |s| <= hdr.size
    ensures FeedAll(Body(done, hdr, data), s) == WithData(done, hdr, data + s)
    decreases |s|
  {
    if s == [] {
      assert data + s == data;
    } else if |s| == 1 {
      assert s == [s[0]] && s[1..] == [];
    } else {
      assert data + [s[0]] + s[1..] == data + s;
      FeedBody(done, hdr, data + [s[0]], s[1..]);
    }
  }

  lemma {:induction false} FailedStays(done: seq<Msg>, s: seq<Byte>)
    ensures FeedAll(Failed(done), s) == Failed(done)
    decreases |s|
  {
    if s != [] { FailedStays(done, s[1..]); }
  }

  // ---------- frames ----------

  predicate MsgOk(m: Msg) { HeaderOk(m.hdr) && m.hdr.size == |m.data| }

  predicate InLimit(m: Msg) { |m.data| <= MAX_PROTOCOL_MESSAGE_LENGTH }

  predicate AllInLimit(ms: seq<Msg>) { forall i :: 0 <= i < |ms| ==> InLimit(ms[i]) }

  function Frame(m: Msg): (s: seq<Byte>)
    requires MsgOk(m)
  {
    Serialize(m.hdr) + m.data
  }

  predicate AllOk(ms: seq<Msg>) { forall i :: 0 <= i < |ms| ==> MsgOk(ms[i]) }

  function Frames(ms: seq<Msg>): seq<Byte>
    requires AllOk(ms)
  {
    if ms == [] then [] else Frame(ms[0]) + Frames(ms[1..])
  }

  /** A frame completes exactly its message. */
  lemma FrameReceived(done: seq<Msg>, m: Msg)
    requires MsgOk(m) && InLimit(m)
    ensures FeedAll(Head(done, []), Frame(m)) == Head(done + [m], [])
  {
    var h := Serialize(m.hdr);
    FeedConcat(Head(done, []), h, m.data);
    FeedHead(done, [], h);
    assert [] + h == h;
    ParseSerialize(m.hdr);
    if m.data != [] {
      FeedBody(done, m.hdr, [], m.data);
      assert [] + m.data == m.data;
    }
  }

  /** Inside a frame nothing is completed and nothing fails. */
  lemma PartialFrame(done: seq<Msg>, m: Msg, s: seq<Byte>)
    requires MsgOk(m) && InLimit(m) && s < Frame(m)
    ensures var r := FeedAll(Head(done, []), s); !r.Failed? && r.done == done
  {
    var h := Serialize(m.hdr);
    if |s| < HEADER_SIZE {
      FeedHead(done, [], s);
    } else {
      assert s == h + s[HEADER_SIZE..];
      FeedConcat(Head(done, []), h, s[HEADER_SIZE..]);
      FeedHead(done, [], h);
      assert [] + h == h;
      ParseSerialize(m.hdr);
      FeedBody(done, m.hdr, [], s[HEADER_SIZE..]);
    }
  }

  /** Whole frames are received as their messages, in order. */
  lemma {:induction false} FramesReceived(done: seq<Msg>, ms: seq<Msg>)
    requires AllOk(ms) && AllInLimit(ms)
    ensures FeedAll(Head(done, []), Frames(ms)) == Head(done + ms, [])
    decreases |ms|
  {
    if ms == [] {
      assert done + ms == done;
    } else {
      FrameReceived(done, ms[0]);
      FeedConcat(Head(done, []), Frame(ms[0]), Frames(ms[1..]));
      FramesReceived(done + [ms[0]], ms[1..]);
      assert done + [ms[0]] + ms[1..] == done + ms;
    }
  }

  lemma FramesSplit(ms: seq<Msg>, k: nat)
    requires AllOk(ms) && 0 < k <= |ms|
    ensures Frames(ms[..k]) == Frame(ms[0]) + Frames(ms[1..][..k - 1])
  {
    assert ms[..k][1..] == ms[1..][..k - 1];
  }

  /** Of the frames in `s`, the first k have arrived whole and their messages have been received. */
  ghost predicate Received(done: seq<Msg>, ms: seq<Msg>, s: seq<Byte>, k: nat)
    requires AllOk(ms)
  {
    && k <= |ms| && Frames(ms[..k]) <= s && (k < |ms| ==> |s| < |Frames(ms[..k + 1])|)
    && var r := FeedAll(Head(done, []), s);
       !r.Failed? && r.done == done + ms[..k]
  }

  lemma ReceivedMore(done: seq<Msg>, ms: seq<Msg>, t: seq<Byte>, j: nat)
    requires AllOk(ms) && ms != [] && InLimit(ms[0]) && Received(done + [ms[0]], ms[1..], t, j)
    ensures Received(done, ms, Frame(ms[0]) + t, j + 1)
  {
    FrameReceived(done, ms[0]);
    FeedConcat(Head(done, []), Frame(ms[0]), t);
    FramesSplit(ms, j + 1);
    if j + 1 < |ms| { FramesSplit(ms, j + 2); }
    assert done + [ms[0]] + ms[1..][..j] == done + ms[..j + 1];
  }

  lemma ReceivedNone(done: seq<Msg>, ms: seq<Msg>, s: seq<Byte>)
    requires AllOk(ms) && ms != [] && InLimit(ms[0]) && s < Frame(ms[0])
    ensures Received(done, ms, s, 0)
  {
    PartialFrame(done, ms[0], s);
    FramesSplit(ms, 1);
    assert done + ms[..0] == done;
  }

  /** From any part of the stream, exactly the messages whose frames have arrived are received. */
  lemma {:induction false} PrefixReceived(done: seq<Msg>, ms: seq<Msg>, s: seq<Byte>) returns (k: nat)
    requires AllOk(ms) && AllInLimit(ms) && s <= Frames(ms)
    ensures Received(done, ms, s, k)
    decreases |ms|
  {
    if ms == [] {
      k := 0;
      assert done + ms[..0] == done;
    } else if |s| < |Frame(ms[0])| {
      k := 0;
      assert s == Frames(ms)[..|s|] == Frame(ms[0])[..|s|];
      ReceivedNone(done, ms, s);
    } else {
      var f := Frame(ms[0]);
      var t := s[|f|..];
      assert s == f + t && t <= Frames(ms[1..]);
      k := PrefixReceived(done + [ms[0]], ms[1..], t);
      ReceivedMore(done, ms, t, k);
      k := k + 1;
    }
  }

  /** However the stream is cut up, the receiver completes the sent messages, in order and whole. */
  lemma StreamDelivered(ms: seq<Msg>, pieces: seq<seq<Byte>>) returns (k: nat)
    requires AllOk(ms) && AllInLimit(ms) && Concat(pieces) <= Frames(ms)
    ensures Received([], ms, Concat(pieces), k)
    ensures var r := FeedEach(Head([], []), pieces); !r.Failed? && r.done == ms[..k]
    ensures Concat(pieces) == Frames(ms) ==> k == |ms|
  {
    k := PrefixReceived([], ms, Concat(pieces));
    FeedPieces(Head([], []), pieces);
    assert [] + ms[..k] == ms[..k];
    if Concat(pieces) == Frames(ms) {
      FramesReceived([], ms);
      assert [] + ms == ms;
    }
  }

  /** A message above the limit makes the receiver give up when its header is complete. */
  lemma OversizedFrame(done: seq<Msg>, m: Msg, t: seq<Byte>)
    requires MsgOk(m) && !InLimit(m)
    ensures FeedAll(Head(done, []), Frame(m) + t) == Failed(done)
  {
    var h := Serialize(m.hdr);
    assert Frame(m) + t == h + (m.data + t);
    FeedConcat(Head(done, []), h, m.data + t);
    FeedHead(done, [], h);
    assert [] + h == h;
    ParseSerialize(m.hdr);
    FailedStays(done, m.data + t);
  }
}
