/** The receive buffers and the send queue of a peer. */
module NetNode {
  import opened Basics
  import opened Wire

  // ---------- receiving ----------

  /** A message that is being received. */
  class NetMessage {
    var inData: bool
    var hdrbuf: seq<Byte>
    var nHdrPos: nat
    var hdr: Header
    var vRecv: seq<Byte>
    var nDataPos: nat
    /** The bytes given to the hasher. */
    var hashed: seq<Byte>

    constructor ()
      ensures Valid() && !inData && nHdrPos == 0
    {
      inData, nHdrPos, nDataPos := false, 0, 0;
      hdrbuf := seq(HEADER_SIZE, _ => 0);
      hdr := Header([], [], 0xFFFF_FFFF, []);
      vRecv, hashed := [], [];
    }

    predicate Complete()
      reads this
    {
      inData && hdr.size == nDataPos
    }

    /** The data buffer may run ahead of the data, but never beyond the message. */
    ghost predicate Valid()
      reads this
    {
      && |hdrbuf| == HEADER_SIZE
      && (if inData then nHdrPos == HEADER_SIZE && nDataPos <= |vRecv| <= hdr.size <= MAX_PROTOCOL_MESSAGE_LENGTH
          else nHdrPos < HEADER_SIZE && nDataPos == 0 && vRecv == [])
      && hashed == vRecv[..nDataPos]
    }

    method ReadHeader(pch: seq<Byte>) returns (handled: int)
      requires Valid() && !inData
      modifies this
      ensures var n := Min(HEADER_SIZE - old(nHdrPos), |pch|);
        var head := old(hdrbuf[..nHdrPos]) + pch[..n];
        && (|head| < HEADER_SIZE ==> handled == n && Valid() && !inData && hdrbuf[..nHdrPos] == head)
        && (|head| == HEADER_SIZE ==> (handled == -1 <==> Parse(head).size > MAX_SIZE))
        && (|head| == HEADER_SIZE && handled != -1 ==>
              handled == n && inData && hdr == Parse(head) && nHdrPos == HEADER_SIZE)
        && |hdrbuf| == HEADER_SIZE && vRecv == [] && nDataPos == 0 && hashed == []
    {
      var nCopy := Min(HEADER_SIZE - nHdrPos, |pch|);
      hdrbuf := hdrbuf[..nHdrPos] + pch[..nCopy] + hdrbuf[nHdrPos + nCopy..];
      nHdrPos := nHdrPos + nCopy;
      assert hdrbuf[..nHdrPos] == old(hdrbuf[..nHdrPos]) + pch[..nCopy];
      if nHdrPos < HEADER_SIZE { return nCopy; }
      assert hdrbuf == hdrbuf[..nHdrPos];
      hdr := Parse(hdrbuf);
      if hdr.size > MAX_SIZE { return -1; }
      inData := true;
      return nCopy;
    }

    method ReadData(pch: seq<Byte>) returns (handled: int)
      requires Valid() && inData && !Complete()
      modifies this
      ensures Valid() && inData && hdr == old(hdr)
      ensures handled == Min(hdr.size - old(nDataPos), |pch|)
      ensures vRecv[..nDataPos] == old(vRecv[..nDataPos]) + pch[..handled]
    {
      var nCopy := Min(hdr.size - nDataPos, |pch|);
      if |vRecv| < nDataPos + nCopy {
        var n := Min(hdr.size, nDataPos + nCopy + 256 * 1024);
        vRecv := vRecv + seq(n - |vRecv|, _ => 0);
      }
      hashed := hashed + pch[..nCopy];
      vRecv := vRecv[..nDataPos] + pch[..nCopy] + vRecv[nDataPos + nCopy..];
      nDataPos := nDataPos + nCopy;
      assert vRecv[..nDataPos] == old(vRecv[..nDataPos]) + pch[..nCopy];
      return nCopy;
    }
  }

  class NodeReceiver {
    var vRecvMsg: seq<NetMessage>
    /** The messages completed so far. */
    ghost var done: seq<Msg>

    constructor ()
      ensures Valid() && State() == Head([], [])
    {
      vRecvMsg, done := [], [];
    }

    ghost predicate Distinct()
      reads this
    {
      forall i, j :: 0 <= i < j < |vRecvMsg| ==> vRecvMsg[i] != vRecvMsg[j]
    }

    /** All messages but perhaps the last are complete and hold what was received. */
    ghost predicate Valid()
      reads this, vRecvMsg
    {
      && Distinct()
      && |vRecvMsg| - 1 <= |done| <= |vRecvMsg|
      && (forall i :: 0 <= i < |done| ==> IsMessage(vRecvMsg[i], done[i]))
      && (|done| < |vRecvMsg| ==> vRecvMsg[|done|].Valid() && !vRecvMsg[|done|].Complete())
    }

    ghost predicate IsMessage(m: NetMessage, msg: Msg)
      reads m
    {
      m.Complete() && m.hdr == msg.hdr && m.vRecv == msg.data == m.hashed
    }

    ghost function State(): Receiver
      reads this, vRecvMsg
    {
      if |vRecvMsg| <= |done| then Head(done, []) else Unfinished(done, vRecvMsg[|done|])
    }

    ghost function Unfinished(done: seq<Msg>, m: NetMessage): Receiver
      reads m
    {
      if !m.inData then Head(done, m.hdrbuf[..Min(m.nHdrPos, |m.hdrbuf|)])
      else Body(done, m.hdr, m.vRecv[..Min(m.nDataPos, |m.vRecv|)])
    }

    /** The message being received, or a new one. */
    method Current() returns (msg: NetMessage)
      requires Valid()
      modifies this
      ensures Valid() && State() == old(State()) && done == old(done)
      ensures |done| < |vRecvMsg| && msg == vRecvMsg[|done|]
      ensures vRecvMsg == old(vRecvMsg) || (vRecvMsg == old(vRecvMsg) + [msg] && fresh(msg))
    {
      if vRecvMsg == [] || vRecvMsg[|vRecvMsg| - 1].Complete() {
        msg := new NetMessage();
        vRecvMsg := vRecvMsg + [msg];
        assert msg.hdrbuf[..0] == [];
      } else {
        msg := vRecvMsg[|vRecvMsg| - 1];
      }
    }

    /** Takes bytes into the current message, as the byte-wise receiver does. */
    method Absorb(msg: NetMessage, pch: seq<Byte>) returns (handled: int)
      requires Valid() && |done| < |vRecvMsg| && msg == vRecvMsg[|done|] && pch != []
      modifies this`done, msg
      ensures vRecvMsg == old(vRecvMsg) && old(done) <= done
      ensures -1 <= handled <= |pch| && handled != 0
      ensures handled == -1 ==> done == old(done) && FeedAll(old(State()), pch) == Failed(done)
      ensures handled >= 0 ==> Valid() && State() == FeedAll(old(State()), pch[..handled])
      ensures handled >= 0 ==> (msg.Complete() <==> |done| > |old(done)|)
    {
      hide FeedAll, Parse;
      ghost var before := State();
      if !msg.inData {
        ghost var head := msg.hdrbuf[..msg.nHdrPos];
        handled := msg.ReadHeader(pch);
        ghost var n := Min(HEADER_SIZE - |head|, |pch|);
        FeedHead(done, head, pch[..n]);
        if handled < 0 || (msg.inData && msg.hdr.size > MAX_PROTOCOL_MESSAGE_LENGTH) {
          FeedConcat(before, pch[..n], pch[n..]);
          assert pch == pch[..n] + pch[n..];
          FailedStays(done, pch[n..]);
          return -1;
        }
      } else {
        FeedBody(done, msg.hdr, msg.vRecv[..msg.nDataPos], pch[..Min(msg.hdr.size - msg.nDataPos, |pch|)]);
        handled := msg.ReadData(pch);
      }
      if msg.Complete() {
        assert msg.vRecv == msg.vRecv[..msg.nDataPos];
        done := done + [Msg(msg.hdr, msg.vRecv)];
      }
    }

    /** One round of the receive loop. */
    method TakeSome(pch: seq<Byte>) returns (handled: int, complete: bool)
      requires Valid() && pch != []
      modifies this, vRecvMsg
      ensures old(vRecvMsg) <= vRecvMsg && (forall i :: |old(vRecvMsg)| <= i < |vRecvMsg| ==> fresh(vRecvMsg[i]))
      ensures old(done) <= done && complete == (|done| > |old(done)|)
      ensures -1 <= handled <= |pch| && handled != 0
      ensures handled == -1 ==> done == old(done) && FeedAll(old(State()), pch) == Failed(done)
      ensures handled >= 0 ==> Valid() && FeedAll(State(), pch[handled..]) == FeedAll(old(State()), pch)
    {
      var msg := Current();
      ghost var before := State();
      handled := Absorb(msg, pch);
      complete := handled >= 0 && msg.Complete();
      if handled >= 0 {
        FeedConcat(before, pch[..handled], pch[handled..]);
        assert pch == pch[..handled] + pch[handled..];
      }
    }

    /** Receives bytes; false when the peer must be disconnected. */
    method ReceiveMsgBytes(pch: seq<Byte>) returns (ok: bool, complete: bool)
      requires Valid()
      modifies this, vRecvMsg
      ensures var r := FeedAll(old(State()), pch);
        && ok == !r.Failed?
        && done == r.done
        && complete == (|done| > |old(done)|)
        && (ok ==> Valid() && State() == r)
    {
      complete := false;
      var rest := pch;
      ghost var end := FeedAll(State(), pch);
      while rest != []
        invariant Valid() && FeedAll(State(), rest) == end
        invariant old(done) <= done && complete == (|done| > |old(done)|)
        invariant old(vRecvMsg) <= vRecvMsg && forall i :: |old(vRecvMsg)| <= i < |vRecvMsg| ==> fresh(vRecvMsg[i])
        decreases |rest|
      {
        var handled, completed := TakeSome(rest);
        if handled < 0 { return false, complete; }
        rest := rest[handled..];
        complete := complete || completed;
      }
      return true, complete;
    }
  }

  // ---------- sending ----------

  /** A message to be sent: its header as it will be written, and its data. */
  function HeaderFor(start: seq<Byte>, command: seq<Byte>, checksum: seq<Byte>, size: nat): Header {
    Header(start, Padded(command), size, checksum)
  }

  /** A command cut to twelve bytes or filled up with zeros. */
  function Padded(command: seq<Byte>): (r: seq<Byte>)
    ensures |r| == 12
  {
    if |command| >= 12 then command[..12] else command + seq(12 - |command|, _ => 0)
  }

  function TotalSize(bufs: seq<seq<Byte>>): nat {
    if bufs == [] then 0 else |bufs[0]| + TotalSize(bufs[1..])
  }

  lemma {:induction false} ConcatAppend<T>(bufs: seq<seq<T>>, b: seq<T>)
    ensures Concat(bufs + [b]) == Concat(bufs) + b
  {
    if bufs == [] {
      assert bufs + [b] == [b] && [b][1..] == [];
    } else {
      assert (bufs + [b])[1..] == bufs[1..] + [b];
      ConcatAppend(bufs[1..], b);
    }
  }

  lemma {:induction false} TotalAppend(bufs: seq<seq<Byte>>, b: seq<Byte>)
    ensures TotalSize(bufs + [b]) == TotalSize(bufs) + |b|
  {
    if bufs == [] {
      assert bufs + [b] == [b] && [b][1..] == [];
    } else {
      assert (bufs + [b])[1..] == bufs[1..] + [b];
      TotalAppend(bufs[1..], b);
    }
  }

  lemma {:induction false} FramesAppend(ms: seq<Msg>, m: Msg)
    requires AllOk(ms) && MsgOk(m)
    ensures AllOk(ms + [m]) && Frames(ms + [m]) == Frames(ms) + Frame(m)
  {
    if ms == [] {
      assert ms + [m] == [m] && [m][1..] == [];
    } else {
      assert (ms + [m])[1..] == ms[1..] + [m];
      FramesAppend(ms[1..], m);
    }
  }

  /** The offset lies inside the first buffer. */
  predicate Pending(bufs: seq<seq<Byte>>, offset: nat) {
    if bufs == [] then offset == 0 else offset < |bufs[0]|
  }

  /** What was sent and what is queued make up the frames of the messages, and the size is that of the queue. */
  ghost predicate Accounted(sent: seq<Byte>, bufs: seq<seq<Byte>>, offset: nat, size: int, ms: seq<Msg>) {
    && AllOk(ms) && size == TotalSize(bufs)
    && (forall i :: 0 <= i < |bufs| ==> bufs[i] != [])
    && Pending(bufs, offset)
    && sent + Concat(bufs)[offset..] == Frames(ms)
  }

  lemma AccountedFirst(sent: seq<Byte>, bufs: seq<seq<Byte>>, offset: nat, size: int, ms: seq<Msg>)
    requires Accounted(sent, bufs, offset, size, ms)
    ensures if bufs == [] then offset == 0 && size == 0 else |bufs[0]| > offset
  {
  }

  /** The buffers that are queued for a message. */
  function Parts(m: Msg): seq<seq<Byte>>
    requires MsgOk(m)
  {
    if m.data == [] then [Serialize(m.hdr)] else [Serialize(m.hdr), m.data]
  }

  lemma PartsAppend(bufs: seq<seq<Byte>>, m: Msg)
    requires MsgOk(m)
    ensures Concat(bufs + Parts(m)) == Concat(bufs) + Frame(m)
    ensures TotalSize(bufs + Parts(m)) == TotalSize(bufs) + HEADER_SIZE + |m.data|
  {
    var h := Serialize(m.hdr);
    ConcatAppend(bufs, h);
    TotalAppend(bufs, h);
    if m.data == [] {
      assert Frame(m) == h;
    } else {
      ConcatAppend(bufs + [h], m.data);
      TotalAppend(bufs + [h], m.data);
      assert bufs + Parts(m) == bufs + [h] + [m.data];
    }
  }

  lemma PendingWithin(bufs: seq<seq<Byte>>, offset: nat)
    requires Pending(bufs, offset)
    ensures offset <= |Concat(bufs)|
  {
  }

  lemma Enqueued(sent: seq<Byte>, bufs: seq<seq<Byte>>, offset: nat, size: int, ms: seq<Msg>, m: Msg)
    requires Accounted(sent, bufs, offset, size, ms) && MsgOk(m)
    ensures Accounted(sent, bufs + Parts(m), offset, size + HEADER_SIZE + |m.data|, ms + [m])
  {
    hide Concat, Frame, Frames, TotalSize, MsgOk;
    PendingWithin(bufs, offset);
    FramesAppend(ms, m);
    PartsAppend(bufs, m);
    var queued := Concat(bufs);
    assert (queued + Frame(m))[offset..] == queued[offset..] + Frame(m);
    assert sent + (queued[offset..] + Frame(m)) == sent + queued[offset..] + Frame(m);
  }

  /** Handing n bytes of the first buffer to the socket. */
  lemma Dequeued(sent: seq<Byte>, bufs: seq<seq<Byte>>, offset: nat, size: int, ms: seq<Msg>, n: nat)
    requires Accounted(sent, bufs, offset, size, ms) && bufs != [] && 0 < n <= |bufs[0]| - offset
    ensures var sent' := sent + bufs[0][offset..offset + n];
      if offset + n == |bufs[0]| then Accounted(sent', bufs[1..], 0, size - |bufs[0]|, ms)
      else Accounted(sent', bufs, offset + n, size, ms)
  {
    var data, all := bufs[0], Concat(bufs);
    assert all[offset..] == data[offset..offset + n] + all[offset + n..];
    assert sent + (data[offset..offset + n] + all[offset + n..]) == sent + data[offset..offset + n] + all[offset + n..];
    assert all[|data|..] == Concat(bufs[1..]) == Concat(bufs[1..])[0..];
  }

  /**
   * Of a queue, `rest` is left, and `end` bytes of its first buffer are sent, because the call of send for that buffer,
   * the last one made, took less than it was offered.
   */
  ghost predicate CutShort(
    queue: seq<seq<Byte>>, offset: nat, send: (nat, nat) -> int, rest: seq<seq<Byte>>, end: nat)
  {
    && 0 < |rest| <= |queue| && rest == queue[|queue| - |rest|..]
    && var k := |queue| - |rest|;
    var from := if k == 0 then offset else 0;
    && from < |rest[0]| && send(k, |rest[0]| - from) < |rest[0]| - from
    && end == from + Max(0, send(k, |rest[0]| - from))
  }

  lemma FallsShort(queue: seq<seq<Byte>>, offset: nat, send: (nat, nat) -> int, k: nat, from: nat, end: nat)
    requires k < |queue| && from == (if k == 0 then offset else 0) && from < |queue[k]|
    requires send(k, |queue[k]| - from) < |queue[k]| - from && end == from + Max(0, send(k, |queue[k]| - from))
    ensures CutShort(queue, offset, send, queue[k..], end)
  {
  }

  class NodeSender {
    var vSendMsg: seq<seq<Byte>>
    var nSendOffset: nat
    var nSendSize: int
    var fPauseSend: bool
    const nSendBufferMaxSize: nat
    /** The messages pushed, and the bytes handed to the socket. */
    ghost var pushed: seq<Msg>
    ghost var sent: seq<Byte>

    constructor (maxSize: nat)
      ensures Valid() && pushed == [] && sent == []
    {
      vSendMsg, nSendOffset, nSendSize, fPauseSend := [], 0, 0, false;
      nSendBufferMaxSize := maxSize;
      pushed, sent := [], [];
    }

    ghost predicate Valid()
      reads this
    {
      && Accounted(sent, vSendMsg, nSendOffset, nSendSize, pushed)
      && fPauseSend == (nSendSize > nSendBufferMaxSize)
    }

    /**
     * Why sending ended, when `queue` and `offset` are what it began with: everything is sent; or the socket is closed
     * and nothing was; or the last call of send, for the buffer that is now first, took less than it was offered.
     */
    ghost predicate Stopped(queue: seq<seq<Byte>>, offset: nat, send: (nat, nat) -> int, fOpen: bool)
      reads this
    {
      || vSendMsg == []
      || (!fOpen && vSendMsg == queue && nSendOffset == offset)
      || (fOpen && CutShort(queue, offset, send, vSendMsg, nSendOffset))
    }

    /** Accounts for n bytes of the first buffer that the socket took; whether that was the last of the buffer. */
    method Handed(data: seq<Byte>, n: nat, ghost bufs: seq<seq<Byte>>) returns (done: bool)
      requires Accounted(sent, bufs, nSendOffset, nSendSize, pushed) && fPauseSend == (nSendSize > nSendBufferMaxSize)
      requires bufs != [] && data == bufs[0] && 0 < n <= |data| - nSendOffset
      modifies this`sent, this`nSendOffset, this`nSendSize, this`fPauseSend
      ensures sent == old(sent) + data[old(nSendOffset)..old(nSendOffset) + n]
      ensures done <==> old(nSendOffset) + n == |data|
      ensures nSendOffset == (if done then 0 else old(nSendOffset) + n)
      ensures Accounted(sent, if done then bufs[1..] else bufs, nSendOffset, nSendSize, pushed)
      ensures fPauseSend == (nSendSize > nSendBufferMaxSize)
    {
      hide Accounted;
      Dequeued(sent, bufs, nSendOffset, nSendSize, pushed, n);
      sent := sent + data[nSendOffset..nSendOffset + n];
      nSendOffset := nSendOffset + n;
      done := nSendOffset == |data|;
      if done {
        nSendOffset := 0;
        nSendSize := nSendSize - |data|;
        fPauseSend := nSendSize > nSendBufferMaxSize;
      }
    }

    /**
     * Sends from the queue until it is empty or the socket takes less than offered. The call of send for buffer k
     * returns `send(k, n)` when n bytes are offered; it is negative for an error.
     */
    method SocketSendData(send: (nat, nat) -> int, fOpen: bool) returns (nSentSize: nat)
      requires Valid() && forall k, n :: send(k, n) <= n
      modifies this
      ensures Valid() && pushed == old(pushed) && old(sent) <= sent && nSentSize == |sent| - |old(sent)|
      ensures Stopped(old(vSendMsg), old(nSendOffset), send, fOpen)
    {
      hide Accounted, CutShort;
      ghost var queue, bufs, offset, short := vSendMsg, vSendMsg, nSendOffset, false;
      var it := 0;
      nSentSize := 0;
      while it < |vSendMsg|
        invariant it <= |vSendMsg| && pushed == old(pushed) && vSendMsg == queue && !short
        invariant fPauseSend == (nSendSize > nSendBufferMaxSize)
        invariant (it > 0 ==> fOpen) && nSendOffset == if it == 0 then offset else 0
        invariant bufs == vSendMsg[it..] && Accounted(sent, bufs, nSendOffset, nSendSize, pushed)
        invariant old(sent) <= sent && nSentSize == |sent| - |old(sent)|
        decreases |vSendMsg| - it
      {
        var data := vSendMsg[it];
        assert bufs[0] == data && bufs[1..] == vSendMsg[it + 1..];
        AccountedFirst(sent, bufs, nSendOffset, nSendSize, pushed);
        if !fOpen { break; }
        var nBytes := send(it, |data| - nSendOffset);
        if nBytes < |data| - nSendOffset {
          FallsShort(queue, offset, send, it, nSendOffset, nSendOffset + Max(0, nBytes));
          short := true;
        }
        if nBytes > 0 {
          var done := Handed(data, nBytes, bufs);
          nSentSize := nSentSize + nBytes;
          if done {
            bufs := bufs[1..];
            it := it + 1;
          } else {
            break;
          }
        } else {
          break;
        }
      }
      AccountedFirst(sent, bufs, nSendOffset, nSendSize, pushed);
      if it == |vSendMsg| {
        assert nSendOffset == 0;
        assert nSendSize == 0;
      }
      vSendMsg := vSendMsg[it..];
    }

    /** Queues a message and sends at once if nothing was queued. */
    method PushMessage(start: seq<Byte>, command: seq<Byte>, checksum: seq<Byte>, data: seq<Byte>,
                       send: (nat, nat) -> int, fOpen: bool)
      requires Valid() && |start| == 4 && |checksum| == 4 && |data| < 0x1_0000_0000
      requires forall k, n :: send(k, n) <= n
      modifies this
      ensures Valid() && old(sent) <= sent
      ensures var msg := Msg(HeaderFor(start, command, checksum, |data|), data);
        && pushed == old(pushed) + [msg]
        && if old(vSendMsg) == [] then Stopped(Parts(msg), 0, send, fOpen)
           else sent == old(sent) && vSendMsg == old(vSendMsg) + Parts(msg) && nSendOffset == old(nSendOffset)
    {
      hide Accounted, CutShort;
      AccountedFirst(sent, vSendMsg, nSendOffset, nSendSize, pushed);
      var hdr := HeaderFor(start, command, checksum, |data|);
      var optimisticSend := vSendMsg == [];
      Enqueued(sent, vSendMsg, nSendOffset, nSendSize, pushed, Msg(hdr, data));
      nSendSize := nSendSize + |data| + HEADER_SIZE;
      if nSendSize > nSendBufferMaxSize { fPauseSend := true; }
      ghost var queue := vSendMsg;
      vSendMsg := vSendMsg + [Serialize(hdr)];
      if |data| > 0 { vSendMsg := vSendMsg + [data]; }
      assert vSendMsg == queue + Parts(Msg(hdr, data));
      pushed := pushed + [Msg(hdr, data)];
      assert queue == [] ==> vSendMsg == Parts(Msg(hdr, data));
      if optimisticSend { var nBytesSent := SocketSendData(send, fOpen); }
    }

    /** The bytes on the wire are always the beginning of the frames of the pushed messages. */
    lemma SentIsPrefix()
      requires Valid()
      ensures sent <= Frames(pushed) && (vSendMsg == [] ==> sent == Frames(pushed))
    {
    }

    /**
     * From sender to receiver: however the socket takes the bytes and however what has arrived of them is cut up, the
     * receiver has completed the first of the pushed messages, whole and in order, and all of them once the queue is
     * empty and everything has arrived.
     */
    lemma Delivered(pieces: seq<seq<Byte>>) returns (k: nat)
      requires Valid() && AllInLimit(pushed) && Concat(pieces) <= sent
      ensures k <= |pushed|
      ensures var r := FeedEach(Head([], []), pieces); !r.Failed? && r.done == pushed[..k]
      ensures vSendMsg == [] && Concat(pieces) == sent ==> k == |pushed|
    {
      SentIsPrefix();
      k := StreamDelivered(pushed, pieces);
    }
  }
}
