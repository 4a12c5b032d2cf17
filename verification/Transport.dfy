/** One slot of the connection handler: ClientsHandler::Client, which sends and receives
    framed messages over a socket that takes and gives any number of bytes at a time. */
module Transport {
  import opened Wire
  import opened Framing

  function Min(a: int, b: int): int {
    if a < b then a else b
  }

  function Max(a: int, b: int): int {
    if a > b then a else b
  }

  /** recvData returned a count (0 or less: the peer is gone) or threw a DATA_LEN exception. */
  datatype Receipt = Received(count: int) | DataLength(length: int32)

  /** The bytes of the unfinished frame that the receiver holds, from its two counters. */
  function Unfinished(remainingIn: int, remainingInLen: int, inBuffer: seq<byte>): seq<byte> {
    if remainingInLen > 0 then inBuffer
    else if remainingIn > 0 then ToBytes32(Int32(remainingIn + |inBuffer|)) + inBuffer
    else []
  }

  predicate Counters(remainingIn: int, remainingInLen: int, inBuffer: seq<byte>) {
    || (remainingIn == 0 && remainingInLen == 0)
    || (remainingIn == 0 && 0 < remainingInLen <= 4 && |inBuffer| == 4 - remainingInLen)
    || (0 < remainingIn && remainingInLen == 0 && LegalLength(remainingIn + |inBuffer|))
  }

  /** How far the header, or the whole frame, that these bytes begin goes. */
  function FrameBound(pending: seq<byte>): int {
    if |pending| < 4 then 4 else 4 + Parse32(pending, 0)
  }

  /** A read within a header, and one that completes it. */
  lemma HeaderGrows(header: seq<byte>)
    requires |header| <= 4
    ensures |header| < 4 ==> Decode(header) == Decoded([], header, None)
    ensures |header| == 4 ==> var n := Parse32(header, 0);
      Decode(header) == Decoded([], header, if LegalLength(n) then None else Some(n))
    ensures |header| == 4 ==> var n := Parse32(header, 0);
      LegalLength(n) ==> Unfinished(n, 0, []) == header
  {
    if |header| == 4 {
      LittleSurjective(header, 0);
      assert ToBytes32(Parse32(header, 0)) + [] == header;
    }
  }

  /** A read of a part of a body, `n` being the length of the whole. */
  lemma BodyGrows(n: int32, buffer: seq<byte>, data: seq<byte>)
    requires LegalLength(n) && |buffer| + |data| < n
    ensures Unfinished(n - |buffer|, 0, buffer) + data == Unfinished(n - |buffer| - |data|, 0, buffer + data)
    ensures var pending := Unfinished(n - |buffer| - |data|, 0, buffer + data);
      Decode(pending) == Decoded([], pending, None)
  {
    hide Int32, ToBytes32, Parse32, Decode;
    Associative(ToBytes32(n), buffer, data);
    PartOfFrame(n, buffer + data);
  }

  lemma PartOfFrame(n: int32, body: seq<byte>)
    requires LegalLength(n) && |body| < n
    ensures Decode(ToBytes32(n) + body) == Decoded([], ToBytes32(n) + body, None)
  {
    hide Int32, ToBytes32, Parse32;
    var s := ToBytes32(n) + body;
    assert s[0..4] == ToBytes32(n);
    LittleRoundTrip(n, s, 0);
  }

  /** A read that completes a body. */
  lemma BodyEnds(n: int32, buffer: seq<byte>, data: seq<byte>)
    requires LegalLength(n) && |buffer| < n && |buffer| + |data| == n
    ensures Decode(Unfinished(n - |buffer|, 0, buffer) + data) == Decoded([buffer + data], [], None)
  {
    hide Int32, ToBytes32, Parse32, Decode;
    var msg := buffer + data;
    Associative(ToBytes32(n), buffer, data);
    assert Frame(msg) == Unfinished(n - |buffer|, 0, buffer) + data;
    assert Frame(msg) + [] == Frame(msg);
    DecodeOfWholeFrame(Frame(msg), msg, []);
    NothingYet();
    assert [msg] + [] == [msg];
  }

  lemma NothingYet()
    ensures Frames([]) == [] && Decode([]) == Decoded([], [], None)
  {
  }

  /** What happened on a slot's present connection. */
  datatype History = History(
    accepted: seq<seq<byte>>,   // messages taken for sending, in order
    wire: seq<byte>,            // bytes handed to the socket
    bytes: seq<byte>,           // bytes taken from the socket
    delivered: seq<seq<byte>>,  // messages handed to the listener
    broken: Option<int32>)      // the illegal length that ended reception

  const NO_HISTORY := History([], [], [], [], None)

  /** What was sent and what still waits is the framed accepted messages. */
  ghost predicate Sends(h: History, outBuffer: seq<byte>) {
    h.wire + outBuffer == Frames(h.accepted)
  }

  lemma WireOfSends(h: History, outBuffer: seq<byte>)
    requires Sends(h, outBuffer)
    ensures h.wire <= Frames(h.accepted)
    ensures outBuffer == [] ==> h.wire == Frames(h.accepted)
  {
    hide Frames;
    assert h.wire + outBuffer == Frames(h.accepted);
  }

  /** The two counters are those of an unfinished frame, and what was delivered and what is
      unfinished is what the received bytes decode to. */
  ghost predicate Receives(h: History, remainingIn: int, remainingInLen: int, inBuffer: seq<byte>) {
    match h.broken
    case None =>
      && Counters(remainingIn, remainingInLen, inBuffer)
      && Decode(h.bytes) == Decoded(h.delivered, Unfinished(remainingIn, remainingInLen, inBuffer), None)
    case Some(_) =>
      Decode(h.bytes).msgs == h.delivered && Decode(h.bytes).illegal == h.broken
  }

  lemma ReceivedDecodes(h: History, remainingIn: int, remainingInLen: int, inBuffer: seq<byte>)
    requires Receives(h, remainingIn, remainingInLen, inBuffer)
    ensures Decode(h.bytes).msgs == h.delivered && Decode(h.bytes).illegal == h.broken
    ensures Legal(h.delivered)
  {
    hide Decode;
  }

  /** Between frames, and at the start of a header, nothing is unfinished. */
  lemma HeaderStarts(h: History, inBuffer: seq<byte>)
    requires Receives(h, 0, 0, inBuffer)
    ensures Receives(h, 0, 4, [])
  {
    hide Decode;
  }

  lemma CountersReceived(h: History, remainingIn: int, remainingInLen: int, inBuffer: seq<byte>)
    requires Receives(h, remainingIn, remainingInLen, inBuffer) && h.broken == None
    ensures Counters(remainingIn, remainingInLen, inBuffer)
    ensures Decode(h.bytes).rest == Unfinished(remainingIn, remainingInLen, inBuffer)
  {
    hide Decode;
  }

  /** What one more read adds to the history: the decoded messages and, maybe, an illegal length. */
  ghost function Advance(h: History, data: seq<byte>, more: Decoded): History {
    h.(bytes := h.bytes + data, delivered := h.delivered + more.msgs, broken := more.illegal)
  }

  lemma AdvanceDecodes(h: History, data: seq<byte>, pending: seq<byte>)
    requires Decode(h.bytes) == Decoded(h.delivered, pending, None)
    ensures var more := Decode(pending + data); var h' := Advance(h, data, more);
      Decode(h'.bytes) == Decoded(h'.delivered, more.rest, h'.broken)
  {
    DecodeOfAppend(h.bytes, data);
  }

  /** A read within a header: it goes on, or it is complete and legal, or it is illegal. */
  lemma HeaderRead(h: History, header: seq<byte>, data: seq<byte>)
    requires Receives(h, 0, 4 - |header|, header) && h.broken == None
    requires |header| < 4 && |header| + |data| <= 4
    ensures |header| + |data| < 4 ==>
      Receives(Advance(h, data, Decoded([], [], None)), 0, 4 - |header| - |data|, header + data)
    ensures |header| + |data| == 4 ==> var n := Parse32(header + data, 0);
      if LegalLength(n) then Receives(Advance(h, data, Decoded([], [], None)), n, 0, [])
      else forall r, l, b :: Receives(Advance(h, data, Decoded([], [], Some(n))), r, l, b)
  {
    hide Decode, Int32, ToBytes32, Parse32;
    HeaderGrows(header + data);
    AdvanceDecodes(h, data, header);
  }

  /** A read within a body: it goes on, or it completes the message. */
  lemma BodyRead(h: History, n: int32, buffer: seq<byte>, data: seq<byte>)
    requires LegalLength(n) && |buffer| < n && |buffer| + |data| <= n && data != []
    requires Receives(h, n - |buffer|, 0, buffer) && h.broken == None
    ensures if |buffer| + |data| < n
      then Receives(Advance(h, data, Decoded([], [], None)), n - |buffer| - |data|, 0, buffer + data)
      else Receives(Advance(h, data, Decoded([buffer + data], [], None)), 0, 0, buffer + data)
  {
    hide Decode, Int32, ToBytes32, Parse32;
    AdvanceDecodes(h, data, Unfinished(n - |buffer|, 0, buffer));
    if |buffer| + |data| < n {
      BodyGrows(n, buffer, data);
    } else {
      BodyEnds(n, buffer, data);
    }
  }

  /** How much a read takes: what is there, up to the limit and the end of the header or body. */
  ghost function Taken(h: History, available: seq<byte>, limit: nat): (taken: nat)
    ensures taken <= |available|
  {
    var pending := Decode(h.bytes).rest;
    Max(0, Min(Min(|available|, limit), FrameBound(pending) - |pending|))
  }

  /** The receiver asks for no more than the header, or the body, that it is in. */
  lemma TakenIs(h: History, remainingIn: int, remainingInLen: int, inBuffer: seq<byte>,
                available: seq<byte>, limit: nat)
    requires Receives(h, remainingIn, remainingInLen, inBuffer) && h.broken == None
    requires remainingIn != 0 || remainingInLen != 0
    ensures Taken(h, available, limit) == Min(Min(|available|, limit), Max(remainingIn, remainingInLen))
  {
    hide Decode, Unfinished, FrameBound;
    CountersReceived(h, remainingIn, remainingInLen, inBuffer);
    PendingRoom(remainingIn, remainingInLen, inBuffer);
  }

  lemma ReadingLeavesSends(h: History, h': History, outBuffer: seq<byte>)
    requires Sends(h, outBuffer) && h'.accepted == h.accepted && h'.wire == h.wire
    ensures Sends(h', outBuffer)
  {
  }

  lemma PutFront(h: History, outBuffer: seq<byte>, msg: seq<byte>)
    requires Sends(h, outBuffer) && h.wire == []
    ensures Sends(h.(accepted := [msg] + h.accepted), Frame(msg) + outBuffer)
  {
    hide Frame;
    assert h.wire + outBuffer == outBuffer;
    assert h.wire + (Frame(msg) + outBuffer) == Frame(msg) + outBuffer;
    FramesOfCons(msg, h.accepted);
  }

  lemma PutBack(h: History, outBuffer: seq<byte>, msg: seq<byte>)
    requires Sends(h, outBuffer)
    ensures Sends(h.(accepted := h.accepted + [msg]), outBuffer + Frame(msg))
  {
    hide Frame, Frames;
    Associative(h.wire, outBuffer, Frame(msg));
    FramesOfAppend(h.accepted, [msg]);
    FramesOfOne(msg);
  }

  lemma PutOnWire(h: History, outBuffer: seq<byte>, sent: nat)
    requires Sends(h, outBuffer) && sent <= |outBuffer|
    ensures Sends(h.(wire := h.wire + outBuffer[..sent]), outBuffer[sent..])
  {
    hide Frames;
    Associative(h.wire, outBuffer[..sent], outBuffer[sent..]);
    assert outBuffer[..sent] + outBuffer[sent..] == outBuffer;
  }

  /** The receiver asks for no more than the header, or the body, that it is in. */
  lemma PendingRoom(remainingIn: int, remainingInLen: int, inBuffer: seq<byte>)
    requires Counters(remainingIn, remainingInLen, inBuffer) && (remainingIn != 0 || remainingInLen != 0)
    ensures var pending := Unfinished(remainingIn, remainingInLen, inBuffer);
      |pending| + Max(remainingIn, remainingInLen) == FrameBound(pending)
  {
    hide ToBytes32, Parse32, Int32;
    if remainingIn > 0 {
      var n := remainingIn + |inBuffer|;
      assert (ToBytes32(n) + inBuffer)[0..4] == ToBytes32(n);
      LittleRoundTrip(n, ToBytes32(n) + inBuffer, 0);
    }
  }

  class Client {
    const isServer: bool
    var socket: int
    var clientId: int
    var ip: seq<byte>
    var port: int32
    var outBuffer: seq<byte>
    var inBuffer: seq<byte>
    var remainingIn: int
    var remainingInLen: int
    ghost var history: History

    ghost predicate Connected()
      reads this`socket
    {
      socket >= 0
    }

    ghost predicate Valid()
      reads this
    {
      && Sends(history, outBuffer)
      && Receives(history, remainingIn, remainingInLen, inBuffer)
      && (!Connected() ==> history == NO_HISTORY.(accepted := history.accepted))
      && (!Connected() ==> remainingIn == 0 && remainingInLen == 0)
      && (!Connected() && isServer ==> history.accepted == [] && outBuffer == [])
    }

    constructor (server: bool)
      ensures Valid() && !Connected() && history == NO_HISTORY && isServer == server
    {
      NothingYet();
      isServer := server;
      socket, clientId, ip, port := -1, 0, [], 0;
      remainingIn, remainingInLen, inBuffer, outBuffer := 0, 0, [], [];
      history := NO_HISTORY;
    }

    /** Client::reset, also reached through disconnected(): whatever was queued, half sent or
        half received is gone, so the next connection starts with clean buffers. */
    method Reset()
      modifies this
      ensures Valid() && !Connected() && history == NO_HISTORY && outBuffer == []
      ensures clientId == old(clientId)
    {
      hide Frames, Decode, Int32, ToBytes32;
      NothingYet();
      socket, ip, port := -1, [], 0;
      remainingIn, remainingInLen := 0, 0;
      inBuffer, outBuffer := [], [];
      history := NO_HISTORY;
    }

    /** Client::connected: the listener's initial message goes before everything queued while
        there was no connection. */
    method Connect(socket: int, clientId: int, ip: seq<byte>, port: int32, initMsg: seq<byte>)
      requires Valid() && !Connected() && socket >= 0
      modifies this
      ensures Valid() && Connected() && this.socket == socket && this.clientId == clientId
      ensures this.ip == ip && this.port == port
      ensures history == NO_HISTORY.(accepted := (if initMsg == [] then [] else [initMsg]) + old(history.accepted))
      ensures outBuffer == (if initMsg == [] then [] else Frame(initMsg)) + old(outBuffer)
    {
      hide Frame, Frames, Decode, Int32, ToBytes32;
      this.socket, this.clientId := socket, clientId;
      this.ip, this.port := ip, port;
      if |initMsg| > 0 {
        PutFront(history, outBuffer, initMsg);
        outBuffer := Frame(initMsg) + outBuffer;
        history := history.(accepted := [initMsg] + history.accepted);
      } else {
        assert [] + history.accepted == history.accepted && [] + outBuffer == outBuffer;
      }
    }

    /** Client::sendData, on a socket that takes at most `room` bytes, or fails if that is
        negative; `put` is what the socket took. */
    method SendData(room: int) returns (sent: int, put: seq<byte>)
      requires Valid() && Connected()
      modifies this`outBuffer, this`history
      ensures Valid() && sent == if room < 0 then -1 else Min(room, |old(outBuffer)|)
      ensures put == if sent > 0 then old(outBuffer)[..sent] else []
      ensures old(outBuffer) == put + outBuffer
      ensures history == old(history).(wire := old(history.wire) + put)
    {
      hide Frames, Decode, Int32, ToBytes32;
      sent := if room < 0 then -1 else Min(room, |outBuffer|);
      if sent > 0 {
        PutOnWire(history, outBuffer, sent);
        put, outBuffer := outBuffer[..sent], outBuffer[sent..];
      } else {
        put := [];
        assert history.wire + [] == history.wire && [] + outBuffer == outBuffer;
      }
      history := history.(wire := history.wire + put);
    }

    /** Client::addOutMsg: refuses an empty message, and on the server a message for a slot
        without a connection; it never refuses a long one. */
    method AddOutMsg(msg: seq<byte>, room: int) returns (result: int, put: seq<byte>)
      requires Valid()
      modifies this`outBuffer, this`history
      ensures Valid()
      ensures result == if msg != [] && (Connected() || !isServer) then 0 else -1
      ensures result == 0 ==>
        history == old(history).(accepted := old(history.accepted) + [msg], wire := old(history.wire) + put)
      ensures result == 0 ==> var all := old(outBuffer) + Frame(msg);
        put == if Connected() && room > 0 then all[..Min(room, |all|)] else []
      ensures result == 0 ==> put + outBuffer == old(outBuffer) + Frame(msg)
      ensures result != 0 ==> put == [] && history == old(history) && outBuffer == old(outBuffer)
    {
      hide Frame, Frames, Decode, Int32, ToBytes32;
      if |msg| == 0 || (socket < 0 && isServer) {
        return -1, [];
      }
      PutBack(history, outBuffer, msg);
      outBuffer := outBuffer + Frame(msg);
      history := history.(accepted := history.accepted + [msg]);
      result, put := 0, [];
      if (socket >= 0 && !isServer) || isServer {
        var sent;
        sent, put := SendData(room);
      } else {
        assert history.wire + [] == history.wire && [] + outBuffer == outBuffer;
      }
    }

    /** Client::recvData, when the socket holds `available` and yields at most `limit` of it.
        `taken` bytes
        leave the socket; `got` is the message handed to the listener, if one is complete. */
    method RecvData(available: seq<byte>, limit: nat) returns (r: Receipt, got: Option<seq<byte>>, taken: nat)
      requires Valid() && Connected() && history.broken == None
      modifies this`inBuffer, this`remainingIn, this`remainingInLen, this`history
      ensures Valid()
      ensures taken == Taken(old(history), available, limit)
      ensures 0 <= taken <= |available| && history.bytes == old(history.bytes) + available[..taken]
      ensures taken == 0 <==> available == [] || limit == 0
      ensures r.Received? ==> r.count == taken && history.broken == None
      ensures r.DataLength? ==> history.broken == Some(r.length) && got == None && taken > 0
      ensures history.delivered == old(history.delivered) + if got == None then [] else [got.value]
      ensures history.accepted == old(history.accepted) && history.wire == old(history.wire)
    {
      hide Sends, Receives, Int32, Parse32, ToBytes32, Decode, Unfinished, Taken;
      CountersReceived(history, remainingIn, remainingInLen, inBuffer);
      if remainingIn == 0 && remainingInLen == 0 {
        HeaderStarts(history, inBuffer);
        inBuffer := [];
        remainingInLen := 4;
      }
      var toReceive := Max(remainingIn, remainingInLen);
      TakenIs(history, remainingIn, remainingInLen, inBuffer, available, limit);
      var received := Min(Min(|available|, limit), toReceive);
      taken := received;
      got := None;
      if received <= 0 {
        assert history.bytes + available[..0] == history.bytes;
        assert history.delivered + [] == history.delivered;
        r := Received(received);
        return;
      }
      var data := available[..received];
      ghost var h, buffer := history, inBuffer;
      inBuffer := inBuffer + data;
      history := Advance(h, data, Decoded([], [], None));
      ReadingLeavesSends(h, history, outBuffer);
      if remainingInLen > 0 {
        HeaderRead(h, buffer, data);
        remainingInLen := remainingInLen - received;
        if remainingInLen == 0 {
          remainingIn := Parse32(inBuffer, 0);
          inBuffer := [];
          if remainingIn > MAX_MSG || remainingIn <= 0 {
            history := Advance(h, data, Decoded([], [], Some(remainingIn)));
            ReadingLeavesSends(h, history, outBuffer);
            r := DataLength(remainingIn);
            return;
          }
        }
      } else {
        BodyRead(h, remainingIn + |buffer|, buffer, data);
        remainingIn := remainingIn - received;
        if remainingIn == 0 {
          history := Advance(h, data, Decoded([inBuffer], [], None));
          ReadingLeavesSends(h, history, outBuffer);
          got := Some(inBuffer);
        }
      }
      r := Received(received);
    }
  }
}
