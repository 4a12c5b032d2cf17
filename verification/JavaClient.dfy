/** The connection layer of the two Java clients (the monitoring client's copy is the same
    code): what arrives is buffered and cut into frames, what leaves is framed, and messages
    sent while there is no connection wait in a queue. */
module JavaClient {
  import opened Wire
  import opened Framing

  /** ConnectionUtil.addPrefixMessageSize */
  function AddPrefixMessageSize(message: seq<byte>): (framed: seq<byte>)
    ensures framed == Frame(message)
  {
    IntToByteListLittleEndian(Int32(|message|)) + message
  }

  /** What one pass over the buffer does: the messages handed on, what stays in the buffer,
      and whether the pass ended with an exception. */
  datatype Pass = Pass(handed: seq<seq<byte>>, left: seq<byte>, threw: bool)

  /** subList(4, 4 + size) exists. */
  predicate Cuttable(buffer: seq<byte>) {
    |buffer| >= 4 && 0 <= ByteListToIntLittleEndian(buffer[..4]) <= |buffer| - 4
  }

  /** `answers(m)` says whether analyzeResponse(m) returns normally. */
  function Analysis(buffer: seq<byte>, answers: seq<byte> -> bool): Pass {
    if buffer == [] then
      Pass([], [], false)
    else if !Cuttable(buffer) then
      Pass([], buffer, true)
    else
      var n := ByteListToIntLittleEndian(buffer[..4]);
      var message, rest := buffer[4..4 + n], buffer[4 + n..];
      if answers(message) then
        var p := Analysis(rest, answers);
        Pass([message] + p.handed, p.left, p.threw)
      else
        Pass([message], rest, true)
  }

  predicate AllAnswered(msgs: seq<seq<byte>>, answers: seq<byte> -> bool) {
    forall m <- msgs :: answers(m)
  }

  /** Messages short enough for a Java int to count them. */
  predicate Countable(msgs: seq<seq<byte>>) {
    forall m <- msgs :: |m| < 0x8000_0000
  }

  lemma CutOfFrame(m: seq<byte>, tail: seq<byte>)
    requires |m| < 0x8000_0000
    ensures var b := Frame(m) + tail;
      b != [] && Cuttable(b) && ByteListToIntLittleEndian(b[..4]) == |m| && b[4..4 + |m|] == m && b[4 + |m|..] == tail
  {
    hide Int32, ToBytes32, Parse32, ByteListToIntLittleEndian;
    var b := Frame(m) + tail;
    assert b[..4] == ToBytes32(|m|) && b[..4][0..4] == b[..4];
    LittleAgree(b[..4]);
    LittleRoundTrip(|m|, b[..4], 0);
  }

  lemma FrameOfCut(buffer: seq<byte>)
    requires Cuttable(buffer)
    ensures var n := ByteListToIntLittleEndian(buffer[..4]);
      Parse32(buffer, 0) == n && buffer == Frame(buffer[4..4 + n]) + buffer[4 + n..]
  {
    LittleAgree(buffer[..4]);
    FrameAtFront(buffer);
  }

  /** Whole frames, accumulated in whatever pieces, are handed on one by one and leave nothing. */
  lemma {:induction false} AnalysisOfFrames(msgs: seq<seq<byte>>, answers: seq<byte> -> bool)
    requires Countable(msgs) && AllAnswered(msgs, answers)
    ensures Analysis(Frames(msgs), answers) == Pass(msgs, [], false)
  {
    if msgs != [] {
      var m, ms := msgs[0], msgs[1..];
      hide Frame, Cuttable;
      AnalysisOfFrames(ms, answers);
      CutOfFrame(m, Frames(ms));
      assert [m] + ms == msgs;
    }
  }

  /** A cut before the end of the first frame. */
  lemma CutWithinFrame(m: seq<byte>, tail: seq<byte>, arrived: seq<byte>)
    requires |m| < 0x8000_0000 && arrived <= Frame(m) + tail && 0 < |arrived| < 4 + |m|
    ensures !Cuttable(arrived)
  {
    hide Int32, ToBytes32, Parse32, ByteListToIntLittleEndian;
    if |arrived| >= 4 {
      assert arrived[..4] == ToBytes32(|m|) && arrived[..4][0..4] == arrived[..4];
      LittleAgree(arrived[..4]);
      LittleRoundTrip(|m|, arrived[..4], 0);
    }
  }

  /** These bytes are the first few frames. */
  ghost predicate EndsWithFrame(msgs: seq<seq<byte>>, arrived: seq<byte>) {
    exists n: nat :: n <= |msgs| && arrived == Frames(msgs[..n])
  }

  lemma EndsAfterFirst(msgs: seq<seq<byte>>, rest: seq<byte>)
    requires msgs != []
    ensures EndsWithFrame(msgs, Frame(msgs[0]) + rest) <==> EndsWithFrame(msgs[1..], rest)
  {
    hide Frame, Frames;
    var m, ms := msgs[0], msgs[1..];
    if n: nat :| n <= |ms| && rest == Frames(ms[..n]) {
      FirstFrame(msgs, n + 1);
      assert ms[..n] == msgs[1..n + 1];
    }
    if n: nat :| n <= |msgs| && Frame(m) + rest == Frames(msgs[..n]) {
      FirstFrame(msgs, n);
      assert ms[..n - 1] == msgs[1..n];
      assert rest == (Frame(m) + rest)[|Frame(m)|..];
      assert Frames(msgs[1..n]) == (Frame(m) + Frames(msgs[1..n]))[|Frame(m)|..];
    }
  }

  lemma EndsWithin(msgs: seq<seq<byte>>, arrived: seq<byte>)
    requires msgs != [] && 0 < |arrived| < 4 + |msgs[0]|
    ensures !EndsWithFrame(msgs, arrived)
  {
    hide Frame, Frames;
    forall n: nat | n <= |msgs|
      ensures arrived != Frames(msgs[..n])
    {
      FirstFrame(msgs, n);
    }
  }

  lemma AnalysisOfFirst(m: seq<byte>, rest: seq<byte>, answers: seq<byte> -> bool)
    requires |m| < 0x8000_0000 && answers(m)
    ensures var p := Analysis(rest, answers);
      Analysis(Frame(m) + rest, answers) == Pass([m] + p.handed, p.left, p.threw)
  {
    hide Frame, Cuttable;
    CutOfFrame(m, rest);
  }

  /** While a stream of frames arrives: what has been handed on are the first messages, and the pass
      ends normally exactly when what has arrived ends with a frame. */
  lemma {:induction false} AnalysisOfPrefix(msgs: seq<seq<byte>>, arrived: seq<byte>, answers: seq<byte> -> bool)
    requires Countable(msgs) && AllAnswered(msgs, answers) && arrived <= Frames(msgs)
    ensures Analysis(arrived, answers).handed <= msgs
    ensures !Analysis(arrived, answers).threw <==> EndsWithFrame(msgs, arrived)
    decreases |msgs|
  {
    hide Frame, Cuttable, ByteListToIntLittleEndian;
    if arrived == [] {
      assert msgs[..0] == [];
    } else {
      var m, ms := msgs[0], msgs[1..];
      assert m in msgs && forall x :: x in ms ==> x in msgs;
      HeaderOfFrame(m, []);
      if |arrived| < 4 + |m| {
        CutWithinFrame(m, Frames(ms), arrived);
        EndsWithin(msgs, arrived);
      } else {
        hide Analysis, EndsWithFrame;
        var rest := arrived[4 + |m|..];
        assert arrived == Frame(m) + rest && rest <= Frames(ms);
        AnalysisOfFirst(m, rest, answers);
        AnalysisOfPrefix(ms, rest, answers);
        EndsAfterFirst(msgs, rest);
        assert [m] + ms == msgs;
      }
    }
  }

  lemma FirstFrame(msgs: seq<seq<byte>>, n: nat)
    requires 0 < |msgs| && n <= |msgs|
    ensures Frames(msgs[..n]) == if n == 0 then [] else Frame(msgs[0]) + Frames(msgs[1..n])
    ensures |Frame(msgs[0])| == 4 + |msgs[0]|
  {
    HeaderOfFrame(msgs[0], []);
    if n > 0 {
      assert msgs[..n][1..] == msgs[1..n];
    }
  }

  /** Behind whole frames that were answered: a message that is not answered ends the pass, and what follows
      it stays in the buffer. */
  lemma AnalysisUpToUnanswered(
    msgs: seq<seq<byte>>, m: seq<byte>, rest: seq<byte>, answers: seq<byte> -> bool)
    requires Countable(msgs + [m]) && AllAnswered(msgs, answers) && !answers(m)
    ensures Analysis(Frames(msgs) + (Frame(m) + rest), answers) == Pass(msgs + [m], rest, true)
  {
    hide Frame, Frames, Cuttable;
    assert m in msgs + [m];
    CutOfFrame(m, rest);
    AnalysisBehind(msgs, Frame(m) + rest, answers);
  }

  /** ... and bytes that no message can be cut from stay there, too. */
  lemma AnalysisUpToPart(msgs: seq<seq<byte>>, part: seq<byte>, answers: seq<byte> -> bool)
    requires Countable(msgs) && AllAnswered(msgs, answers) && part != [] && !Cuttable(part)
    ensures Analysis(Frames(msgs) + part, answers) == Pass(msgs, part, true)
  {
    hide Frame, Frames, Cuttable;
    AnalysisBehind(msgs, part, answers);
    assert msgs + [] == msgs;
  }

  lemma {:induction false} AnalysisBehind(msgs: seq<seq<byte>>, tail: seq<byte>, answers: seq<byte> -> bool)
    requires (forall m <- msgs :: |m| < 0x8000_0000) && AllAnswered(msgs, answers)
    ensures var p := Analysis(tail, answers);
      Analysis(Frames(msgs) + tail, answers) == Pass(msgs + p.handed, p.left, p.threw)
  {
    if msgs == [] {
      assert Frames(msgs) + tail == tail && msgs + Analysis(tail, answers).handed == Analysis(tail, answers).handed;
    } else {
      hide Frame, Cuttable, Analysis;
      var m, ms := msgs[0], msgs[1..];
      assert forall x <- ms :: x in msgs;
      AnalysisBehind(ms, tail, answers);
      Associative(Frame(m), Frames(ms), tail);
      AnalysisOfFirst(m, Frames(ms) + tail, answers);
      assert [m] + ms == msgs;
      Associative([m], ms, Analysis(tail, answers).handed);
    }
  }

  /** Three bytes of a header make the pass throw, whatever may follow them. */
  lemma PartialFrameThrows(answers: seq<byte> -> bool)
    ensures Analysis([1, 0, 0], answers) == Pass([], [1, 0, 0], true)
  {
    hide ByteListToIntLittleEndian;
  }

  lemma {:induction false} FramesOfAnalysis(buffer: seq<byte>, answers: seq<byte> -> bool)
    requires !Analysis(buffer, answers).threw
    ensures var p := Analysis(buffer, answers);
      p.left == [] && buffer == Frames(p.handed) && Countable(p.handed) && AllAnswered(p.handed, answers)
    decreases |buffer|
  {
    if buffer != [] {
      hide Frame;
      var n := ByteListToIntLittleEndian(buffer[..4]);
      FramesOfAnalysis(buffer[4 + n..], answers);
      FrameOfCut(buffer);
      FramesOfCons(buffer[4..4 + n], Analysis(buffer[4 + n..], answers).handed);
    }
  }

  /** A pass over the buffer ends normally exactly when the buffer holds whole frames only, of
      messages the client can answer; a frame that is still arriving makes it throw. */
  lemma NormalIff(buffer: seq<byte>, answers: seq<byte> -> bool)
    ensures !Analysis(buffer, answers).threw <==>
      exists msgs :: Countable(msgs) && AllAnswered(msgs, answers) && buffer == Frames(msgs)
  {
    if !Analysis(buffer, answers).threw {
      FramesOfAnalysis(buffer, answers);
    }
    forall msgs | Countable(msgs) && AllAnswered(msgs, answers) && buffer == Frames(msgs)
      ensures !Analysis(buffer, answers).threw
    {
      AnalysisOfFrames(msgs, answers);
    }
  }

  /** On the same bytes the server's incremental receiver and the Java client agree, for the
      lengths the server allows. */
  lemma AgreesWithReceiver(buffer: seq<byte>, answers: seq<byte> -> bool)
    ensures var p := Analysis(buffer, answers);
      !p.threw && Legal(p.handed) <==>
      Decode(buffer) == Decoded(Decode(buffer).msgs, [], None) && AllAnswered(Decode(buffer).msgs, answers)
    ensures var p := Analysis(buffer, answers);
      !p.threw && Legal(p.handed) ==> Decode(buffer).msgs == p.handed
  {
    var p := Analysis(buffer, answers);
    if !p.threw && Legal(p.handed) {
      FramesOfAnalysis(buffer, answers);
      DecodeOfFrames(p.handed);
    }
    var d := Decode(buffer);
    if d.rest == [] && d.illegal == None && AllAnswered(d.msgs, answers) {
      DecodeKeepsBytes(buffer);
      assert Frames(d.msgs) + [] == Frames(d.msgs);
      AnalysisOfFrames(d.msgs, answers);
    }
  }

  /** ClientHandler */
  class ClientHandler {
    var buffer: seq<byte>
    var active: bool                // whether there is a channel context to write to
    ghost var sent: seq<seq<byte>>  // messages given to sendMessage, in order
    ghost var written: seq<byte>    // bytes written to the channel

    ghost predicate Valid()
      reads this
    {
      written == Frames(sent) && (!active ==> sent == [])
    }

    constructor ()
      ensures Valid() && buffer == [] && !active
    {
      buffer, active, sent, written := [], false, [], [];
    }

    method ChannelActive()
      requires Valid()
      modifies this`active
      ensures Valid() && active
    {
      active := true;
    }

    method AddMessageToBuffer(receivedMessage: seq<byte>)
      modifies this`buffer
      ensures buffer == old(buffer) + receivedMessage
    {
      buffer := buffer + receivedMessage;
    }

    /** Cuts the buffer into messages until it is empty or something throws. */
    method AnalyzeBuffer(answers: seq<byte> -> bool) returns (handed: seq<seq<byte>>, threw: bool)
      modifies this`buffer
      ensures Pass(handed, buffer, threw) == Analysis(old(buffer), answers)
    {
      handed, threw := [], false;
      while |buffer| > 0
        invariant !threw
        invariant var p := Analysis(buffer, answers);
          Analysis(old(buffer), answers) == Pass(handed + p.handed, p.left, p.threw)
        decreases |buffer|
      {
        hide ByteListToIntLittleEndian;
        ghost var before := handed;
        if !Cuttable(buffer) {
          assert handed + [] == handed;
          threw := true;
          return;
        }
        var messageSize := ByteListToIntLittleEndian(buffer[..4]);
        var message := buffer[4..4 + messageSize];
        buffer := buffer[4 + messageSize..];
        handed := handed + [message];
        if !answers(message) {
          threw := true;
          return;
        }
        Associative(before, [message], Analysis(buffer, answers).handed);
      }
      assert handed + [] == handed;
    }

    /** Without a channel it throws. */
    method SendMessage(message: seq<byte>) returns (threw: bool)
      requires Valid()
      modifies this`sent, this`written
      ensures Valid() && threw == !active
      ensures sent == if threw then [] else old(sent) + [message]
      ensures written == if threw then [] else old(written) + AddPrefixMessageSize(message)
    {
      hide Frame, Frames;
      if !active {
        FramesOfNothing();
        return true;
      }
      FramesOfAppend(sent, [message]);
      FramesOfOne(message);
      sent, written := sent + [message], written + AddPrefixMessageSize(message);
      return false;
    }
  }

  lemma FramesOfNothing()
    ensures Frames([]) == []
  {
  }

  /** What is left of a sequence of calls when some are lost: the call at each place, in order. */
  ghost predicate Left(left: seq<seq<byte>>, calls: seq<seq<byte>>, places: seq<nat>) {
    && |left| == |places| <= |calls|
    && (forall i :: 0 <= i < |places| ==> i <= places[i] < |calls| && left[i] == calls[places[i]])
    && (forall i, j :: 0 <= i < j < |places| ==> places[i] < places[j])
  }

  lemma LeftOfNext(left: seq<seq<byte>>, calls: seq<seq<byte>>, places: seq<nat>, call: seq<byte>)
    requires Left(left, calls, places)
    ensures Left(left + [call], calls + [call], places + [|calls|])
    ensures Left(left, calls + [call], places)
  {
  }

  lemma {:induction false} LeftOfAll(left: seq<seq<byte>>, calls: seq<seq<byte>>, places: seq<nat>)
    requires Left(left, calls, places) && |places| == |calls|
    ensures left == calls
  {
    if calls != [] {
      var n := |calls| - 1;
      assert left[..n] == calls[..n] by {
        assert Left(left[..n], calls[..n], places[..n]);
        LeftOfAll(left[..n], calls[..n], places[..n]);
      }
      assert left == left[..n] + [left[n]] && calls == calls[..n] + [calls[n]];
    }
  }

  /** CommunicationManager, as far as sending goes.  Until run() has made the handler and the
      connection is there, its channel is not active; a null handler throws as a null context does. */
  class CommunicationManager {
    const handler: ClientHandler
    var connectionReady: bool
    var bufferedMessages: seq<seq<byte>>
    ghost var calls: seq<seq<byte>>  // arguments of sendMessage, in order
    ghost var places: seq<nat>       // which of them are not lost

    /** Nothing is doubled or reordered: messages handed over, then those that wait, are the messages
        sent, but for the lost ones. */
    ghost predicate Valid()
      reads this, handler
    {
      handler.Valid() && Left(handler.sent + bufferedMessages, calls, places)
    }

    ghost function Lost(): int
      reads this
    {
      |calls| - |places|
    }

    constructor ()
      ensures Valid() && fresh(handler) && !handler.active && !connectionReady
      ensures calls == [] && bufferedMessages == [] && Lost() == 0
    {
      handler := new ClientHandler();
      connectionReady, bufferedMessages, calls, places := false, [], [], [];
    }

    method SetConnectionReady(ready: bool)
      requires Valid()
      modifies this`connectionReady
      ensures Valid() && connectionReady == ready
    {
      connectionReady := ready;
    }

    /** The channel comes up. */
    method ChannelActive()
      requires Valid()
      modifies handler`active
      ensures Valid() && handler.active
    {
      handler.ChannelActive();
    }

    /** It throws exactly when the connection counts as ready while there is no channel; the message
        is lost then, and with it the first of those that wait. */
    method SendMessage(message: seq<byte>) returns (threw: bool)
      requires Valid()
      modifies this`bufferedMessages, this`calls, this`places, handler`sent, handler`written
      ensures Valid() && calls == old(calls) + [message]
      ensures threw <==> connectionReady && !handler.active
      ensures !connectionReady ==>
        handler.sent == old(handler.sent) && bufferedMessages == old(bufferedMessages) + [message]
      ensures connectionReady && !threw ==>
        bufferedMessages == [] && handler.sent == old(handler.sent + bufferedMessages) + [message]
      ensures threw ==> handler.sent == [] && bufferedMessages == old(AfterFirst(bufferedMessages))
      ensures Lost() == old(Lost()) + if !threw then 0 else if old(bufferedMessages) == [] then 1 else 2
    {
      hide Left, Frames;
      if !connectionReady {
        LeftOfNext(handler.sent + bufferedMessages, calls, places, message);
        Associative(handler.sent, bufferedMessages, [message]);
        bufferedMessages, places := bufferedMessages + [message], places + [|calls|];
        calls := calls + [message];
        return false;
      }
      threw := SendAllMessagesFromBuffer();
      LeftOfNext(handler.sent + bufferedMessages, calls, places, message);
      calls := calls + [message];
      if threw {
        return;
      }
      NothingWaits(handler.sent);
      threw := handler.SendMessage(message);
      if !threw {
        NothingWaits(handler.sent);
        places := places + [|calls| - 1];
      }
    }

    /** It throws exactly when a message waits and there is no channel: that message is lost. */
    method SendAllMessagesFromBuffer() returns (threw: bool)
      requires Valid()
      modifies this`bufferedMessages, this`places, handler`sent, handler`written
      ensures Valid() && (threw <==> !handler.active && old(bufferedMessages) != [])
      ensures !threw ==> bufferedMessages == [] && handler.sent == old(handler.sent + bufferedMessages)
      ensures threw ==> handler.sent == [] && bufferedMessages == old(AfterFirst(bufferedMessages))
      ensures Lost() == old(Lost()) + if threw then 1 else 0
    {
      while |bufferedMessages| > 0
        invariant Valid() && handler.sent + bufferedMessages == old(handler.sent + bufferedMessages)
        invariant places == old(places)
        invariant !handler.active ==> bufferedMessages == old(bufferedMessages)
        decreases |bufferedMessages|
      {
        var first := bufferedMessages[0];
        Associative(handler.sent, [first], bufferedMessages[1..]);
        assert [first] + bufferedMessages[1..] == bufferedMessages;
        bufferedMessages := bufferedMessages[1..];
        threw := handler.SendMessage(first);
        if threw {
          places := places[1..];
          return;
        }
      }
      return false;
    }

    /** It drains the buffer, then closes the channel if the connection counts as ready.  It throws
        exactly when it needs a channel and there is none, as after a failed connect. */
    method CloseConnection() returns (threw: bool)
      requires Valid()
      modifies this`bufferedMessages, this`places, this`connectionReady, handler`sent, handler`written
      ensures Valid() && (threw <==> !handler.active && (old(bufferedMessages) != [] || old(connectionReady)))
      ensures !threw ==>
        !connectionReady && bufferedMessages == [] && handler.sent == old(handler.sent + bufferedMessages)
      ensures threw ==>
        && connectionReady == old(connectionReady)
        && handler.sent == [] && bufferedMessages == old(AfterFirst(bufferedMessages))
      ensures Lost() == old(Lost()) + if threw && old(bufferedMessages) != [] then 1 else 0
    {
      threw := SendAllMessagesFromBuffer();
      if threw {
        return;
      }
      if connectionReady && !handler.active {
        return true;
      }
      connectionReady := false;
    }

    /** After any run of sends, readiness changes and closings, whatever part of the written bytes has
        reached the server decodes to a prefix of the messages sent without the lost ones; once all has
        been written and has arrived, it is all of them exactly if none is lost. */
    lemma ServerSees(arrived: seq<byte>)
      requires Valid() && arrived <= handler.written && Legal(calls)
      ensures Decode(arrived).illegal == None && Decode(arrived).msgs <= handler.sent
      ensures Lost() == 0 ==> Decode(arrived).msgs <= calls
      ensures arrived == handler.written && bufferedMessages == [] ==>
        (Decode(arrived).msgs == calls <==> Lost() == 0)
    {
      var left := handler.sent + bufferedMessages;
      forall i | 0 <= i < |handler.sent|
        ensures handler.sent[i] in calls
      {
        assert handler.sent[i] == left[i];
      }
      DecodeOfPrefix(arrived, handler.sent);
      if Lost() == 0 {
        LeftOfAll(left, calls, places);
      }
    }
  }

  lemma NothingWaits(sent: seq<seq<byte>>)
    ensures sent + [] == sent
  {
  }

  function AfterFirst(waiting: seq<seq<byte>>): seq<seq<byte>> {
    if waiting == [] then [] else waiting[1..]
  }

  /** A message sent before a connect that fails: closing throws, and the message is lost. */
  method FailedConnect(message: seq<byte>) returns (manager: CommunicationManager, threw: bool)
    ensures fresh(manager) && manager.Valid() && threw && manager.Lost() == 1
    ensures manager.calls == [message] && manager.bufferedMessages == [] && manager.handler.written == []
  {
    manager := new CommunicationManager();
    threw := manager.SendMessage(message);
    manager.SetConnectionReady(false);
    threw := manager.CloseConnection();
  }
}
