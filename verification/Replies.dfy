/** What the server's replies to one connection are as messages, and what the sensor reads in them. */
module Replies {
  import opened Wire
  import opened Framing
  import opened Session
  import opened SensorProtocol

  /** The replies to one connection, in order. */
  function RepliesTo(sent: seq<Sent>, e: nat): seq<Reply> {
    if sent == [] then []
    else
      var n := |sent| - 1;
      RepliesTo(sent[..n], e) + if sent[n].conn == e then [sent[n].reply] else []
  }

  function Messages(replies: seq<Reply>): (msgs: seq<seq<byte>>)
    ensures |msgs| == |replies|
    ensures forall i :: 0 <= i < |replies| ==> msgs[i] == ReplyBytes(replies[i])
  {
    seq(|replies|, i requires 0 <= i < |replies| => ReplyBytes(replies[i]))
  }

  function Told(sent: seq<Sent>, e: nat): seq<seq<byte>> {
    Messages(RepliesTo(sent, e))
  }

  lemma RepliesOfNext(sent: seq<Sent>, next: Sent, e: nat)
    ensures RepliesTo(sent + [next], e) == RepliesTo(sent, e) + if next.conn == e then [next.reply] else []
  {
    assert (sent + [next])[..|sent|] == sent;
  }

  /** Each reply to the connection has its place among them, ... */
  lemma {:induction false} PlaceOfReply(sent: seq<Sent>, k: nat)
    requires k < |sent|
    ensures var e := sent[k].conn; var place := |RepliesTo(sent[..k], e)|;
      place < |RepliesTo(sent, e)| && RepliesTo(sent, e)[place] == sent[k].reply
  {
    var n := |sent| - 1;
    if k < n {
      PlaceOfReply(sent[..n], k);
      assert sent[..n][..k] == sent[..k];
    }
  }

  /** ... and each place its reply. */
  lemma {:induction false} ReplyAtPlace(sent: seq<Sent>, e: nat, place: nat) returns (k: nat)
    requires place < |RepliesTo(sent, e)|
    ensures k < |sent| && |RepliesTo(sent[..k], e)| == place && sent[k] == Sent(e, RepliesTo(sent, e)[place])
  {
    var n := |sent| - 1;
    if place < |RepliesTo(sent[..n], e)| {
      k := ReplyAtPlace(sent[..n], e, place);
      assert sent[..n][..k] == sent[..k];
    } else {
      k := n;
    }
  }

  lemma ToldOfNext(sent: seq<Sent>, next: Sent, e: nat)
    ensures Told(sent + [next], e) ==
      if next.conn == e then Told(sent, e) + [ReplyBytes(next.reply)] else Told(sent, e)
  {
    hide ReplyBytes, RepliesTo;
    RepliesOfNext(sent, next, e);
  }

  lemma ToldByNext(sent: seq<Sent>, next: Sent)
    ensures Told(sent + [next], next.conn) == Told(sent, next.conn) + [ReplyBytes(next.reply)]
    ensures forall e: nat :: e != next.conn ==> Told(sent + [next], e) == Told(sent, e)
  {
    hide Told, ReplyBytes;
    forall e: nat
      ensures Told(sent + [next], e) ==
        if next.conn == e then Told(sent, e) + [ReplyBytes(next.reply)] else Told(sent, e)
    {
      ToldOfNext(sent, next, e);
    }
  }

  lemma {:induction false} NothingTold(sent: seq<Sent>, e: nat)
    requires forall k :: 0 <= k < |sent| ==> sent[k].conn != e
    ensures Told(sent, e) == []
  {
    if sent != [] {
      NothingTold(sent[..|sent| - 1], e);
    }
  }

  lemma RepliesAreLegal(replies: seq<Reply>)
    ensures Legal(Messages(replies))
  {
    hide ToBytes32, ToBytes64;
    forall m | m in Messages(replies)
      ensures LegalLength(|m|)
    {
      var i :| 0 <= i < |replies| && m == ReplyBytes(replies[i]);
    }
  }

  /** The sensor reads these messages as these replies. */
  predicate ReadsAs(msgs: seq<seq<byte>>, replies: seq<Reply>, beyond: seq<byte>)
    requires |beyond| >= 8
  {
    |msgs| <= |replies| && forall i :: 0 <= i < |msgs| ==>
      |msgs[i]| > 0 && ParseReply(msgs[i], beyond) == Some(replies[i])
  }

  /** Whatever part of the framed replies has arrived, the sensor reads the first ones. */
  lemma RepliesArrive(replies: seq<Reply>, arrived: seq<byte>, beyond: seq<byte>)
    requires |beyond| >= 8 && arrived <= Frames(Messages(replies))
    ensures Decode(arrived).illegal == None && ReadsAs(Decode(arrived).msgs, replies, beyond)
    ensures arrived == Frames(Messages(replies)) ==> |Decode(arrived).msgs| == |replies|
  {
    hide Frames, Decode, ReplyBytes, ParseReply;
    RepliesAreLegal(replies);
    DecodeOfPrefix(arrived, Messages(replies));
    forall i | 0 <= i < |Decode(arrived).msgs|
      ensures |Decode(arrived).msgs[i]| > 0 && ParseReply(Decode(arrived).msgs[i], beyond) == Some(replies[i])
    {
      assert Decode(arrived).msgs[i] == ReplyBytes(replies[i]);
      ReplyRoundTrip(replies[i], beyond);
    }
  }

  /** Per connection, in the order of acceptance, the bytes handed to its socket: the beginning of its
      framed replies. */
  ghost predicate Wired(st: State, wires: seq<seq<byte>>) {
    && |wires| == |st.conns|
    && (forall k :: 0 <= k < |st.sent| ==> st.sent[k].conn < |st.conns|)
    && (forall e :: 0 <= e < |wires| ==> wires[e] <= Frames(Told(st.sent, e)))
  }

  lemma AcceptKeepsWired(st: State, ip: Text, port: int32, wires: seq<seq<byte>>)
    requires Wired(st, wires) && st.armed && 0 <= st.freeHandler < |st.slots|
    ensures Wired(Accept(st, ip, port), wires + [[]])
    ensures Told(st.sent, |st.conns|) == []
  {
    hide Frames, Told;
    NothingTold(st.sent, |st.conns|);
  }

  /** A live connection gets one more reply, and its socket some more bytes. */
  lemma SendKeepsWired(st: State, c: int, reply: Reply, wires: seq<seq<byte>>, wire: seq<byte>)
    requires Wired(st, wires) && IsLive(st.slots, c) && st.slots[c].conn < |st.conns|
    requires wire <= Frames(Told(st.sent, st.slots[c].conn) + [ReplyBytes(reply)])
    ensures Wired(Send(st, c, reply), wires[st.slots[c].conn := wire])
  {
    hide Frames, Told, ReplyBytes;
    var next := Sent(st.slots[c].conn, reply);
    forall e | 0 <= e < |wires|
      ensures Told(st.sent + [next], e) ==
        if e == next.conn then Told(st.sent, e) + [ReplyBytes(reply)] else Told(st.sent, e)
    {
      ToldOfNext(st.sent, next, e);
    }
  }

  lemma WriteKeepsWired(st: State, wires: seq<seq<byte>>, e: nat, wire: seq<byte>)
    requires Wired(st, wires) && e < |wires| && wire <= Frames(Told(st.sent, e))
    ensures Wired(st, wires[e := wire])
  {
  }

  lemma WiresOfConns(st: State, wires: seq<seq<byte>>)
    requires Wired(st, wires)
    ensures |wires| == |st.conns|
  {
  }

  lemma ScanKeepsWired(st: State, wires: seq<seq<byte>>)
    requires Wired(st, wires)
    ensures Wired(Scan(st), wires)
  {
    hide Told, Frames;
  }

  lemma PushKeepsWired(st: State, c: int, request: Request, wires: seq<seq<byte>>)
    requires Wired(st, wires) && IsLive(st.slots, c)
    ensures Wired(Push(st, c, request), wires)
  {
    hide Told, Frames;
  }

  lemma CloseKeepsWired(st: State, c: int, wires: seq<seq<byte>>)
    requires Wired(st, wires) && IsLive(st.slots, c)
    ensures Wired(Close(st, c), wires)
  {
    hide Told, Frames;
  }
}
