/** The framing of the sensor, administrator and monitoring connections: a 32-bit
    little-endian length, then that many bytes. */
module Framing {
  import opened Wire

  /** Client::MAX_MSG */
  const MAX_MSG: int := 512

  /** What the sending side puts before a message of any length. */
  function Frame(msg: seq<byte>): (frame: seq<byte>) {
    ToBytes32(Int32(|msg|)) + msg
  }

  function Frames(msgs: seq<seq<byte>>): (stream: seq<byte>) {
    if msgs == [] then [] else Frame(msgs[0]) + Frames(msgs[1..])
  }

  /** What a byte stream means: its whole messages, the bytes of the unfinished one, and the
      first illegal length, after which nothing is decoded. */
  datatype Decoded = Decoded(msgs: seq<seq<byte>>, rest: seq<byte>, illegal: Option<int32>)

  predicate LegalLength(n: int) {
    0 < n <= MAX_MSG
  }

  predicate Legal(msgs: seq<seq<byte>>) {
    forall m <- msgs :: LegalLength(|m|)
  }

  function Decode(stream: seq<byte>): (d: Decoded)
    ensures Legal(d.msgs)
  {
    if |stream| < 4 then
      Decoded([], stream, None)
    else
      var n := Parse32(stream, 0);
      if !LegalLength(n) then
        Decoded([], stream, Some(n))
      else if |stream| < 4 + n then
        Decoded([], stream, None)
      else
        var d := Decode(stream[4 + n..]);
        Decoded([stream[4..4 + n]] + d.msgs, d.rest, d.illegal)
  }

  lemma FramesOfCons(m: seq<byte>, msgs: seq<seq<byte>>)
    ensures Frames([m] + msgs) == Frame(m) + Frames(msgs)
  {
    assert ([m] + msgs)[1..] == msgs;
  }

  lemma {:induction false} FramesOfAppend(a: seq<seq<byte>>, b: seq<seq<byte>>)
    ensures Frames(a + b) == Frames(a) + Frames(b)
  {
    if a == [] {
      assert a + b == b;
    } else {
      var m, ms := a[0], a[1..];
      assert a == [m] + ms;
      Associative([m], ms, b);
      FramesOfCons(m, ms);
      FramesOfCons(m, ms + b);
      FramesOfAppend(ms, b);
      Associative(Frame(m), Frames(ms), Frames(b));
    }
  }

  lemma FramesOfOne(m: seq<byte>)
    ensures Frames([m]) == Frame(m)
  {
    FramesOfCons(m, []);
    assert [m] + [] == [m];
  }

  lemma HeaderOfFrame(msg: seq<byte>, tail: seq<byte>)
    ensures |Frame(msg)| == 4 + |msg|
    ensures Parse32(Frame(msg) + tail, 0) == Int32(|msg|)
  {
    assert (Frame(msg) + tail)[0..4] == ToBytes32(Int32(|msg|));
    LittleRoundTrip(Int32(|msg|), Frame(msg) + tail, 0);
  }

  /** What decoding goes on to after `d`, when the bytes `t` follow. */
  function Continue(d: Decoded, t: seq<byte>): Decoded {
    if d.illegal == None then
      var e := Decode(d.rest + t);
      Decoded(d.msgs + e.msgs, e.rest, e.illegal)
    else
      Decoded(d.msgs, d.rest + t, d.illegal)
  }

  lemma DecodeOfWholeFrame(s: seq<byte>, m: seq<byte>, tail: seq<byte>)
    requires s == Frame(m) + tail && LegalLength(|m|)
    ensures Decode(s) == Decoded([m] + Decode(tail).msgs, Decode(tail).rest, Decode(tail).illegal)
  {
    HeaderOfFrame(m, tail);
    assert s[4..4 + |m|] == m;
    assert s[4 + |m|..] == tail;
  }

  lemma ContinueOfFrame(m: seq<byte>, d: Decoded, t: seq<byte>)
    ensures var c := Continue(d, t);
      Continue(Decoded([m] + d.msgs, d.rest, d.illegal), t) == Decoded([m] + c.msgs, c.rest, c.illegal)
  {
    assert forall e: seq<seq<byte>> :: ([m] + d.msgs) + e == [m] + (d.msgs + e);
  }

  /** More bytes only extend what was decoded: whole messages stay, the unfinished one goes on,
      and an illegal length stays the first illegal length. */
  lemma {:induction false} DecodeOfAppend(s: seq<byte>, t: seq<byte>)
    ensures Decode(s + t) == Continue(Decode(s), t)
    decreases |s|
  {
    if |s| >= 4 && LegalLength(Parse32(s, 0)) && |s| >= 4 + Parse32(s, 0) {
      var n := Parse32(s, 0);
      var m, tail := s[4..4 + n], s[4 + n..];
      DecodeOfAppend(tail, t);
      FrameAtFront(s);
      DecodeOfWholeFrame(s, m, tail);
      Associative(Frame(m), tail, t);
      DecodeOfWholeFrame(s + t, m, tail + t);
      ContinueOfFrame(m, Decode(tail), t);
    } else {
      NoWholeFrame(s, t);
    }
  }

  lemma FrameAtFront(s: seq<byte>)
    requires |s| >= 4 && 0 <= Parse32(s, 0) <= |s| - 4
    ensures var n := Parse32(s, 0); s == Frame(s[4..4 + n]) + s[4 + n..]
  {
    LittleSurjective(s, 0);
  }

  lemma NoWholeFrame(s: seq<byte>, t: seq<byte>)
    requires !(|s| >= 4 && LegalLength(Parse32(s, 0)) && |s| >= 4 + Parse32(s, 0))
    ensures Decode(s + t) == Continue(Decode(s), t)
  {
    assert forall e: seq<seq<byte>> :: [] + e == e;
    if |s| >= 4 {
      assert Parse32(s + t, 0) == Parse32(s, 0);
    }
  }

  lemma {:induction false} DecodeOfFrames(msgs: seq<seq<byte>>)
    requires Legal(msgs)
    ensures Decode(Frames(msgs)) == Decoded(msgs, [], None)
  {
    if msgs != [] {
      var m, tail := msgs[0], Frames(msgs[1..]);
      DecodeOfWholeFrame(Frames(msgs), m, tail);
      assert Legal(msgs[1..]);
      DecodeOfFrames(msgs[1..]);
      assert [m] + msgs[1..] == msgs;
    }
  }

  /** Framed messages decode to themselves exactly when every length is 1..512. */
  lemma FramesDecodeIff(msgs: seq<seq<byte>>)
    ensures Decode(Frames(msgs)) == Decoded(msgs, [], None) <==> Legal(msgs)
  {
    if Legal(msgs) {
      DecodeOfFrames(msgs);
    }
  }

  /** Otherwise exactly the messages before the first illegal one come out. */
  lemma DecodeUpToIllegal(before: seq<seq<byte>>, m: seq<byte>, after: seq<seq<byte>>)
    requires Legal(before) && !LegalLength(|m|) && |m| < 0x8000_0000
    ensures Decode(Frames(before + [m] + after)) == Decoded(before, Frames([m] + after), Some(|m|))
  {
    var tail := Frames([m] + after);
    DecodeOfFrames(before);
    FramesOfAppend(before, [m] + after);
    Associative(before, [m], after);
    DecodeOfAppend(Frames(before), tail);
    assert [] + tail == tail;
    FramesOfCons(m, after);
    HeaderOfFrame(m, Frames(after));
    assert before + [] == before;
  }

  /** The messages before the first of an illegal length. */
  function LegalPrefix(msgs: seq<seq<byte>>): (legal: seq<seq<byte>>)
    ensures Legal(legal) && legal <= msgs
    ensures legal == msgs <==> Legal(msgs)
    ensures |legal| < |msgs| ==> !LegalLength(|msgs[|legal|]|)
  {
    if msgs == [] || !LegalLength(|msgs[0]|) then []
    else
      var rest := LegalPrefix(msgs[1..]);
      assert msgs == [msgs[0]] + msgs[1..];
      [msgs[0]] + rest
  }

  /** Framed messages of any countable lengths decode to those before the first illegal one. */
  lemma DecodeOfAnyFrames(msgs: seq<seq<byte>>)
    requires forall m <- msgs :: |m| < 0x8000_0000
    ensures Decode(Frames(msgs)).msgs == LegalPrefix(msgs)
    ensures Decode(Frames(msgs)).illegal == None <==> Legal(msgs)
  {
    hide Decode, Frames, LegalPrefix;
    var n := |LegalPrefix(msgs)|;
    if n < |msgs| {
      assert msgs[n] in msgs;
      DecodeUpToIllegal(msgs[..n], msgs[n], msgs[n + 1..]);
      assert msgs[..n] + [msgs[n]] + msgs[n + 1..] == msgs;
    } else {
      DecodeOfFrames(msgs);
    }
  }

  /** 513 bytes are too many. */
  lemma LongMessageIsIllegal(m: seq<byte>)
    requires |m| == 513
    ensures Decode(Frames([m])) == Decoded([], Frames([m]), Some(513))
  {
    DecodeUpToIllegal([], m, []);
    assert [] + [m] + [] == [m] && [m] + [] == [m];
  }

  /** Any prefix of the framed messages decodes to a prefix of them, with no illegal length. */
  lemma DecodeOfPrefix(stream: seq<byte>, msgs: seq<seq<byte>>)
    requires stream <= Frames(msgs) && Legal(msgs)
    ensures Decode(stream).illegal == None
    ensures Decode(stream).msgs <= msgs
    ensures stream == Frames(msgs) ==> Decode(stream).msgs == msgs
  {
    DecodeOfFrames(msgs);
    var t := Frames(msgs)[|stream|..];
    assert stream + t == Frames(msgs);
    DecodeOfAppend(stream, t);
  }

  /** The decoder loses nothing: decoded messages and the rest give the stream back. */
  lemma {:induction false} DecodeKeepsBytes(stream: seq<byte>)
    ensures Frames(Decode(stream).msgs) + Decode(stream).rest == stream
    decreases |stream|
  {
    if |stream| >= 4 {
      var n := Parse32(stream, 0);
      if LegalLength(n) && |stream| >= 4 + n {
        var m, d := stream[4..4 + n], Decode(stream[4 + n..]);
        DecodeKeepsBytes(stream[4 + n..]);
        FrameAtFront(stream);
        FramesOfCons(m, d.msgs);
        Associative(Frame(m), Frames(d.msgs), d.rest);
      }
    }
  }
}
