/** The messages between a sensor and the server, as bytes. */
module SensorProtocol {
  import opened Wire
  import opened Session

  /** BytesParser::toBytes<int64_t> on a little-endian host: the low word, then the high word. */
  function ToBytes64(value: int64): (bytes: seq<byte>)
    ensures |bytes| == 8
  {
    ToBytes32(Int32(value)) + ToBytes32(value / 0x1_0000_0000)
  }

  /** BytesParser::parse<int64_t> */
  function Parse64(bytes: seq<byte>, offset: nat): int64
    requires offset + 8 <= |bytes|
  {
    Parse32(bytes, offset) % 0x1_0000_0000 + Parse32(bytes, offset + 4) * 0x1_0000_0000
  }

  lemma LongRoundTrip(value: int64, bytes: seq<byte>, offset: nat)
    requires offset + 8 <= |bytes| && bytes[offset..offset + 8] == ToBytes64(value)
    ensures Parse64(bytes, offset) == value
  {
    hide ToBytes32, Parse32;
    var high := value / 0x1_0000_0000;
    var field := bytes[offset..offset + 8];
    assert bytes[offset..offset + 4] == field[..4] == ToBytes32(Int32(value));
    assert bytes[offset + 4..offset + 4 + 4] == field[4..] == ToBytes32(high);
    LittleRoundTrip(Int32(value), bytes, offset);
    LittleRoundTrip(high, bytes, offset + 4);
  }

  // ---- sensor to server ----

  /** NetworkListener::beforeFirstSend: 'i' and the token. */
  function InitMessage(token: Text): seq<byte> {
    [105] + token
  }

  /** sensorThread: 'm', the time and the value. */
  function MeasureMessage(timestamp: int64, value: int32): seq<byte> {
    [109] + (ToBytes64(timestamp) + ToBytes32(value))
  }

  /** SensorListener::onGotRequest and its handlers: getData advances a cursor over the message,
      and reads `beyond` where a measurement message is too short. */
  function ParseFrame(msg: seq<byte>, beyond: seq<byte>): Frame
    requires |msg| > 0 && |beyond| >= 12
  {
    if msg[0] == 109 then
      MeasureFrame(Parse64(msg + beyond, 1), Parse32(msg + beyond, 9))
    else if msg[0] == 105 then
      InitFrame(msg[1..])
    else
      UnknownFrame
  }

  /** What a sensor sends is what the server understands, for every token, time and value. */
  lemma SensorMessageRoundTrip(token: Text, timestamp: int64, value: int32, beyond: seq<byte>)
    requires |beyond| >= 12
    ensures ParseFrame(InitMessage(token), beyond) == InitFrame(token)
    ensures ParseFrame(MeasureMessage(timestamp, value), beyond) == MeasureFrame(timestamp, value)
  {
    hide ToBytes32, Parse32, ToBytes64, Parse64;
    assert InitMessage(token)[1..] == token;
    var m := MeasureMessage(timestamp, value) + beyond;
    assert m[1..1 + 8] == ToBytes64(timestamp);
    assert m[9..9 + 4] == ToBytes32(value);
    LongRoundTrip(timestamp, m, 1);
    LittleRoundTrip(value, m, 9);
  }

  /** Every message by its first byte; a measurement that is too short is completed by the memory behind it. */
  lemma ParsedIs(msg: seq<byte>, beyond: seq<byte>, timestamp: int64, value: int32)
    requires |msg| > 0 && |beyond| >= 12
    ensures msg[0] == 'i' as byte ==> ParseFrame(msg, beyond) == InitFrame(msg[1..])
    ensures msg[0] == 'm' as byte && (msg + beyond)[1..13] == ToBytes64(timestamp) + ToBytes32(value) ==>
      ParseFrame(msg, beyond) == MeasureFrame(timestamp, value)
    ensures msg[0] != 'i' as byte && msg[0] != 'm' as byte ==> ParseFrame(msg, beyond) == UnknownFrame
  {
    hide ToBytes32, Parse32, ToBytes64, Parse64;
    var m := msg + beyond;
    if m[1..13] == ToBytes64(timestamp) + ToBytes32(value) {
      assert m[1..1 + 8] == m[1..13][..8] == ToBytes64(timestamp);
      assert m[9..9 + 4] == m[1..13][8..] == ToBytes32(value);
      LongRoundTrip(timestamp, m, 1);
      LittleRoundTrip(value, m, 9);
    }
  }

  // ---- server to sensor ----

  /** '1', 'a' or 'r', and an integer. */
  function ReplyBytes(reply: Reply): (bytes: seq<byte>)
    ensures bytes != []
  {
    match reply
    case Confirmed(timestamp) => [49] + ToBytes64(timestamp)
    case Accepted(serverTime) => [97] + ToBytes64(serverTime)
    case Rejected(reason) => [114] + ToBytes32(reason)
  }

  /** NetworkListener::onGotRequest; an unknown status is ignored. */
  function ParseReply(msg: seq<byte>, beyond: seq<byte>): Option<Reply>
    requires |msg| > 0 && |beyond| >= 8
  {
    if msg[0] == 49 then Some(Confirmed(Parse64(msg + beyond, 1)))
    else if msg[0] == 97 then Some(Accepted(Parse64(msg + beyond, 1)))
    else if msg[0] == 114 then Some(Rejected(Parse32(msg + beyond, 1)))
    else None
  }

  lemma ReplyRoundTrip(reply: Reply, beyond: seq<byte>)
    requires |beyond| >= 8
    ensures ParseReply(ReplyBytes(reply), beyond) == Some(reply)
  {
    hide ToBytes32, Parse32, ToBytes64, Parse64;
    var m := ReplyBytes(reply) + beyond;
    match reply
    case Confirmed(timestamp) =>
      assert m[1..1 + 8] == ToBytes64(timestamp);
      LongRoundTrip(timestamp, m, 1);
    case Accepted(serverTime) =>
      assert m[1..1 + 8] == ToBytes64(serverTime);
      LongRoundTrip(serverTime, m, 1);
    case Rejected(reason) =>
      assert m[1..1 + 4] == ToBytes32(reason);
      LittleRoundTrip(reason, m, 1);
  }

  /** The sensor ignores every other message. */
  lemma OtherRepliesAreIgnored(msg: seq<byte>, beyond: seq<byte>)
    requires |msg| > 0 && |beyond| >= 8
    ensures ParseReply(msg, beyond) == None <==>
      msg[0] != '1' as byte && msg[0] != 'a' as byte && msg[0] != 'r' as byte
  {
    hide Parse32, Parse64;
  }
}
