/** What the administrator client and the server say to each other, in both directions. */
module AdminProtocol {
  import opened Wire
  import opened Fields

  /** A command with its arguments; S is the string type of the side that holds it. */
  datatype Command<+S> =
    | GetAllSensors
    | UpdateSensorName(sensorId: int32, sensorName: S)
    | RevokeSensor(sensorId: int32)
    | DisconnectSensor(sensorId: int32)
    | GenerateToken(tokenName: S)

  /** AdministratorCommandTypes.h, and CommandsType of the client */
  const GET_ALL_SENSORS: int32 := 0
  const UPDATE_SENSOR_NAME: int32 := 1
  const REVOKE_SENSOR: int32 := 2
  const DISCONNECT_SENSOR: int32 := 3
  const GENERATE_TOKEN: int32 := 4

  datatype Sensor<+S> = Sensor(id: int32, name: S, ip: S, port: int32, connected: bool)

  /** A response, or what the client makes of one. */
  datatype Response<+S> =
    | AllSensors(sensors: seq<Sensor<S>>)
    | NameUpdated(id: int32)
    | Revoked(id: int32)
    | Disconnected(id: int32)
    | Token(token: S)
    | NotRecognized

  // ---- requests: client to server ----

  /** The prepareMessage* family */
  function PrepareMessage(c: Command<string>, getBytes: Charset): seq<byte> {
    match c
    case GetAllSensors =>
      PrepareIntegerMessageWithSize(GET_ALL_SENSORS)
    case UpdateSensorName(id, name) =>
      PrepareIntegerMessageWithSize(UPDATE_SENSOR_NAME)
      + (PrepareIntegerMessageWithSize(id) + PrepareStringMessageWithSize(name, getBytes))
    case RevokeSensor(id) =>
      PrepareIntegerMessageWithSize(REVOKE_SENSOR) + PrepareIntegerMessageWithSize(id)
    case DisconnectSensor(id) =>
      PrepareIntegerMessageWithSize(DISCONNECT_SENSOR) + PrepareIntegerMessageWithSize(id)
    case GenerateToken(name) =>
      PrepareIntegerMessageWithSize(GENERATE_TOKEN) + PrepareStringMessageWithSize(name, getBytes)
  }

  /** A request, a null pointer for an unknown command, or a read past the end. */
  datatype Analyzed = Request(command: Command<seq<byte>>) | Unrecognized | PastEnd

  /** SerializerAdministratorMessage::analyzeMessage.  The sizes of fixed fields are skipped. */
  function AnalyzeMessage(message: seq<byte>): Analyzed {
    if message == [] then
      Unrecognized
    else
      match ReadInt(message, 4)
      case None => PastEnd
      case Some(commandType) =>
        var arguments := message[8..];
        if commandType == GET_ALL_SENSORS then Request(GetAllSensors)
        else if commandType == UPDATE_SENSOR_NAME then AnalyzeUpdateSensorName(arguments)
        else if commandType == REVOKE_SENSOR then
          (match ReadInt(arguments, 4)
           case None => PastEnd
           case Some(id) => Request(RevokeSensor(id)))
        else if commandType == DISCONNECT_SENSOR then
          (match ReadInt(arguments, 4)
           case None => PastEnd
           case Some(id) => Request(DisconnectSensor(id)))
        else if commandType == GENERATE_TOKEN then AnalyzeGenerateToken(arguments)
        else Unrecognized
  }

  function AnalyzeUpdateSensorName(message: seq<byte>): Analyzed {
    match (ReadInt(message, 4), ReadInt(message, 8))
    case (Some(id), Some(sizeOfName)) =>
      (match ReadName(message, 12, sizeOfName)
       case Some(name) => Request(UpdateSensorName(id, name))
       case None => PastEnd)
    case _ => PastEnd
  }

  function AnalyzeGenerateToken(message: seq<byte>): Analyzed {
    match ReadInt(message, 0)
    case None => PastEnd
    case Some(sizeOfName) =>
      match ReadName(message, 4, sizeOfName)
      case Some(name) => Request(GenerateToken(name))
      case None => PastEnd
  }

  lemma IntBehind(message: seq<byte>, from: nat, begin: nat)
    requires from + begin + 4 <= |message|
    ensures ByteToInt(message[from..], begin) == ByteToInt(message, from + begin)
  {
    hide Extend, Lane;
  }

  /** Every message, well formed or not, by its bytes: the second integer is the command's number; what is
      not there is read past the end; ... */
  lemma AnalyzedIs(message: seq<byte>)
    ensures message == [] ==> AnalyzeMessage(message) == Unrecognized
    ensures 0 < |message| < 8 ==> AnalyzeMessage(message) == PastEnd
    ensures |message| >= 8 ==>
      var commandType := ByteToInt(message, 4);
      && (commandType == 0 ==> AnalyzeMessage(message) == Request(GetAllSensors))
      && (|message| >= 16 ==>
            && (commandType == 2 ==> AnalyzeMessage(message) == Request(RevokeSensor(ByteToInt(message, 12))))
            && (commandType == 3 ==> AnalyzeMessage(message) == Request(DisconnectSensor(ByteToInt(message, 12)))))
      && (|message| < 16 && (commandType == 2 || commandType == 3) ==> AnalyzeMessage(message) == PastEnd)
      && (commandType < 0 || commandType > 4 ==> AnalyzeMessage(message) == Unrecognized)
  {
    hide ByteToInt;
    if |message| >= 16 {
      IntBehind(message, 8, 4);
    }
  }

  /** ... and a name is as many bytes as its size says, or none if that is not positive. */
  lemma AnalyzedNameIs(message: seq<byte>)
    requires |message| >= 8
    ensures ByteToInt(message, 4) == 1 ==>
      AnalyzeMessage(message) == (
        if |message| < 20 || 20 + ByteToInt(message, 16) > |message| then PastEnd
        else Request(UpdateSensorName(ByteToInt(message, 12), message[20..20 + Natural(ByteToInt(message, 16))])))
    ensures ByteToInt(message, 4) == 4 ==>
      AnalyzeMessage(message) == (
        if |message| < 12 || 12 + ByteToInt(message, 8) > |message| then PastEnd
        else Request(GenerateToken(message[12..12 + Natural(ByteToInt(message, 8))])))
  {
    hide ByteToInt, ReadName;
    if |message| >= 12 {
      IntBehind(message, 8, 0);
      NameBehind(message, 4, ByteToInt(message, 8));
    }
    if |message| >= 20 {
      IntBehind(message, 8, 4);
      IntBehind(message, 8, 8);
      NameBehind(message, 12, ByteToInt(message, 16));
    }
  }

  function Natural(n: int): nat {
    if n < 0 then 0 else n
  }

  lemma NameBehind(message: seq<byte>, begin: nat, size: int32)
    requires |message| >= 8 + begin
    ensures ReadName(message[8..], begin, size) == (
      if 8 + begin + size > |message| then None else Some(message[8 + begin..8 + begin + Natural(size)]))
  {
    if 0 < size && 8 + begin + size <= |message| {
      assert message[8..][begin..begin + size] == message[8 + begin..8 + begin + size];
    }
    assert size <= 0 ==> message[8 + begin..8 + begin + Natural(size)] == [];
  }

  /** The text of a command, if it has one. */
  function TextOf(c: Command<string>): string {
    match c
    case UpdateSensorName(_, name) => name
    case GenerateToken(name) => name
    case _ => ""
  }

  /** The command with these bytes for its text. */
  function WithText(c: Command<string>, bytes: seq<byte>): Command<seq<byte>> {
    match c
    case GetAllSensors => GetAllSensors
    case UpdateSensorName(id, _) => UpdateSensorName(id, bytes)
    case RevokeSensor(id) => RevokeSensor(id)
    case DisconnectSensor(id) => DisconnectSensor(id)
    case GenerateToken(_) => GenerateToken(bytes)
  }

  predicate HasText(c: Command<string>) {
    c.UpdateSensorName? || c.GenerateToken?
  }

  lemma ReadOfPrepared(value: int32, tail: seq<byte>)
    ensures var m := PrepareIntegerMessageWithSize(value) + tail;
      m != [] && ReadInt(m, 4) == Some(value) && m[8..] == tail
  {
    hide IntToByte, IntToByteList;
    assert PrepareIntegerMessageWithSize(value) + tail == IntToByte(4) + IntToByte(value) + tail;
    ReadOfInt(IntToByte(4), value, tail);
  }

  lemma ReadOfText(before: seq<byte>, text: string, getBytes: Charset)
    requires |text| < 0x8000_0000
    ensures var m := before + PrepareStringMessageWithSize(text, getBytes);
      ReadInt(m, |before|) == Some(|text|) && ReadName(m, |before| + 4, |text|) == NameRead(text, getBytes)
  {
    hide IntToByte, IntToByteList, ReadInt;
    var bytes := getBytes(text);
    Associative(before, IntToByte(|text|), bytes);
    ReadOfInt(before, |text|, bytes);
    var m := before + IntToByte(|text|) + bytes;
    if |text| <= |bytes| {
      assert m[|before| + 4..|before| + 4 + |text|] == bytes[..|text|];
    }
  }

  /** For every command, identifier, name and charset: the server analyzes the command that the
      client prepared, with what it reads of the name. */
  lemma RequestRoundTrip(c: Command<string>, getBytes: Charset)
    requires |TextOf(c)| < 0x8000_0000
    ensures AnalyzeMessage(PrepareMessage(c, getBytes)) ==
      if !HasText(c) then Request(WithText(c, []))
      else if NameRead(TextOf(c), getBytes) == None then PastEnd
      else Request(WithText(c, NameRead(TextOf(c), getBytes).value))
  {
    hide PrepareIntegerMessageWithSize, PrepareStringMessageWithSize, ReadInt, ReadName, NameRead;
    match c
    case GetAllSensors =>
      ReadOfPrepared(GET_ALL_SENSORS, []);
      assert PrepareMessage(c, getBytes) + [] == PrepareMessage(c, getBytes);
    case UpdateSensorName(id, name) =>
      var text := PrepareStringMessageWithSize(name, getBytes);
      ReadOfPrepared(UPDATE_SENSOR_NAME, PrepareIntegerMessageWithSize(id) + text);
      ReadOfPrepared(id, text);
      ReadOfText(PrepareIntegerMessageWithSize(id), name, getBytes);
    case RevokeSensor(id) =>
      ReadOfPrepared(REVOKE_SENSOR, PrepareIntegerMessageWithSize(id));
      ReadOfPrepared(id, []);
      assert PrepareIntegerMessageWithSize(id) + [] == PrepareIntegerMessageWithSize(id);
    case DisconnectSensor(id) =>
      ReadOfPrepared(DISCONNECT_SENSOR, PrepareIntegerMessageWithSize(id));
      ReadOfPrepared(id, []);
      assert PrepareIntegerMessageWithSize(id) + [] == PrepareIntegerMessageWithSize(id);
    case GenerateToken(name) =>
      var text := PrepareStringMessageWithSize(name, getBytes);
      ReadOfPrepared(GENERATE_TOKEN, text);
      ReadOfText([], name, getBytes);
      assert [] + text == text;
  }

  /** Command by command, what the server makes of what the client prepared; of a name it takes as many
      bytes as the name has characters, or reads past the end. */
  lemma EachCommandIsAnalyzed(id: int32, name: string, getBytes: Charset)
    requires |name| < 0x8000_0000
    ensures AnalyzeMessage(PrepareMessage(GetAllSensors, getBytes)) == Request(GetAllSensors)
    ensures AnalyzeMessage(PrepareMessage(RevokeSensor(id), getBytes)) == Request(RevokeSensor(id))
    ensures AnalyzeMessage(PrepareMessage(DisconnectSensor(id), getBytes)) == Request(DisconnectSensor(id))
    ensures AnalyzeMessage(PrepareMessage(UpdateSensorName(id, name), getBytes)) ==
      if |getBytes(name)| < |name| then PastEnd else Request(UpdateSensorName(id, getBytes(name)[..|name|]))
    ensures AnalyzeMessage(PrepareMessage(GenerateToken(name), getBytes)) ==
      if |getBytes(name)| < |name| then PastEnd else Request(GenerateToken(getBytes(name)[..|name|]))
  {
    hide AnalyzeMessage, PrepareMessage;
    RequestRoundTrip(GetAllSensors, getBytes);
    RequestRoundTrip(RevokeSensor(id), getBytes);
    RequestRoundTrip(DisconnectSensor(id), getBytes);
    RequestRoundTrip(UpdateSensorName(id, name), getBytes);
    RequestRoundTrip(GenerateToken(name), getBytes);
  }

  /** The server understands exactly the command, with all bytes of its text, exactly when the text
      has one byte per character. */
  lemma UnderstoodIff(c: Command<string>, getBytes: Charset)
    requires |TextOf(c)| < 0x8000_0000
    ensures AnalyzeMessage(PrepareMessage(c, getBytes)) == Request(WithText(c, getBytes(TextOf(c))))
      <==> (HasText(c) ==> |getBytes(TextOf(c))| == |TextOf(c)|)
  {
    hide AnalyzeMessage, PrepareMessage, NameRead;
    RequestRoundTrip(c, getBytes);
    NameReadIff(TextOf(c), getBytes);
  }

  /** So it does for 7-bit texts, and they mean there what they mean here. */
  lemma SevenBitIsUnderstood(c: Command<string>, getBytes: Charset)
    requires AsciiCompatible(getBytes) && SevenBitText(TextOf(c)) && |TextOf(c)| < 0x8000_0000
    ensures AnalyzeMessage(PrepareMessage(c, getBytes)) == Request(WithText(c, Ascii(TextOf(c))))
    ensures Meant(Ascii(TextOf(c))) == TextOf(c)
  {
    hide AnalyzeMessage, PrepareMessage;
    UnderstoodIff(c, getBytes);
  }

  /** A one-character name of two bytes, as UTF-8 gives for a letter with an accent: the server
      takes the first byte for the name. */
  lemma AccentedNameIsCut(getBytes: Charset, letter: char)
    requires getBytes([letter]) == [0xC3, 0xA9]
    ensures AnalyzeMessage(PrepareMessage(GenerateToken([letter]), getBytes)) == Request(GenerateToken([0xC3]))
  {
    hide AnalyzeMessage, PrepareMessage;
    RequestRoundTrip(GenerateToken([letter]), getBytes);
    assert [0xC3, 0xA9][..1] == [0xC3];
  }

  // ---- responses: server to client ----

  /** SerializerAdministratorMessage::constructSensorMessage */
  function ConstructSensorMessage(s: Sensor<seq<byte>>): seq<byte> {
    ConstructIntMessageWithSize(s.id)
    + (Sized(s.name) + (Sized(s.ip)
    + (ConstructIntMessageWithSize(s.port) + ConstructBoolMessageWithSize(s.connected))))
  }

  /** SerializerAdministratorMessage::serializeResponseMessage */
  function SerializeResponseMessage(r: Response<seq<byte>>): seq<byte>
    requires !r.NotRecognized?
  {
    match r
    case AllSensors(sensors) => IntToByte(GET_ALL_SENSORS) + EncodeList(ConstructSensorMessage, sensors)
    case NameUpdated(id) => IntToByte(UPDATE_SENSOR_NAME) + IntToByte(id)
    case Revoked(id) => IntToByte(REVOKE_SENSOR) + IntToByte(id)
    case Disconnected(id) => IntToByte(DISCONNECT_SENSOR) + IntToByte(id)
    case Token(token) => IntToByte(GENERATE_TOKEN) + Sized(token)
  }

  /** constructSensorFromByteMessage, and where its cursor ends. */
  function TakeSensor(message: seq<byte>): Option<(Sensor<string>, seq<byte>)> {
    var (id, m1) :- TakeIntField(message);
    var (name, m2) :- TakeStringField(m1);
    var (ip, m3) :- TakeStringField(m2);
    var (port, m4) :- TakeIntField(m3);
    var (connected, m5) :- TakeBoolField(m4);
    Some((Sensor(id, name, ip, port, connected), m5))
  }

  function ConstructSensor(message: seq<byte>): Option<Sensor<string>> {
    var (sensor, _) :- TakeSensor(message);
    Some(sensor)
  }

  /** CommunicationManager.analyzeResponse of the administrator client; None is an exception. */
  function AnalyzeResponse(message: seq<byte>): Option<Response<string>> {
    var (commandType, m) :- TakeInt(message);
    if commandType == 0 then
      var (sensors, _) :- TakeList(ConstructSensor, m);
      Some(AllSensors(sensors))
    else if commandType == 1 then
      var (id, _) :- TakeInt(m);
      Some(NameUpdated(id))
    else if commandType == 2 then
      var (id, _) :- TakeInt(m);
      Some(Revoked(id))
    else if commandType == 3 then
      var (id, _) :- TakeInt(m);
      Some(Disconnected(id))
    else if commandType == 4 then
      if |m| < 4 then None else Some(Token(JavaText(m[4..])))
    else
      Some(NotRecognized)
  }

  function ShownSensor(s: Sensor<seq<byte>>): Sensor<string> {
    Sensor(s.id, JavaText(s.name), JavaText(s.ip), s.port, s.connected)
  }

  /** What the client shows of a response: the same, its strings read by byteListToString. */
  function Shown(r: Response<seq<byte>>): Response<string> {
    match r
    case AllSensors(sensors) => AllSensors(Viewed(ShownSensor, sensors))
    case NameUpdated(id) => NameUpdated(id)
    case Revoked(id) => Revoked(id)
    case Disconnected(id) => Disconnected(id)
    case Token(token) => Token(JavaText(token))
    case NotRecognized => NotRecognized
  }

  /** Every length in the response fits the int that carries it. */
  predicate ResponseFits(r: Response<seq<byte>>) {
    match r
    case AllSensors(sensors) => |sensors| < 0x8000_0000 && forall s <- sensors :: Fits(ConstructSensorMessage(s))
    case Token(token) => Fits(token)
    case _ => true
  }

  /** The sensor comes back, and the cursor stops exactly at the end of its bytes. */
  lemma SensorRoundTrip(s: Sensor<seq<byte>>)
    requires Fits(ConstructSensorMessage(s))
    ensures TakeSensor(ConstructSensorMessage(s)) == Some((ShownSensor(s), []))
  {
    assert Fits(s.name) && Fits(s.ip);
    hide Sized, TakeField, ConstructIntMessageWithSize, ConstructBoolMessageWithSize, TakeIntField, TakeStringField,
      TakeBoolField;
    var m5 := ConstructBoolMessageWithSize(s.connected);
    var m4 := ConstructIntMessageWithSize(s.port) + m5;
    var m3 := Sized(s.ip) + m4;
    var m2 := Sized(s.name) + m3;
    TakeOfIntField(s.id, m2);
    TakeOfString(s.name, m3);
    TakeOfString(s.ip, m4);
    TakeOfIntField(s.port, m5);
    TakeOfBoolField(s.connected, []);
    assert m5 + [] == m5;
  }

  /** For every response, whatever its sensors: the administrator client reads it back. */
  lemma ResponseRoundTrip(r: Response<seq<byte>>)
    requires !r.NotRecognized? && ResponseFits(r)
    ensures AnalyzeResponse(SerializeResponseMessage(r)) == Some(Shown(r))
  {
    hide IntToByte, TakeInt, Sized, TakeList;
    match r
    case AllSensors(sensors) => ListRoundTrip(sensors);
    case NameUpdated(id) => IdRoundTrip(UPDATE_SENSOR_NAME, id);
    case Revoked(id) => IdRoundTrip(REVOKE_SENSOR, id);
    case Disconnected(id) => IdRoundTrip(DISCONNECT_SENSOR, id);
    case Token(token) => TokenRoundTrip(token);
  }

  lemma ListRoundTrip(sensors: seq<Sensor<seq<byte>>>)
    requires ResponseFits(AllSensors(sensors))
    ensures AnalyzeResponse(SerializeResponseMessage(AllSensors(sensors))) == Some(Shown(AllSensors(sensors)))
    ensures TakeList(ConstructSensor, EncodeList(ConstructSensorMessage, sensors)) ==
      Some((Viewed(ShownSensor, sensors), []))
  {
    hide IntToByte, TakeInt, ConstructSensorMessage, TakeList, EncodeList;
    var list := EncodeList(ConstructSensorMessage, sensors);
    TakeOfInt(GET_ALL_SENSORS, list);
    forall s | s in sensors
      ensures ConstructSensor(ConstructSensorMessage(s)) == Some(ShownSensor(s))
    {
      SensorRoundTrip(s);
    }
    TakeOfList(ConstructSensorMessage, ConstructSensor, ShownSensor, sensors, []);
    assert list + [] == list;
  }

  /** Response by response, what the client shows. */
  lemma EachResponseIsShown(id: int32, token: seq<byte>)
    requires Fits(token)
    ensures AnalyzeResponse(SerializeResponseMessage(NameUpdated(id))) == Some(NameUpdated(id))
    ensures AnalyzeResponse(SerializeResponseMessage(Revoked(id))) == Some(Revoked(id))
    ensures AnalyzeResponse(SerializeResponseMessage(Disconnected(id))) == Some(Disconnected(id))
    ensures AnalyzeResponse(SerializeResponseMessage(Token(token))) == Some(Token(JavaText(token)))
  {
    hide SerializeResponseMessage, AnalyzeResponse;
    ResponseRoundTrip(NameUpdated(id));
    ResponseRoundTrip(Revoked(id));
    ResponseRoundTrip(Disconnected(id));
    ResponseRoundTrip(Token(token));
  }

  /** ... and of the list, field by field. */
  lemma ListIsShown(sensors: seq<Sensor<seq<byte>>>) returns (shown: seq<Sensor<string>>)
    requires ResponseFits(AllSensors(sensors))
    ensures AnalyzeResponse(SerializeResponseMessage(AllSensors(sensors))) == Some(AllSensors(shown))
    ensures |shown| == |sensors|
    ensures forall i :: 0 <= i < |sensors| ==>
      && shown[i].id == sensors[i].id
      && shown[i].name == JavaText(sensors[i].name)
      && shown[i].ip == JavaText(sensors[i].ip)
      && shown[i].port == sensors[i].port
      && shown[i].connected == sensors[i].connected
  {
    hide SerializeResponseMessage, AnalyzeResponse, JavaText;
    ListRoundTrip(sensors);
    shown := Viewed(ShownSensor, sensors);
    assert forall i :: 0 <= i < |sensors| ==> shown[i] == ShownSensor(sensors[i]);
  }

  /** A message too short for a number makes the client throw; of an unknown number it only takes note. */
  lemma OtherResponses(message: seq<byte>)
    ensures |message| < 4 ==> AnalyzeResponse(message) == None
    ensures |message| >= 4 && !(0 <= ByteListToInt(message[..4]) <= 4) ==>
      AnalyzeResponse(message) == Some(NotRecognized)
  {
    hide ByteListToInt, TakeList;
  }

  /** What the client shows of a sensor is what the server meant exactly when the texts are 7-bit. */
  lemma ShownAsMeantIff(s: Sensor<seq<byte>>)
    ensures ShownSensor(s) == Sensor(s.id, Meant(s.name), Meant(s.ip), s.port, s.connected)
      <==> SevenBit(s.name) && SevenBit(s.ip)
  {
    hide JavaText, Meant, SevenBit;
    TextIff(s.name);
    TextIff(s.ip);
  }

  lemma IdRoundTrip(commandType: int32, id: int32)
    ensures var m := IntToByte(commandType) + IntToByte(id);
      TakeInt(m) == Some((commandType, IntToByte(id))) && TakeInt(IntToByte(id)) == Some((id, []))
  {
    hide IntToByte, TakeInt;
    TakeOfInt(commandType, IntToByte(id));
    TakeOfInt(id, []);
    assert IntToByte(id) + [] == IntToByte(id);
  }

  lemma TokenRoundTrip(token: seq<byte>)
    requires Fits(token)
    ensures AnalyzeResponse(SerializeResponseMessage(Token(token))) == Some(Token(JavaText(token)))
  {
    hide IntToByte, TakeInt, JavaText;
    TakeOfInt(GENERATE_TOKEN, Sized(token));
    assert Sized(token)[4..] == token;
  }
}
