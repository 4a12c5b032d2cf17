/** What the monitoring client and the server say to each other, in both directions. */
module MonitoringProtocol {
  import opened Wire
  import opened Fields

  datatype Command =
    | GetAllSensors
    | GetSetOfMeasurements(sensorId: int32, period: int32)

  /** MonitoringCommandTypes.h, and CommandsType of the client */
  const GET_ALL_SENSORS: int32 := 0
  const GET_SET_OF_MEASUREMENTS: int32 := 1

  datatype Sensor<+S> = Sensor(id: int32, name: S, ip: S, port: int32, currentMeasurement: int32)
  datatype Measurement<+S> = Measurement(value: int32, text: S)

  datatype Response =
    | AllSensors(sensors: seq<Sensor<seq<byte>>>)
    | SetOfMeasurements(sensorId: int32, measurements: seq<Measurement<seq<byte>>>)

  /** The client's measurement repeats the sensor it belongs to. */
  datatype ShownMeasurement = ShownMeasurement(sensorId: int32, value: int32, text: string)

  datatype Shown =
    | ShownSensors(sensors: seq<Sensor<string>>)
    | ShownMeasurements(measurements: seq<ShownMeasurement>)
    | NotRecognized

  // ---- requests: client to server ----

  /** prefixMessageSize(prepareMessage...): a little-endian size that the framing layer will
      repeat in front of it. */
  function PrepareMessage(c: Command): seq<byte> {
    PrefixMessageSize(PrepareArguments(c))
  }

  function PrefixMessageSize(message: seq<byte>): seq<byte> {
    IntToByteListLittleEndian(Int32(|message|)) + message
  }

  function PrepareArguments(c: Command): (bytes: seq<byte>)
    ensures 8 <= |bytes| <= 24
  {
    match c
    case GetAllSensors =>
      PrepareIntegerMessageWithSize(GET_ALL_SENSORS)
    case GetSetOfMeasurements(id, period) =>
      PrepareIntegerMessageWithSize(GET_SET_OF_MEASUREMENTS)
      + (PrepareIntegerMessageWithSize(id) + PrepareIntegerMessageWithSize(period))
  }

  datatype Analyzed = Request(command: Command) | Unrecognized | PastEnd

  /** SerializerMonitoringMessage::analyzeMessage: skips the inner size and the fixed sizes. */
  function AnalyzeMessage(message: seq<byte>): Analyzed {
    if message == [] then
      Unrecognized
    else
      match ReadInt(message, 8)
      case None => PastEnd
      case Some(commandType) =>
        if commandType == GET_ALL_SENSORS then
          Request(GetAllSensors)
        else if commandType == GET_SET_OF_MEASUREMENTS then
          match (ReadInt(message, 16), ReadInt(message, 24))
          case (Some(id), Some(period)) => Request(GetSetOfMeasurements(id, period))
          case _ => PastEnd
        else
          Unrecognized
  }

  /** For every identifier and period the server analyzes exactly the command prepared, the
      double size prefix notwithstanding. */
  lemma RequestRoundTrip(c: Command)
    ensures AnalyzeMessage(PrepareMessage(c)) == Request(c)
  {
    hide IntToByte, IntToByteList, IntToByteListLittleEndian, ToBytes32, ReadInt, Int32;
    var size := IntToByteListLittleEndian(Int32(|PrepareArguments(c)|));
    match c
    case GetAllSensors =>
      var m := (size + IntToByte(4)) + IntToByte(GET_ALL_SENSORS) + [];
      assert PrepareMessage(c) == m;
      ReadOfInt(size + IntToByte(4), GET_ALL_SENSORS, []);
    case GetSetOfMeasurements(id, period) =>
      var four := IntToByte(4);
      var head := (size + four) + IntToByte(GET_SET_OF_MEASUREMENTS);
      var middle := (head + four) + IntToByte(id);
      var m := (middle + four) + IntToByte(period) + [];
      assert PrepareMessage(c) == m;
      assert m == (size + four) + IntToByte(GET_SET_OF_MEASUREMENTS)
        + (four + IntToByte(id) + four + IntToByte(period));
      assert m == (head + four) + IntToByte(id) + (four + IntToByte(period));
      ReadOfInt(size + four, GET_SET_OF_MEASUREMENTS, four + IntToByte(id) + four + IntToByte(period));
      ReadOfInt(head + four, id, four + IntToByte(period));
      ReadOfInt(middle + four, period, []);
  }

  /** Every message, well formed or not: the third integer is the command's number, the fifth and the
      seventh are its arguments, and what is not there is read past the end. */
  lemma AnalyzedIs(message: seq<byte>)
    ensures message == [] ==> AnalyzeMessage(message) == Unrecognized
    ensures 0 < |message| < 12 ==> AnalyzeMessage(message) == PastEnd
    ensures |message| >= 12 ==>
      var commandType := ByteToInt(message, 8);
      && (commandType == 0 ==> AnalyzeMessage(message) == Request(GetAllSensors))
      && (commandType == 1 && |message| < 28 ==> AnalyzeMessage(message) == PastEnd)
      && (commandType == 1 && |message| >= 28 ==>
            AnalyzeMessage(message) == Request(GetSetOfMeasurements(ByteToInt(message, 16), ByteToInt(message, 24))))
      && (commandType != 0 && commandType != 1 ==> AnalyzeMessage(message) == Unrecognized)
  {
    hide ByteToInt;
  }

  // ---- responses: server to client ----

  /** SerializerMonitoringMessage::constructSensorMessage */
  function ConstructSensorMessage(s: Sensor<seq<byte>>): seq<byte> {
    ConstructIntMessageWithSize(s.id)
    + (Sized(s.name) + (Sized(s.ip)
    + (ConstructIntMessageWithSize(s.port) + ConstructIntMessageWithSize(s.currentMeasurement))))
  }

  /** SerializerMonitoringMessage::constructMeasurementMessage */
  function ConstructMeasurementMessage(m: Measurement<seq<byte>>): seq<byte> {
    ConstructIntMessageWithSize(m.value) + Sized(m.text)
  }

  /** SerializerMonitoringMessage::serializeResponseMessage */
  function SerializeResponseMessage(r: Response): seq<byte> {
    match r
    case AllSensors(sensors) =>
      IntToByte(GET_ALL_SENSORS) + EncodeList(ConstructSensorMessage, sensors)
    case SetOfMeasurements(id, measurements) =>
      IntToByte(GET_SET_OF_MEASUREMENTS) + (IntToByte(id) + EncodeList(ConstructMeasurementMessage, measurements))
  }

  /** constructSensorFromByteMessage, and where its cursor ends. */
  function TakeSensor(message: seq<byte>): Option<(Sensor<string>, seq<byte>)> {
    var (id, m1) :- TakeIntField(message);
    var (name, m2) :- TakeStringField(m1);
    var (ip, m3) :- TakeStringField(m2);
    var (port, m4) :- TakeIntField(m3);
    var (current, m5) :- TakeIntField(m4);
    Some((Sensor(id, name, ip, port, current), m5))
  }

  function ConstructSensor(message: seq<byte>): Option<Sensor<string>> {
    var (sensor, _) :- TakeSensor(message);
    Some(sensor)
  }

  /** constructMeasurementFromByteMessage, and where its cursor ends. */
  function TakeMeasurement(message: seq<byte>, sensorId: int32): Option<(ShownMeasurement, seq<byte>)> {
    var (value, m1) :- TakeIntField(message);
    var (text, m2) :- TakeStringField(m1);
    Some((ShownMeasurement(sensorId, value, text), m2))
  }

  function ConstructMeasurement(sensorId: int32): seq<byte> -> Option<ShownMeasurement> {
    message =>
      var (measurement, _) :- TakeMeasurement(message, sensorId);
      Some(measurement)
  }

  /** CommunicationManager.analyzeResponse of the monitoring client, and where its cursor ends. */
  function AnalyzeResponse(message: seq<byte>): Option<(Shown, seq<byte>)> {
    var (commandType, m) :- TakeInt(message);
    if commandType == 0 then
      var (sensors, end) :- TakeList(ConstructSensor, m);
      Some((ShownSensors(sensors), end))
    else if commandType == 1 then
      var (id, list) :- TakeInt(m);
      var (measurements, end) :- TakeList(ConstructMeasurement(id), list);
      Some((ShownMeasurements(measurements), end))
    else
      Some((NotRecognized, m))
  }

  function ShownSensor(s: Sensor<seq<byte>>): Sensor<string> {
    Sensor(s.id, JavaText(s.name), JavaText(s.ip), s.port, s.currentMeasurement)
  }

  function Labelled(sensorId: int32): Measurement<seq<byte>> -> ShownMeasurement {
    (m: Measurement<seq<byte>>) => ShownMeasurement(sensorId, m.value, JavaText(m.text))
  }

  function View(r: Response): Shown {
    match r
    case AllSensors(sensors) => ShownSensors(Viewed(ShownSensor, sensors))
    case SetOfMeasurements(id, measurements) => ShownMeasurements(Viewed(Labelled(id), measurements))
  }

  predicate ResponseFits(r: Response) {
    match r
    case AllSensors(sensors) =>
      |sensors| < 0x8000_0000 && forall s <- sensors :: Fits(ConstructSensorMessage(s))
    case SetOfMeasurements(_, measurements) =>
      |measurements| < 0x8000_0000 && forall m <- measurements :: Fits(ConstructMeasurementMessage(m))
  }

  lemma SensorRoundTrip(s: Sensor<seq<byte>>)
    requires Fits(ConstructSensorMessage(s))
    ensures TakeSensor(ConstructSensorMessage(s)) == Some((ShownSensor(s), []))
  {
    assert Fits(s.name) && Fits(s.ip);
    hide Sized, TakeField, ConstructIntMessageWithSize, TakeIntField, TakeStringField;
    var m5 := ConstructIntMessageWithSize(s.currentMeasurement);
    var m4 := ConstructIntMessageWithSize(s.port) + m5;
    var m3 := Sized(s.ip) + m4;
    var m2 := Sized(s.name) + m3;
    TakeOfIntField(s.id, m2);
    TakeOfString(s.name, m3);
    TakeOfString(s.ip, m4);
    TakeOfIntField(s.port, m5);
    TakeOfIntField(s.currentMeasurement, []);
    assert m5 + [] == m5;
  }

  lemma MeasurementRoundTrip(m: Measurement<seq<byte>>, sensorId: int32)
    requires Fits(ConstructMeasurementMessage(m))
    ensures TakeMeasurement(ConstructMeasurementMessage(m), sensorId) == Some((Labelled(sensorId)(m), []))
  {
    assert Fits(m.text);
    hide Sized, TakeField, ConstructIntMessageWithSize, TakeIntField, TakeStringField;
    TakeOfIntField(m.value, Sized(m.text));
    TakeOfString(m.text, []);
    assert Sized(m.text) + [] == Sized(m.text);
  }

  /** For every response: the monitoring client reads it back and consumes all its bytes. */
  lemma ResponseRoundTrip(r: Response)
    requires ResponseFits(r)
    ensures AnalyzeResponse(SerializeResponseMessage(r)) == Some((View(r), []))
  {
    hide IntToByte, TakeInt, ConstructSensorMessage, ConstructMeasurementMessage, TakeList, EncodeList,
      TakeMeasurement, TakeSensor;
    match r
    case AllSensors(sensors) =>
      var list := EncodeList(ConstructSensorMessage, sensors);
      TakeOfInt(GET_ALL_SENSORS, list);
      forall s | s in sensors
        ensures ConstructSensor(ConstructSensorMessage(s)) == Some(ShownSensor(s))
      {
        SensorRoundTrip(s);
      }
      TakeOfList(ConstructSensorMessage, ConstructSensor, ShownSensor, sensors, []);
      assert list + [] == list;
    case SetOfMeasurements(id, measurements) =>
      var list := EncodeList(ConstructMeasurementMessage, measurements);
      TakeOfInt(GET_SET_OF_MEASUREMENTS, IntToByte(id) + list);
      TakeOfInt(id, list);
      forall m | m in measurements
        ensures ConstructMeasurement(id)(ConstructMeasurementMessage(m)) == Some(Labelled(id)(m))
      {
        MeasurementRoundTrip(m, id);
      }
      TakeOfList(ConstructMeasurementMessage, ConstructMeasurement(id), Labelled(id), measurements, []);
      assert list + [] == list;
  }

  /** What the client shows of a list, field by field. */
  lemma ListIsShown(sensors: seq<Sensor<seq<byte>>>) returns (shown: seq<Sensor<string>>)
    requires ResponseFits(AllSensors(sensors))
    ensures AnalyzeResponse(SerializeResponseMessage(AllSensors(sensors))) == Some((ShownSensors(shown), []))
    ensures |shown| == |sensors|
    ensures forall i :: 0 <= i < |sensors| ==>
      && shown[i].id == sensors[i].id
      && shown[i].name == JavaText(sensors[i].name)
      && shown[i].ip == JavaText(sensors[i].ip)
      && shown[i].port == sensors[i].port
      && shown[i].currentMeasurement == sensors[i].currentMeasurement
  {
    hide SerializeResponseMessage, AnalyzeResponse, JavaText;
    ResponseRoundTrip(AllSensors(sensors));
    shown := Viewed(ShownSensor, sensors);
    assert forall i :: 0 <= i < |sensors| ==> shown[i] == ShownSensor(sensors[i]);
  }

  /** What the client shows of a sensor's measurements, field by field. */
  lemma MeasurementsAreShown(id: int32, measurements: seq<Measurement<seq<byte>>>)
    returns (shown: seq<ShownMeasurement>)
    requires ResponseFits(SetOfMeasurements(id, measurements))
    ensures AnalyzeResponse(SerializeResponseMessage(SetOfMeasurements(id, measurements))) ==
      Some((ShownMeasurements(shown), []))
    ensures |shown| == |measurements|
    ensures forall i :: 0 <= i < |measurements| ==>
      && shown[i].sensorId == id
      && shown[i].value == measurements[i].value
      && shown[i].text == JavaText(measurements[i].text)
  {
    hide SerializeResponseMessage, AnalyzeResponse, JavaText;
    ResponseRoundTrip(SetOfMeasurements(id, measurements));
    shown := Viewed(Labelled(id), measurements);
    assert forall i :: 0 <= i < |measurements| ==> shown[i] == Labelled(id)(measurements[i]);
  }

  /** A message too short for a number makes the client throw; of an unknown number it only takes note. */
  lemma OtherResponses(message: seq<byte>)
    ensures |message| < 4 ==> AnalyzeResponse(message) == None
    ensures |message| >= 4 && ByteListToInt(message[..4]) != 0 && ByteListToInt(message[..4]) != 1 ==>
      AnalyzeResponse(message) == Some((NotRecognized, message[4..]))
  {
    hide ByteListToInt, TakeList;
  }

  /** A sensor is shown as the server meant it exactly when its texts are 7-bit, ... */
  lemma ShownAsMeantIff(s: Sensor<seq<byte>>)
    ensures ShownSensor(s) == Sensor(s.id, Meant(s.name), Meant(s.ip), s.port, s.currentMeasurement)
      <==> SevenBit(s.name) && SevenBit(s.ip)
  {
    hide JavaText, Meant, SevenBit;
    TextIff(s.name);
    TextIff(s.ip);
  }

  /** ... and a measurement exactly when its text is. */
  lemma LabelledAsMeantIff(sensorId: int32, m: Measurement<seq<byte>>)
    ensures Labelled(sensorId)(m) == ShownMeasurement(sensorId, m.value, Meant(m.text)) <==> SevenBit(m.text)
  {
    hide JavaText, Meant, SevenBit;
    TextIff(m.text);
  }
}
