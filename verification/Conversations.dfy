/** Whole conversations: a client's calls, the frames, the bytes that have arrived so far, and
    what the other side makes of them. */
module Conversations {
  import opened Wire
  import opened Framing
  import opened Fields
  import Session
  import SessionInvariants
  import SessionProperties
  import SessionSteps
  import Database
  import SensorProtocol
  import AdminProtocol
  import AdminServer
  import JavaClient
  import Server
  import Traces
  import MonitoringProtocol

  // ---- administrator commands ----

  /** The server accepts the frame of a command exactly when its name has few enough bytes. */
  lemma CommandFitsFrameIff(c: AdminProtocol.Command<string>, getBytes: Charset)
    ensures LegalLength(|AdminProtocol.PrepareMessage(c, getBytes)|) <==>
      (c.UpdateSensorName? ==> |getBytes(c.sensorName)| <= 492) && (c.GenerateToken? ==> |getBytes(c.tokenName)| <= 500)
  {
    hide PrepareIntegerMessageWithSize, PrepareStringMessageWithSize;
  }

  /** A name of 493 characters of one byte each is too long. */
  lemma LongNameIsIllegal(name: string, getBytes: Charset)
    requires |name| == |getBytes(name)| == 493
    ensures var m := AdminProtocol.PrepareMessage(AdminProtocol.UpdateSensorName(7, name), getBytes);
      Decode(Frames([m])).msgs == [] && Decode(Frames([m])).illegal == Some(513)
  {
    hide PrepareIntegerMessageWithSize, PrepareStringMessageWithSize, Decode, Frames;
    var m := AdminProtocol.PrepareMessage(AdminProtocol.UpdateSensorName(7, name), getBytes);
    DecodeUpToIllegal([], m, []);
    assert [] + [m] + [] == [m];
  }

  function Prepared(commands: seq<AdminProtocol.Command<string>>, getBytes: Charset): (msgs: seq<seq<byte>>)
    ensures |msgs| == |commands|
  {
    seq(|commands|, i requires 0 <= i < |commands| => AdminProtocol.PrepareMessage(commands[i], getBytes))
  }

  /** Commands of names that fit and have one byte per character. */
  predicate Transmissible(c: AdminProtocol.Command<string>, getBytes: Charset) {
    && LegalLength(|AdminProtocol.PrepareMessage(c, getBytes)|)
    && (AdminProtocol.HasText(c) ==> |getBytes(AdminProtocol.TextOf(c))| == |AdminProtocol.TextOf(c)|)
  }

  /** The server analyzes the message as the command, with all bytes of its text. */
  predicate Understood(c: AdminProtocol.Command<string>, getBytes: Charset, msg: seq<byte>) {
    AdminProtocol.AnalyzeMessage(msg) ==
      AdminProtocol.Request(AdminProtocol.WithText(c, getBytes(AdminProtocol.TextOf(c))))
  }

  /** However much of the client's stream has arrived: the server has understood the first
      commands, in order, and all of them once all bytes are there. */
  lemma CommandsArrive(commands: seq<AdminProtocol.Command<string>>, getBytes: Charset, arrived: seq<byte>)
    requires forall c <- commands :: Transmissible(c, getBytes)
    requires arrived <= Frames(Prepared(commands, getBytes))
    ensures var d := Decode(arrived);
      && d.illegal == None && |d.msgs| <= |commands|
      && (forall i :: 0 <= i < |d.msgs| ==> Understood(commands[i], getBytes, d.msgs[i]))
      && (arrived == Frames(Prepared(commands, getBytes)) ==> |d.msgs| == |commands|)
  {
    hide AdminProtocol.AnalyzeMessage, AdminProtocol.PrepareMessage, AdminProtocol.WithText;
    var msgs, d := Prepared(commands, getBytes), Decode(arrived);
    forall m | m in msgs
      ensures LegalLength(|m|)
    {
      var i :| 0 <= i < |msgs| && msgs[i] == m;
      assert commands[i] in commands;
    }
    DecodeOfPrefix(arrived, msgs);
    forall i | 0 <= i < |d.msgs|
      ensures Understood(commands[i], getBytes, d.msgs[i])
    {
      var c := commands[i];
      assert c in commands && d.msgs[i] == msgs[i] == AdminProtocol.PrepareMessage(c, getBytes);
      CommandFitsFrameIff(c, getBytes);
      AdminProtocol.UnderstoodIff(c, getBytes);
    }
  }

  // ---- monitoring commands ----

  function PreparedForMonitoring(commands: seq<MonitoringProtocol.Command>): (msgs: seq<seq<byte>>)
    ensures |msgs| == |commands|
  {
    seq(|commands|, i requires 0 <= i < |commands| => MonitoringProtocol.PrepareMessage(commands[i]))
  }

  /** The same for the monitoring client, for all its commands. */
  lemma MonitoringCommandsArrive(commands: seq<MonitoringProtocol.Command>, arrived: seq<byte>)
    requires arrived <= Frames(PreparedForMonitoring(commands))
    ensures var d := Decode(arrived);
      && d.illegal == None && |d.msgs| <= |commands|
      && (forall i :: 0 <= i < |d.msgs| ==>
            MonitoringProtocol.AnalyzeMessage(d.msgs[i]) == MonitoringProtocol.Request(commands[i]))
      && (arrived == Frames(PreparedForMonitoring(commands)) ==> |d.msgs| == |commands|)
  {
    hide MonitoringProtocol.PrepareArguments, IntToByteListLittleEndian;
    var msgs, d := PreparedForMonitoring(commands), Decode(arrived);
    assert Legal(msgs);
    DecodeOfPrefix(arrived, msgs);
    forall i | 0 <= i < |d.msgs|
      ensures MonitoringProtocol.AnalyzeMessage(d.msgs[i]) == MonitoringProtocol.Request(commands[i])
    {
      MonitoringProtocol.RequestRoundTrip(commands[i]);
    }
  }

  // ---- a sensor's stream ----

  datatype Reading = Reading(timestamp: Wire.int64, value: Wire.int32)

  predicate IsReading(frame: Session.Frame, reading: Reading) {
    frame == Session.MeasureFrame(reading.timestamp, reading.value)
  }

  /** What a sensor sends on one connection: the token, then its readings. */
  function SensorStream(token: Session.Text, readings: seq<Reading>): (msgs: seq<seq<byte>>)
    ensures |msgs| == 1 + |readings|
  {
    [SensorProtocol.InitMessage(token)]
    + seq(|readings|, i requires 0 <= i < |readings| =>
        SensorProtocol.MeasureMessage(readings[i].timestamp, readings[i].value))
  }

  /** Whatever part of it has arrived, the server has received the token first and then the
      readings in order; no reading is taken for anything else. */
  lemma SensorStreamArrives(token: Session.Text, readings: seq<Reading>, arrived: seq<byte>, beyond: seq<byte>)
    requires |token| < 512 && |beyond| >= 12 && arrived <= Frames(SensorStream(token, readings))
    ensures var d := Decode(arrived);
      && d.illegal == None && |d.msgs| <= 1 + |readings|
      && (|d.msgs| > 0 ==> SensorProtocol.ParseFrame(d.msgs[0], beyond) == Session.InitFrame(token))
      && (forall i :: 1 <= i < |d.msgs| ==>
            IsReading(SensorProtocol.ParseFrame(d.msgs[i], beyond), readings[i - 1]))
  {
    hide SensorProtocol.ToBytes64, ToBytes32, SensorProtocol.ParseFrame;
    var msgs, d := SensorStream(token, readings), Decode(arrived);
    assert Legal(msgs);
    DecodeOfPrefix(arrived, msgs);
    assert |d.msgs| > 0 ==> d.msgs[0] == msgs[0];
    SensorProtocol.SensorMessageRoundTrip(token, 0, 0, beyond);
    forall i | 1 <= i < |d.msgs|
      ensures IsReading(SensorProtocol.ParseFrame(d.msgs[i], beyond), readings[i - 1])
    {
      assert d.msgs[i] == msgs[i];
      SensorProtocol.SensorMessageRoundTrip(token, readings[i - 1].timestamp, readings[i - 1].value, beyond);
    }
  }

  /** The requests that this stream stands for, on its connection. */
  function SensorRequests(token: Session.Text, readings: seq<Reading>, conn: Session.Conn): (r: seq<Session.Request>)
    ensures |r| == 1 + |readings|
  {
    [Session.Connected(conn.slot, conn.ip, conn.port, token)]
    + seq(|readings|, i requires 0 <= i < |readings| =>
        Session.Measured(conn.slot, readings[i].value, Session.Seconds(readings[i].timestamp)))
  }

  /** From the bytes to the queue: if a sensor's stream has arrived, or the beginning of it, then
      whatever else the server does, the requests of its connection are those of the stream, in
      order, one for each whole message that has arrived, and the goodbye if the connection is closed. */
  lemma SensorStreamIsLogged(server: Server.ServerModel, e: nat, token: Session.Text, readings: seq<Reading>)
    requires server.Valid() && e < |server.View().conns| && e < |server.handler.streams|
    requires |token| < 512 && server.handler.streams[e] <= Frames(SensorStream(token, readings))
    ensures var st := server.View();
      var conn, n := st.conns[e], |Decode(server.handler.streams[e]).msgs|;
      n <= 1 + |readings| && Traces.RequestsOf(st.log, e) ==
      SensorRequests(token, readings, conn)[..n] +
        if conn.closedAt == None then [] else [Session.Disconnected(conn.slot)]
  {
    hide SessionInvariants.Inv, Traces.Traced, Traces.TracedConn, Traces.RequestsOf, Decode, Frames;
    hide SensorStream, SensorRequests;
    server.LogIsDelivered(e);
    StreamIsTraced(server.View(), server.handler.streams[e], e, token, readings);
  }

  lemma StreamIsTraced(st: Session.State, stream: seq<byte>, e: nat, token: Session.Text, readings: seq<Reading>)
    requires e < |st.conns| && Traces.TracedConn(st, stream, e)
    requires |token| < 512 && stream <= Frames(SensorStream(token, readings))
    ensures var conn, n := st.conns[e], |Decode(stream).msgs|;
      n <= 1 + |readings| && Traces.RequestsOf(st.log, e) ==
      SensorRequests(token, readings, conn)[..n] +
        if conn.closedAt == None then [] else [Session.Disconnected(conn.slot)]
  {
    hide Decode, Frames, Traces.Becomes, Traces.Unknown, Traces.RequestsOf, SensorStream, SensorRequests;
    var conn, msgs, requests := st.conns[e], Decode(stream).msgs, Traces.RequestsOf(st.log, e);
    SensorStreamIsLegal(token, readings);
    DecodeOfPrefix(stream, SensorStream(token, readings));
    if msgs != [] {
      StreamIsKnown(token, readings, |msgs| - 1);
    }
    var told := if conn.closedAt == None then requests else requests[..|requests| - 1];
    assert Traces.AllBecome(msgs, told, conn);
    forall i: nat | i < |msgs|
      ensures told[i] == SensorRequests(token, readings, conn)[i]
    {
      assert Traces.Becomes(msgs[i], told[i], conn);
      MessageOfStream(token, readings, i, told[i], conn);
    }
    assert told == SensorRequests(token, readings, conn)[..|msgs|];
    assert told + [] == told;
    assert conn.closedAt != None ==> requests == told + [requests[|requests| - 1]];
  }

  lemma StreamIsKnown(token: Session.Text, readings: seq<Reading>, i: nat)
    requires i <= |readings|
    ensures !Traces.Unknown(SensorStream(token, readings)[i])
  {
    hide SensorProtocol.ToBytes64, ToBytes32;
  }

  lemma SensorStreamIsLegal(token: Session.Text, readings: seq<Reading>)
    requires |token| < 512
    ensures Legal(SensorStream(token, readings))
  {
    hide SensorProtocol.ToBytes64, ToBytes32;
  }

  lemma MessageOfStream(
    token: Session.Text, readings: seq<Reading>, i: nat, request: Session.Request, conn: Session.Conn)
    requires i <= |readings| && Traces.Becomes(SensorStream(token, readings)[i], request, conn)
    ensures request == SensorRequests(token, readings, conn)[i]
  {
    hide SensorProtocol.ParseFrame, SensorProtocol.InitMessage, SensorProtocol.MeasureMessage;
    var msg := SensorStream(token, readings)[i];
    var frame :| Traces.Reads(msg, frame) && Traces.RequestFrom(frame, conn) == Some(request);
    var beyond: seq<byte> :| |beyond| >= 12 && SensorProtocol.ParseFrame(msg, beyond) == frame;
    if i == 0 {
      SensorProtocol.SensorMessageRoundTrip(token, 0, 0, beyond);
    } else {
      SensorProtocol.SensorMessageRoundTrip(token, readings[i - 1].timestamp, readings[i - 1].value, beyond);
    }
  }

  // ---- streams of responses ----

  /** The Java clients' analyzeResponse returns normally. */
  predicate AdministratorAnswers(msg: seq<byte>) {
    AdminProtocol.AnalyzeResponse(msg) != None
  }

  predicate MonitorAnswers(msg: seq<byte>) {
    MonitoringProtocol.AnalyzeResponse(msg) != None
  }

  type AdminResponse = AdminProtocol.Response<Session.Text>

  predicate Sendable(r: AdminResponse) {
    !r.NotRecognized? && AdminProtocol.ResponseFits(r) && |AdminProtocol.SerializeResponseMessage(r)| < 0x8000_0000
  }

  function Serialized(responses: seq<AdminResponse>): (msgs: seq<seq<byte>>)
    requires forall r <- responses :: Sendable(r)
    ensures |msgs| == |responses|
    ensures forall i :: 0 <= i < |msgs| ==>
      Sendable(responses[i]) && msgs[i] == AdminProtocol.SerializeResponseMessage(responses[i])
  {
    assert forall i :: 0 <= i < |responses| ==> responses[i] in responses;
    seq(|responses|, i requires 0 <= i < |responses| && Sendable(responses[i]) =>
      AdminProtocol.SerializeResponseMessage(responses[i]))
  }

  /** While the server's responses arrive at the administrator client: those handed on are the first
      ones, each understood as what it shows; a pass ends normally exactly when the bytes so far end
      with a frame; and once all are there, all have been handed on. */
  lemma ResponsesArrive(responses: seq<AdminResponse>, arrived: seq<byte>)
    requires forall r <- responses :: Sendable(r)
    requires arrived <= Frames(Serialized(responses))
    ensures var p := JavaClient.Analysis(arrived, AdministratorAnswers);
      && p.handed <= Serialized(responses)
      && (forall i :: 0 <= i < |p.handed| ==>
            AdminProtocol.AnalyzeResponse(p.handed[i]) == Some(AdminProtocol.Shown(responses[i])))
      && (!p.threw <==> JavaClient.EndsWithFrame(Serialized(responses), arrived))
      && (arrived == Frames(Serialized(responses)) ==> p == JavaClient.Pass(Serialized(responses), [], false))
  {
    hide AdminProtocol.SerializeResponseMessage, AdminProtocol.AnalyzeResponse, JavaClient.Analysis, Frames;
    var msgs := Serialized(responses);
    forall i | 0 <= i < |msgs|
      ensures AdminProtocol.AnalyzeResponse(msgs[i]) == Some(AdminProtocol.Shown(responses[i]))
    {
      AdminProtocol.ResponseRoundTrip(responses[i]);
    }
    JavaClient.AnalysisOfPrefix(msgs, arrived, AdministratorAnswers);
    JavaClient.AnalysisOfFrames(msgs, AdministratorAnswers);
  }

  predicate SendableToMonitor(r: MonitoringProtocol.Response) {
    MonitoringProtocol.ResponseFits(r) && |MonitoringProtocol.SerializeResponseMessage(r)| < 0x8000_0000
  }

  function SerializedForMonitor(responses: seq<MonitoringProtocol.Response>): (msgs: seq<seq<byte>>)
    ensures |msgs| == |responses|
  {
    seq(|responses|, i requires 0 <= i < |responses| => MonitoringProtocol.SerializeResponseMessage(responses[i]))
  }

  /** The same at the monitoring client, which uses up all bytes of each response. */
  lemma MonitoringResponsesArrive(responses: seq<MonitoringProtocol.Response>, arrived: seq<byte>)
    requires forall r <- responses :: SendableToMonitor(r)
    requires arrived <= Frames(SerializedForMonitor(responses))
    ensures var p := JavaClient.Analysis(arrived, MonitorAnswers);
      && p.handed <= SerializedForMonitor(responses)
      && (forall i :: 0 <= i < |p.handed| ==>
            MonitoringProtocol.AnalyzeResponse(p.handed[i]) == Some((MonitoringProtocol.View(responses[i]), [])))
      && (!p.threw <==> JavaClient.EndsWithFrame(SerializedForMonitor(responses), arrived))
      && (arrived == Frames(SerializedForMonitor(responses)) ==>
            p == JavaClient.Pass(SerializedForMonitor(responses), [], false))
  {
    hide MonitoringProtocol.SerializeResponseMessage, MonitoringProtocol.AnalyzeResponse, JavaClient.Analysis, Frames;
    var msgs := SerializedForMonitor(responses);
    forall i | 0 <= i < |msgs|
      ensures MonitoringProtocol.AnalyzeResponse(msgs[i]) == Some((MonitoringProtocol.View(responses[i]), []))
      ensures |msgs[i]| < 0x8000_0000
    {
      assert responses[i] in responses;
      MonitoringProtocol.ResponseRoundTrip(responses[i]);
    }
    JavaClient.AnalysisOfPrefix(msgs, arrived, MonitorAnswers);
    JavaClient.AnalysisOfFrames(msgs, MonitorAnswers);
  }

  // ---- the administrator's list ----

  /** What the administrator client shows of a sensor is its row, its texts read by byteListToString,
      and connected if the sensor is registered. */
  ghost predicate ShowsRow(st: Session.State, s: AdminProtocol.Sensor<string>) {
    && s.id in st.rows && s.name == JavaText(st.rows[s.id].name)
    && s.ip == JavaText(st.rows[s.id].ip) && s.port == st.rows[s.id].port
    && (s.connected <==> s.id in st.s2c)
    && (s.name == Meant(st.rows[s.id].name) <==> SevenBit(st.rows[s.id].name))
  }

  /** In every reachable state, the list that the administrator client decodes shows the active and
      the disconnected rows and no others, as connected exactly the sensors with a registered
      connection, and their names as meant exactly if they are 7-bit. */
  lemma AdministratorSeesSessions(start: Session.State, actions: seq<Session.Action>, sensors: seq<Database.Listed>)
    requires Session.Initial(start) && Database.Lists(Session.Run(start, actions).rows, sensors)
    requires AdminProtocol.ResponseFits(AdminProtocol.AllSensors(Viewed(AdminServer.ToSensor, sensors)))
    ensures var st := Session.Run(start, actions);
      var shown := AdminProtocol.AnalyzeResponse(
        AdminProtocol.SerializeResponseMessage(AdminProtocol.AllSensors(Viewed(AdminServer.ToSensor, sensors))));
      && shown.Some? && shown.value.AllSensors?
      && (forall s <- shown.value.sensors :: ShowsRow(st, s))
      && (forall id :: (exists s :: s in shown.value.sensors && s.id == id) <==>
            id in st.rows && (st.rows[id].status == Session.Active || st.rows[id].status == Session.Inactive))
  {
    var st := Session.Run(start, actions);
    hide Session.Run, AdminProtocol.SerializeResponseMessage, AdminProtocol.AnalyzeResponse, JavaText, Meant,
      SevenBit, Viewed;
    SessionProperties.ActiveIffRegistered(start, actions);
    var list := Viewed(AdminServer.ToSensor, sensors);
    AdminProtocol.ResponseRoundTrip(AdminProtocol.AllSensors(list));
    var shown := Viewed(AdminProtocol.ShownSensor, list);
    forall i | 0 <= i < |sensors|
      ensures shown[i].id == sensors[i].id && ShowsRow(st, shown[i])
    {
      assert shown[i] == AdminProtocol.ShownSensor(AdminServer.ToSensor(sensors[i]));
      assert sensors[i] in sensors;
      TextIff(sensors[i].name);
    }
    forall id | id in st.rows && (st.rows[id].status == Session.Active || st.rows[id].status == Session.Inactive)
      ensures exists s :: s in shown && s.id == id
    {
      var s :| s in sensors && s.id == id;
      var i :| 0 <= i < |sensors| && sensors[i] == s;
      assert shown[i] in shown;
    }
    forall s | s in shown
      ensures st.rows[s.id].status == Session.Active || st.rows[s.id].status == Session.Inactive
    {
      var i :| 0 <= i < |shown| && shown[i] == s;
      assert sensors[i] in sensors;
    }
  }

  /** What a client's rename does: the bytes that the server reads of the name are the sensor's name in
      whatever happens next, up to another rename of it, and the list then shows them. */
  lemma RenamedIsShown(
    start: Session.State, before: seq<Session.Action>, id: int32, name: string, getBytes: Charset,
    after: seq<Session.Action>, sensors: seq<Database.Listed>)
    requires Session.Initial(start) && id in Session.Run(start, before).rows
    requires |name| < 0x8000_0000 && |name| <= |getBytes(name)|
    requires forall a <- after :: !(a.RenameSensor? && a.id == id)
    requires var bytes := getBytes(name)[..|name|];
      var actions := before + [Session.RenameSensor(id, bytes)] + after;
      && Database.Lists(Session.Run(start, actions).rows, sensors)
      && AdminProtocol.ResponseFits(AdminProtocol.AllSensors(Viewed(AdminServer.ToSensor, sensors)))
    ensures AdminProtocol.AnalyzeMessage(
        AdminProtocol.PrepareMessage(AdminProtocol.UpdateSensorName(id, name), getBytes)) ==
      AdminProtocol.Request(AdminProtocol.UpdateSensorName(id, getBytes(name)[..|name|]))
    ensures var shown := AdminProtocol.AnalyzeResponse(
        AdminProtocol.SerializeResponseMessage(AdminProtocol.AllSensors(Viewed(AdminServer.ToSensor, sensors))));
      && shown.Some? && shown.value.AllSensors?
      && forall s <- shown.value.sensors :: s.id == id ==> s.name == JavaText(getBytes(name)[..|name|])
  {
    hide Session.Run, Session.Initial, Session.Step, AdminProtocol.AnalyzeMessage, AdminProtocol.PrepareMessage,
      AdminProtocol.AnalyzeResponse, AdminProtocol.SerializeResponseMessage, JavaText, Database.Lists;
    var bytes := getBytes(name)[..|name|];
    var rename := Session.RenameSensor(id, bytes);
    AdminProtocol.EachCommandIsAnalyzed(id, name, getBytes);
    SessionInvariants.RunOfOneMore(start, before, rename);
    SessionInvariants.RunOfRuns(start, before + [rename], after);
    SessionSteps.RenameSticks(Session.Run(start, before), id, bytes, after);
    AdministratorSeesSessions(start, before + [rename] + after, sensors);
  }
}
