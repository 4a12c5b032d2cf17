/** What the request log holds of a connection is what the connection's bytes mean. */
module Traces {
  import opened Wire
  import opened Framing
  import opened Session
  import opened SessionInvariants
  import opened SessionProperties
  import opened SensorProtocol

  /** The requests of one connection, in order. */
  function RequestsOf(log: seq<Entry>, e: nat): seq<Request> {
    if log == [] then []
    else
      var n := |log| - 1;
      RequestsOf(log[..n], e) + if log[n].conn == e then [log[n].request] else []
  }

  /** What a message becomes on a connection; the listener closes the connection for any other. */
  function RequestFrom(frame: Session.Frame, conn: Conn): Option<Request> {
    match frame
    case InitFrame(token) => Some(Connected(conn.slot, conn.ip, conn.port, token))
    case MeasureFrame(timestamp, value) => Some(Measured(conn.slot, value, Seconds(timestamp)))
    case UnknownFrame => None
  }

  /** `beyond` is the memory behind a measurement that is too short. */
  ghost predicate Reads(msg: seq<byte>, frame: Session.Frame) {
    |msg| > 0 && exists beyond: seq<byte> :: |beyond| >= 12 && ParseFrame(msg, beyond) == frame
  }

  ghost predicate Becomes(msg: seq<byte>, request: Request, conn: Conn) {
    exists frame :: Reads(msg, frame) && RequestFrom(frame, conn) == Some(request)
  }

  ghost predicate AllBecome(msgs: seq<seq<byte>>, requests: seq<Request>, conn: Conn) {
    |requests| == |msgs| && forall i :: 0 <= i < |msgs| ==> Becomes(msgs[i], requests[i], conn)
  }

  predicate Unknown(msg: seq<byte>) {
    |msg| > 0 && msg[0] != 105 && msg[0] != 109
  }

  /** Without a last message that the listener did not recognize. */
  function Known(msgs: seq<seq<byte>>): seq<seq<byte>> {
    if msgs != [] && Unknown(msgs[|msgs| - 1]) then msgs[..|msgs| - 1] else msgs
  }

  /** A connection has queued exactly the requests that the messages in its bytes become, and, if it
      is closed, its goodbye; a message that the listener does not recognize is its last. */
  ghost predicate TracedConn(st: State, stream: seq<byte>, e: nat)
    requires e < |st.conns|
  {
    var conn, requests := st.conns[e], RequestsOf(st.log, e);
    if conn.closedAt == None then
      AllBecome(Decode(stream).msgs, requests, conn)
    else
      requests != [] && requests[|requests| - 1] == Disconnected(conn.slot)
      && AllBecome(Known(Decode(stream).msgs), requests[..|requests| - 1], conn)
  }

  /** So it is for every connection that there has been, `streams` being the bytes taken from each. */
  ghost predicate Traced(st: State, streams: seq<seq<byte>>) {
    |streams| == |st.conns| && forall e :: 0 <= e < |st.conns| ==> TracedConn(st, streams[e], e)
  }

  // ---- requests of a growing log ----

  lemma RequestsOfNext(log: seq<Entry>, entry: Entry, e: nat)
    ensures RequestsOf(log + [entry], e) == RequestsOf(log, e) + if entry.conn == e then [entry.request] else []
  {
    assert (log + [entry])[..|log|] == log;
  }

  lemma OtherRequestsStay(log: seq<Entry>, entry: Entry, e: nat)
    requires entry.conn != e
    ensures RequestsOf(log + [entry], e) == RequestsOf(log, e)
  {
    RequestsOfNext(log, entry, e);
    assert RequestsOf(log, e) + [] == RequestsOf(log, e);
  }

  lemma {:induction false} NoRequests(log: seq<Entry>, e: nat)
    requires forall k :: 0 <= k < |log| ==> log[k].conn != e
    ensures RequestsOf(log, e) == []
  {
    if log != [] {
      NoRequests(log[..|log| - 1], e);
    }
  }

  // ---- steps that bring no bytes ----

  lemma SameLogKeepsTraced(st: State, st': State, streams: seq<seq<byte>>)
    requires Traced(st, streams) && st'.conns == st.conns && st'.log == st.log
    ensures Traced(st', streams)
  {
    forall e | 0 <= e < |st.conns|
      ensures TracedConn(st', streams[e], e)
    {
      assert TracedConn(st, streams[e], e);
    }
  }

  lemma KnownOfRequests(msgs: seq<seq<byte>>, requests: seq<Request>, conn: Conn)
    requires AllBecome(msgs, requests, conn)
    ensures Known(msgs) == msgs
  {
    if msgs != [] {
      var n := |msgs| - 1;
      assert Becomes(msgs[n], requests[n], conn);
    }
  }

  lemma CloseKeepsTraced(st: State, c: int, streams: seq<seq<byte>>)
    requires Traced(st, streams) && ConnInv(st)
    ensures Traced(DisconnectClient(st, c), streams)
  {
    hide LogInv, TurnsInv, Decode, AllBecome, Known;
    if IsLive(st.slots, c) {
      var st', f := Close(st, c), st.slots[c].conn;
      forall e | 0 <= e < |st.conns|
        ensures TracedConn(st', streams[e], e)
      {
        assert TracedConn(st, streams[e], e);
        if e == f {
          RequestsOfNext(st.log, Entry(Disconnected(c), f), e);
          KnownOfRequests(Decode(streams[e]).msgs, RequestsOf(st.log, e), st.conns[e]);
          BecomesOnClosing(Decode(streams[e]).msgs, RequestsOf(st.log, e), st.conns[e], st'.conns[e]);
          assert RequestsOf(st'.log, e)[..|RequestsOf(st.log, e)|] == RequestsOf(st.log, e);
        } else {
          OtherRequestsStay(st.log, Entry(Disconnected(c), f), e);
        }
      }
    }
  }

  lemma BecomesOnClosing(msgs: seq<seq<byte>>, requests: seq<Request>, conn: Conn, conn': Conn)
    requires AllBecome(msgs, requests, conn)
    requires conn'.slot == conn.slot && conn'.ip == conn.ip && conn'.port == conn.port
    ensures AllBecome(msgs, requests, conn')
  {
    forall i | 0 <= i < |msgs|
      ensures Becomes(msgs[i], requests[i], conn')
    {
      var frame :| Reads(msgs[i], frame) && RequestFrom(frame, conn) == Some(requests[i]);
      assert RequestFrom(frame, conn') == Some(requests[i]);
    }
  }

  lemma SendKeepsTraced(st: State, c: int, reply: Reply, streams: seq<seq<byte>>)
    requires Traced(st, streams)
    ensures Traced(Send(st, c, reply), streams)
  {
    SameLogKeepsTraced(st, Send(st, c, reply), streams);
  }

  lemma KillKeepsTraced(st: State, c: int, reason: int32, streams: seq<seq<byte>>)
    requires Traced(st, streams) && ConnInv(st)
    ensures Traced(KillSensor(st, c, reason), streams)
  {
    hide Traced, SlotsInv, LogInv, TurnsInv, DisconnectClient;
    SendKeepsTraced(st, c, Rejected(reason), streams);
    CloseKeepsTraced(Send(st, c, Rejected(reason)), c, streams);
  }

  lemma ExecutionKeepsTraced(st: State, serverTime: int64, streams: seq<seq<byte>>)
    requires Traced(st, streams) && ConnInv(st)
    ensures Traced(Execute(st, serverTime), streams)
  {
    hide Traced, ConnInv, KillSensor, Activate;
    var st' := Execute(st, serverTime);
    if |st.verdicts| < |st.log| {
      var c := st.log[|st.verdicts|].request.clientId;
      RejectionKeepsTraced(st, c, KILL_SENSOR_INCORRECT_TOKEN, streams);
      RejectionKeepsTraced(st, c, KILL_SENSOR_TOKEN_ACTIVE, streams);
      if st'.log == st.log && st'.conns == st.conns {
        SameLogKeepsTraced(st, st', streams);
      }
    }
  }

  lemma RejectionKeepsTraced(st: State, c: int, reason: int32, streams: seq<seq<byte>>)
    requires Traced(st, streams) && ConnInv(st)
    ensures Traced(Judge(KillSensor(st, c, reason), None), streams)
  {
    hide Traced, ConnInv, KillSensor;
    KillKeepsTraced(st, c, reason, streams);
    SameLogKeepsTraced(KillSensor(st, c, reason), Judge(KillSensor(st, c, reason), None), streams);
  }

  lemma AdminKillKeepsTraced(st: State, id: int32, rows: Rows, reason: int32, streams: seq<seq<byte>>)
    requires Traced(st, streams) && ConnInv(st)
    ensures Traced(AdminKill(st, id, rows, reason), streams)
  {
    hide Traced, KillSensor, SlotsInv, LogInv, TurnsInv;
    var updated, c := st.(rows := rows), RegisteredClient(st, id);
    SameLogKeepsTraced(st, updated, streams);
    KillKeepsTraced(updated, c, reason, streams);
    if id in st.rows {
      SameLogKeepsTraced(KillSensor(updated, c, reason), AdminKill(st, id, rows, reason), streams);
    }
  }

  /** A new connection has sent nothing and queued nothing. */
  lemma AcceptKeepsTraced(st: State, ip: Text, port: int32, streams: seq<seq<byte>>)
    requires Traced(st, streams) && ConnInv(st) && st.armed && 0 <= st.freeHandler < |st.slots|
    ensures Traced(Accept(st, ip, port), streams + [[]])
  {
    hide SlotsInv, TurnsInv;
    var st', n := Accept(st, ip, port), |st.conns|;
    forall e | 0 <= e < |st'.conns|
      ensures TracedConn(st', (streams + [[]])[e], e)
    {
      if e < n {
        assert TracedConn(st, streams[e], e);
      } else {
        forall k | 0 <= k < |st.log|
          ensures st.log[k].conn != n
        {
          assert EntryInv(st.conns, st.log, k);
        }
        NoRequests(st.log, n);
      }
    }
  }

  // ---- bytes ----

  /** Bytes that complete no message. */
  lemma BytesKeepTraced(st: State, slot: nat, streams: seq<seq<byte>>, stream: seq<byte>)
    requires Traced(st, streams) && ConnInv(st) && IsLive(st.slots, slot)
    requires Decode(stream).msgs == Decode(streams[st.slots[slot].conn]).msgs
    ensures Traced(st, streams[st.slots[slot].conn := stream])
  {
    hide Decode, LogInv, TurnsInv;
    var streams' := streams[st.slots[slot].conn := stream];
    forall e | 0 <= e < |st.conns|
      ensures TracedConn(st, streams'[e], e)
    {
      assert TracedConn(st, streams[e], e);
    }
  }

  lemma PushKeepsTraced(
    st: State, slot: nat, request: Request, msg: seq<byte>, streams: seq<seq<byte>>, stream: seq<byte>)
    requires Traced(st, streams) && ConnInv(st) && IsLive(st.slots, slot)
    requires Becomes(msg, request, st.conns[st.slots[slot].conn])
    requires Decode(stream).msgs == Decode(streams[st.slots[slot].conn]).msgs + [msg]
    ensures Traced(Push(st, slot, request), streams[st.slots[slot].conn := stream])
  {
    hide Decode, LogInv, TurnsInv, Becomes;
    var st', f := Push(st, slot, request), st.slots[slot].conn;
    var streams' := streams[f := stream];
    forall e | 0 <= e < |st.conns|
      ensures TracedConn(st', streams'[e], e)
    {
      assert TracedConn(st, streams[e], e);
      if e == f {
        RequestsOfNext(st.log, Entry(request, f), e);
      } else {
        OtherRequestsStay(st.log, Entry(request, f), e);
      }
    }
  }

  /** The listener closes a connection for a message that it does not recognize. */
  lemma UnknownKeepsTraced(st: State, slot: nat, msg: seq<byte>, streams: seq<seq<byte>>, stream: seq<byte>)
    requires Traced(st, streams) && ConnInv(st) && IsLive(st.slots, slot) && Unknown(msg)
    requires Decode(stream).msgs == Decode(streams[st.slots[slot].conn]).msgs + [msg]
    ensures Traced(Close(st, slot), streams[st.slots[slot].conn := stream])
  {
    hide Decode, LogInv, TurnsInv, AllBecome, Unknown;
    var st', f := Close(st, slot), st.slots[slot].conn;
    var streams' := streams[f := stream];
    forall e | 0 <= e < |st.conns|
      ensures TracedConn(st', streams'[e], e)
    {
      assert TracedConn(st, streams[e], e);
      if e == f {
        RequestsOfNext(st.log, Entry(Disconnected(slot), f), e);
        BecomesOnClosing(Decode(streams[e]).msgs, RequestsOf(st.log, e), st.conns[e], st'.conns[e]);
        assert Known(Decode(stream).msgs) == Decode(streams[e]).msgs;
        assert RequestsOf(st'.log, e)[..|RequestsOf(st.log, e)|] == RequestsOf(st.log, e);
      } else {
        OtherRequestsStay(st.log, Entry(Disconnected(slot), f), e);
      }
    }
  }

  /** The listener receives the message that a connection's latest bytes complete. */
  lemma ReceiveKeepsTraced(
    st: State, slot: nat, msg: seq<byte>, beyond: seq<byte>, streams: seq<seq<byte>>, stream: seq<byte>)
    requires Traced(st, streams) && Inv(st) && IsLive(st.slots, slot) && |msg| > 0 && |beyond| >= 12
    requires Decode(stream).msgs == Decode(streams[st.slots[slot].conn]).msgs + [msg]
    ensures Traced(Receive(st, slot, ParseFrame(msg, beyond)), streams[st.slots[slot].conn := stream])
  {
    hide LogInv, TurnsInv, ScanInv, ReplayInv, VerdictInv, DbInv, Traced, Decode, Parse32, Parse64;
    var frame, conn := ParseFrame(msg, beyond), st.conns[st.slots[slot].conn];
    assert Reads(msg, frame);
    match frame
    case InitFrame(token) =>
      assert RequestFrom(frame, conn) == Some(Connected(slot, conn.ip, conn.port, token));
      PushKeepsTraced(st, slot, Connected(slot, conn.ip, conn.port, token), msg, streams, stream);
    case MeasureFrame(timestamp, value) =>
      assert RequestFrom(frame, conn) == Some(Measured(slot, value, Seconds(timestamp)));
      SendKeepsTraced(st, slot, Confirmed(timestamp), streams);
      PushKeepsTraced(Send(st, slot, Confirmed(timestamp)), slot, Measured(slot, value, Seconds(timestamp)), msg,
                      streams, stream);
    case UnknownFrame =>
      UnknownKeepsTraced(st, slot, msg, streams, stream);
  }

  // ---- from a stored measurement back to bytes ----

  /** Where a log entry is among its connection's requests. */
  lemma {:induction false} PlaceOfEntry(log: seq<Entry>, i: nat)
    requires i < |log|
    ensures var e := log[i].conn; var place := |RequestsOf(log[..i], e)|;
      place < |RequestsOf(log, e)| && RequestsOf(log, e)[place] == log[i].request
  {
    var n, e := |log| - 1, log[i].conn;
    if i < n {
      PlaceOfEntry(log[..n], i);
      assert log[..n][..i] == log[..i];
    }
  }

  lemma {:induction false} PlacesInOrder(log: seq<Entry>, j: nat, i: nat)
    requires j < i <= |log|
    ensures |RequestsOf(log[..j], log[j].conn)| < |RequestsOf(log[..i], log[j].conn)|
  {
    PlaceOfEntry(log[..i], j);
    assert log[..i][..j] == log[..j] && log[..i][j] == log[j];
  }

  /** The message behind a request that is not a goodbye. */
  lemma MessageBehind(st: State, stream: seq<byte>, e: nat, place: nat)
    requires e < |st.conns| && TracedConn(st, stream, e) && place < |RequestsOf(st.log, e)|
    requires !RequestsOf(st.log, e)[place].Disconnected?
    ensures place < |Decode(stream).msgs|
    ensures Becomes(Decode(stream).msgs[place], RequestsOf(st.log, e)[place], st.conns[e])
  {
    hide Decode, Becomes, RequestsOf, Unknown;
    var requests := RequestsOf(st.log, e);
    if st.conns[e].closedAt != None {
      assert requests[..|requests| - 1][place] == requests[place];
    }
  }

  ghost predicate ReadsInit(msg: seq<byte>, token: Text) {
    Reads(msg, InitFrame(token))
  }

  ghost predicate ReadsMeasurement(msg: seq<byte>, value: int32, timestamp: int32) {
    exists t: int64 :: Reads(msg, MeasureFrame(t, value)) && timestamp == Int32(Seconds(t))
  }

  /** Message m of a connection's bytes is the measurement, and an earlier one a token of its sensor. */
  ghost predicate ComesFrom(st: State, measurement: Stored, msgs: seq<seq<byte>>, n: nat, m: nat) {
    && n < m < |msgs|
    && ReadsMeasurement(msgs[m], measurement.value, measurement.timestamp)
    && exists token :: ReadsInit(msgs[n], token) && Names(st.rows, token, measurement.sensorId)
  }

  /** Every stored measurement goes back to two messages in the bytes of one connection: the
      measurement, and before it the token of the sensor it is stored under. */
  lemma MeasurementComesFromBytes(st: State, streams: seq<seq<byte>>, k: nat) returns (e: nat, n: nat, m: nat)
    requires Inv(st) && Traced(st, streams) && k < |st.stored|
    ensures e < |streams| && ComesFrom(st, st.stored[k], Decode(streams[e]).msgs, n, m)
  {
    hide ScanInv, ReplayInv, VerdictInv, DbInv, SlotsInv, TurnsInv, Decode, TracedConn;
    var i, j := SourceOfMeasurement(st, k);
    e := st.log[i].conn;
    assert EntryInv(st.conns, st.log, i) && TracedConn(st, streams[e], e);
    n, m := |RequestsOf(st.log[..j], e)|, |RequestsOf(st.log[..i], e)|;
    PlaceOfEntry(st.log, i);
    PlaceOfEntry(st.log, j);
    PlacesInOrder(st.log, j, i);
    MessageBehind(st, streams[e], e, m);
    MessageBehind(st, streams[e], e, n);
    ReadsOfMeasured(Decode(streams[e]).msgs[m], st.log[i].request, st.conns[e]);
    ReadsOfConnected(Decode(streams[e]).msgs[n], st.log[j].request, st.conns[e]);
  }

  lemma ReadsOfMeasured(msg: seq<byte>, request: Request, conn: Conn)
    requires Becomes(msg, request, conn) && request.Measured?
    ensures ReadsMeasurement(msg, request.value, Int32(request.timestamp))
  {
    hide Reads;
    var frame :| Reads(msg, frame) && RequestFrom(frame, conn) == Some(request);
    assert frame.MeasureFrame?;
  }

  lemma ReadsOfConnected(msg: seq<byte>, request: Request, conn: Conn)
    requires Becomes(msg, request, conn) && request.Connected?
    ensures ReadsInit(msg, request.token)
  {
    hide Reads;
    var frame :| Reads(msg, frame) && RequestFrom(frame, conn) == Some(request);
    assert frame.InitFrame?;
  }
}
