/** The sensor session protocol as a state machine: connection slots that are reused, the queue
    between the network thread and the sensor executor, the two maps between connections and
    sensors, and the database rows.  One action is one step of one thread. */
module Session {
  import opened Wire

  type Text = seq<byte>

  /** A slot's connection: `conn` numbers connections in the order of acceptance. */
  datatype Slot = Free | Live(conn: nat, ip: Text, port: int32)

  /** What SensorListener makes of a received message. */
  datatype Frame = InitFrame(token: Text) | MeasureFrame(timestamp: int64, value: int32) | UnknownFrame

  datatype Request =
    | Measured(clientId: int, value: int32, timestamp: int64)
    | Connected(clientId: int, ip: Text, port: int32, token: Text)
    | Disconnected(clientId: int)

  datatype Reply = Confirmed(timestamp: int64) | Accepted(serverTime: int64) | Rejected(reason: int32)

  const KILL_SENSOR_REVOKED: int32 := 1
  const KILL_SENSOR_DISCONNECTED: int32 := 2
  const KILL_SENSOR_INCORRECT_TOKEN: int32 := 3
  const KILL_SENSOR_TOKEN_ACTIVE: int32 := 4

  /** `Fresh` is whatever the database gives a new row: none of the three the server writes. */
  datatype Status = Fresh | Active | Inactive | Revoked
  datatype Row = Row(name: Text, token: Text, status: Status, ip: Text, port: int32)
  type Rows = map<int32, Row>

  datatype Stored = Stored(sensorId: int32, value: int32, timestamp: int32)

  // ---- history ----

  /** A request in the sensor queue, and the connection it is about. */
  datatype Entry = Entry(request: Request, conn: nat)

  /** The slot and the address of a connection, and where in the log its disconnection is. */
  datatype Conn = Conn(slot: int, ip: Text, port: int32, closedAt: Option<nat>)

  datatype Sent = Sent(conn: nat, reply: Reply)

  datatype State = State(
    slots: seq<Slot>,
    freeHandler: int,                // the slot chosen before select, and
    armed: bool,                     // whether it still waits for a connection
    c2s: map<int, int32>,            // clientToSensorId
    s2c: map<int32, int>,            // sensorToClientId
    rows: Rows,
    stored: seq<Stored>,
    conns: seq<Conn>,
    log: seq<Entry>,                 // everything ever pushed; the queue is log[|verdicts|..]
    verdicts: seq<Option<int32>>,    // per processed request: the sensor it registered, if any
    sent: seq<Sent>,
    scannedAt: nat,                  // the length of the log when freeHandler was chosen
    adminKills: nat)

  // ---- the network thread ----

  predicate IsLive(slots: seq<Slot>, c: int) {
    0 <= c < |slots| && slots[c].Live?
  }

  /** ClientsHandler::getFreeHandler from slot i on. */
  function FirstFree(slots: seq<Slot>, i: nat): (r: int)
    ensures r == -1 || (i <= r < |slots| && slots[r].Free?)
    ensures forall k :: i <= k < (if r == -1 then |slots| else r) ==> slots[k].Live?
    decreases |slots| - i
  {
    if i >= |slots| then -1 else if slots[i].Free? then i else FirstFree(slots, i + 1)
  }

  /** The top of the handling loop. */
  function Scan(st: State): State {
    var f := FirstFree(st.slots, 0);
    st.(freeHandler := f, armed := f >= 0, scannedAt := |st.log|)
  }

  /** tryAccept and bindHandler. */
  function Accept(st: State, ip: Text, port: int32): State {
    if st.armed && 0 <= st.freeHandler < |st.slots| then
      st.(slots := st.slots[st.freeHandler := Live(|st.conns|, ip, port)],
          conns := st.conns + [Conn(st.freeHandler, ip, port, None)],
          armed := false)
    else st
  }

  function Push(st: State, c: int, request: Request): State
    requires IsLive(st.slots, c)
  {
    st.(log := st.log + [Entry(request, st.slots[c].conn)])
  }

  /** disconnectHandler: the slot is free, and the listener queues the disconnection. */
  function Close(st: State, c: int): State
    requires IsLive(st.slots, c)
  {
    var e := st.slots[c].conn;
    Push(st, c, Disconnected(c)).(
      slots := st.slots[c := Free],
      conns := if e < |st.conns| then st.conns[e := st.conns[e].(closedAt := Some(|st.log|))] else st.conns)
  }

  function DisconnectClient(st: State, c: int): State {
    if IsLive(st.slots, c) then Close(st, c) else st
  }

  function Send(st: State, c: int, reply: Reply): State {
    if IsLive(st.slots, c) then st.(sent := st.sent + [Sent(st.slots[c].conn, reply)]) else st
  }

  /** SensorListener::onGotRequest */
  function Receive(st: State, c: int, frame: Frame): State {
    if !IsLive(st.slots, c) then st
    else
      match frame
      case InitFrame(token) => Push(st, c, Connected(c, st.slots[c].ip, st.slots[c].port, token))
      case MeasureFrame(timestamp, value) =>
        Push(Send(st, c, Confirmed(timestamp)), c, Measured(c, value, Seconds(timestamp)))
      case UnknownFrame => DisconnectClient(st, c)
  }

  /** C++ division truncates toward zero. */
  function Seconds(timestamp: int64): (s: int64)
    ensures timestamp >= 0 ==> 1000 * s <= timestamp < 1000 * (s + 1)
    ensures timestamp <= 0 ==> 1000 * (s - 1) < timestamp <= 1000 * s
  {
    var t: int := timestamp;
    if t >= 0 then t / 1000 else -(-t / 1000)
  }

  // ---- the database ----

  predicate Names(rows: Rows, token: Text, id: int32) {
    id in rows && rows[id].token == token
  }

  ghost predicate TokenExists(rows: Rows, token: Text) {
    exists id :: Names(rows, token, id)
  }

  /** SELECT id FROM sensors WHERE token = ... */
  ghost function SensorId(rows: Rows, token: Text): (id: int32)
    requires TokenExists(rows, token)
    ensures Names(rows, token, id)
  {
    var id :| Names(rows, token, id);
    id
  }

  /** The UPDATE of addSensor, on every matching row. */
  function Activate(rows: Rows, ip: Text, port: int32, token: Text): Rows {
    map id | id in rows ::
      if rows[id].token == token && rows[id].status != Revoked
      then rows[id].(ip := ip, port := port, status := Active) else rows[id]
  }

  function Deactivate(rows: Rows, id: int32): Rows {
    if id in rows && rows[id].status != Revoked then rows[id := rows[id].(status := Inactive)] else rows
  }

  function Revoke(rows: Rows, id: int32): Rows {
    if id in rows then rows[id := rows[id].(status := Revoked)] else rows
  }

  function Rename(rows: Rows, id: int32, name: Text): Rows {
    if id in rows then rows[id := rows[id].(name := name)] else rows
  }

  // ---- the sensor executor ----

  function KillSensor(st: State, c: int, reason: int32): State {
    DisconnectClient(Send(st, c, Rejected(reason)), c)
  }

  function Judge(st: State, verdict: Option<int32>): State {
    st.(verdicts := st.verdicts + [verdict])
  }

  /** The three executeSensorRequest overloads on the next queued request.  A query that finds
      no row throws, which ends the request. */
  ghost function Execute(st: State, serverTime: int64): State {
    if |st.verdicts| >= |st.log| then st
    else
      match st.log[|st.verdicts|].request
      case Measured(c, value, timestamp) =>
        if c in st.c2s then
          Judge(st, None).(stored := st.stored + [Stored(st.c2s[c], value, Int32(timestamp))])
        else Judge(st, None)
      case Connected(c, ip, port, token) =>
        if !TokenExists(st.rows, token) then Judge(st, None)
        else
          var id := SensorId(st.rows, token);
          if st.rows[id].status == Revoked then Judge(KillSensor(st, c, KILL_SENSOR_INCORRECT_TOKEN), None)
          else if id in st.s2c then Judge(KillSensor(st, c, KILL_SENSOR_TOKEN_ACTIVE), None)
          else
            Send(Judge(st, Some(id)).(
                   rows := Activate(st.rows, ip, port, token),
                   c2s := st.c2s[c := id],
                   s2c := st.s2c[id := c]), c, Accepted(serverTime))
      case Disconnected(c) =>
        if c in st.c2s then
          Judge(st, None).(
            rows := Deactivate(st.rows, st.c2s[c]),
            s2c := st.s2c - {st.c2s[c]},
            c2s := st.c2s - {c})
        else Judge(st, None)
  }

  // ---- the administrator executor ----

  /** sensorToClientId[id]: a missing key reads as client 0. */
  function RegisteredClient(st: State, id: int32): int {
    if id in st.s2c then st.s2c[id] else 0
  }

  /** Revoking or disconnecting a sensor: the row, then the kill, then the map. */
  function AdminKill(st: State, id: int32, rows: Rows, reason: int32): State {
    if id !in st.rows then st
    else
      KillSensor(st.(rows := rows), RegisteredClient(st, id), reason).(
        s2c := st.s2c - {id}, adminKills := st.adminKills + 1)
  }

  /** A token that checkIfTokenExists does not find, and the key the database picks. */
  ghost function AddRow(st: State, token: Text, id: int32): State {
    if TokenExists(st.rows, token) || id in st.rows then st
    else st.(rows := st.rows[id := Row([], token, Fresh, [], 0)])
  }

  // ---- runs ----

  datatype Action =
    | ScanSlots
    | AcceptConnection(ip: Text, port: int32)
    | ReceiveFrame(clientId: int, frame: Frame)
    | PeerCloses(clientId: int)
    | ExecuteNext(serverTime: int64)
    | RevokeSensor(id: int32)
    | DisconnectSensor(id: int32)
    | RenameSensor(id: int32, name: Text)
    | GenerateToken(token: Text, id: int32)

  ghost function Step(st: State, a: Action): State {
    match a
    case ScanSlots => Scan(st)
    case AcceptConnection(ip, port) => Accept(st, ip, port)
    case ReceiveFrame(c, frame) => Receive(st, c, frame)
    case PeerCloses(c) => DisconnectClient(st, c)
    case ExecuteNext(serverTime) => Execute(st, serverTime)
    case RevokeSensor(id) => AdminKill(st, id, Revoke(st.rows, id), KILL_SENSOR_REVOKED)
    case DisconnectSensor(id) => AdminKill(st, id, Deactivate(st.rows, id), KILL_SENSOR_DISCONNECTED)
    case RenameSensor(id, name) => st.(rows := Rename(st.rows, id, name))
    case GenerateToken(token, id) => AddRow(st, token, id)
  }

  ghost function Run(st: State, actions: seq<Action>): State
    decreases |actions|
  {
    if actions == [] then st else Run(Step(st, actions[0]), actions[1..])
  }

  /** Nobody is connected, the maps are empty, and no row is left active from an earlier life. */
  ghost predicate Initial(st: State) {
    && (forall i :: 0 <= i < |st.slots| ==> st.slots[i].Free?)
    && !st.armed && st.c2s == map[] && st.s2c == map[] && st.stored == []
    && st.conns == [] && st.log == [] && st.verdicts == [] && st.sent == []
    && st.scannedAt == 0 && st.adminKills == 0
    && TokensDistinct(st.rows)
    && (forall id <- st.rows :: st.rows[id].status != Active)
  }

  ghost predicate TokensDistinct(rows: Rows) {
    forall a, b, token :: Names(rows, token, a) && Names(rows, token, b) ==> a == b
  }

  // ---- what the processed part of the log means ----

  /** The sensor that client c stands for after these requests: set by an accepted init,
      cleared by a disconnection. */
  function Registration(done: seq<Entry>, verdicts: seq<Option<int32>>, c: int): Option<int32>
    requires |done| == |verdicts|
  {
    if done == [] then None
    else
      var n := |done| - 1;
      if done[n].request.clientId != c then Registration(done[..n], verdicts[..n], c)
      else if done[n].request.Disconnected? then None
      else if verdicts[n] != None then verdicts[n]
      else Registration(done[..n], verdicts[..n], c)
  }

  /** The measurements that these requests store: each under its client's registration. */
  function Attributed(done: seq<Entry>, verdicts: seq<Option<int32>>): (r: seq<Stored>)
    requires |done| == |verdicts|
    ensures |r| <= |done|
  {
    if done == [] then []
    else
      var n := |done| - 1;
      var before, request := Attributed(done[..n], verdicts[..n]), done[n].request;
      var sensor := Registration(done[..n], verdicts[..n], request.clientId);
      if request.Measured? && sensor != None then
        before + [Stored(sensor.value, request.value, Int32(request.timestamp))]
      else before
  }
}
