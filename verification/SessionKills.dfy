/** Whom the kills and the replies of the session protocol reach: slots are reused, and a client id
    names whatever connection has the slot when the id is used. */
module SessionKills {
  import opened Wire
  import opened Session
  import opened SessionInvariants
  import opened SessionProperties
  import opened SessionAddresses

  /** No connection but these is closed or gets a reply. */
  ghost predicate OnlyTouches(st: State, st': State, these: set<nat>) {
    && |st'.conns| == |st.conns| && st.sent <= st'.sent
    && (forall e: nat :: e < |st.conns| && e !in these ==> st'.conns[e] == st.conns[e])
    && (forall k :: |st.sent| <= k < |st'.sent| ==> st'.sent[k].conn in these)
  }

  lemma KillOnlyTouchesIff(st: State, c: int, reason: int32, these: set<nat>)
    requires ConnInv(st)
    ensures OnlyTouches(st, KillSensor(st, c, reason), these) <==> !IsLive(st.slots, c) || st.slots[c].conn in these
  {
    var st' := KillSensor(st, c, reason);
    if IsLive(st.slots, c) {
      var e := st.slots[c].conn;
      assert st'.sent == st.sent + [Sent(e, Rejected(reason))];
      assert st'.sent[|st.sent|].conn == e;
      assert st'.conns == st.conns[e := st.conns[e].(closedAt := Some(|st.log|))];
    }
  }

  // ---- administrators ----

  /** The connection that registered sensor id, if the sensor is registered. */
  ghost function SensorsConnection(st: State, id: int32): (these: set<nat>)
    ensures |these| <= 1
  {
    if id in st.s2c && Registrar(st.verdicts, id) != None && |st.verdicts| <= |st.log|
    then {st.log[Registrar(st.verdicts, id).value].conn} else {}
  }

  /** The kill touches no connection but the sensor's own exactly when nobody is in the slot that
      the map gives, or the sensor is registered and the one that registered it is there still. */
  lemma AdminKillTouchesIff(st: State, id: int32, rows: Rows, reason: int32)
    requires Inv(st) && id in st.rows
    ensures var c := RegisteredClient(st, id);
      OnlyTouches(st, AdminKill(st, id, rows, reason), SensorsConnection(st, id)) <==>
      !IsLive(st.slots, c) || (id in st.s2c && st.slots[c].conn in SensorsConnection(st, id))
  {
    hide ScanInv, ReplayInv, VerdictInv, DbInv, SlotsInv, LogInv, TurnsInv, KillSensor, SensorsConnection;
    var updated := st.(rows := rows);
    KillOnlyTouchesIff(updated, RegisteredClient(st, id), reason, SensorsConnection(st, id));
    if id !in st.s2c {
      UnregisteredHasNone(st, id);
    }
  }

  lemma UnregisteredHasNone(st: State, id: int32)
    requires id !in st.s2c
    ensures SensorsConnection(st, id) == {}
  {
  }

  /** In a state that the invariants hold of, a registered sensor has one such connection, of the slot
      that the map gives; it is there exactly as long as it is open. */
  lemma SensorsConnectionIsThereIff(st: State, id: int32) returns (e: nat)
    requires Inv(st) && AddressInv(st) && id in st.s2c
    ensures e < |st.conns| && SensorsConnection(st, id) == {e} && st.conns[e].slot == st.s2c[id]
    ensures IsLive(st.slots, st.s2c[id]) && st.slots[st.s2c[id]].conn == e <==> st.conns[e].closedAt == None
  {
    hide ScanInv, ReplayInv, VerdictInv, DbInv, Registrar;
    assert RegisteredByRegistrar(st, id);
    var j := Registrar(st.verdicts, id).value;
    e := st.log[j].conn;
    assert EntryInv(st.conns, st.log, j);
  }

  /** What an administrator's kill of sensor id touches: of an unregistered sensor, nobody exactly if
      slot 0 is empty, because it reads as client 0; of a registered one, nobody but the connection
      that registered it exactly if that connection is still open or its slot is empty, because its
      slot may be taken while its goodbye is still queued. */
  ghost predicate HitsOnlyItsClientIff(st: State, st': State, id: int32) {
    if id !in st.s2c then
      OnlyTouches(st, st', {}) <==> !IsLive(st.slots, 0)
    else
      exists e: nat :: e < |st.conns| && SensorsConnection(st, id) == {e} && st.conns[e].slot == st.s2c[id]
        && (OnlyTouches(st, st', {e}) <==> st.conns[e].closedAt == None || !IsLive(st.slots, st.s2c[id]))
  }

  /** So it is in every reachable state, for revoking and for disconnecting. */
  lemma AdminKillHitsOnlyItsClientIff(start: State, actions: seq<Action>, id: int32, a: Action)
    requires Initial(start) && id in Run(start, actions).rows && (a == RevokeSensor(id) || a == DisconnectSensor(id))
    ensures HitsOnlyItsClientIff(Run(start, actions), Step(Run(start, actions), a), id)
  {
    hide Run, Inv, AdminKill, AddressInv, OnlyTouches, SensorsConnection, Revoke, Deactivate;
    var st := Run(start, actions);
    InitialInv(start);
    RunKeepsInv(start, actions);
    ReachableAddressInv(start, actions);
    AdminKillTouchesIff(st, id, Revoke(st.rows, id), KILL_SENSOR_REVOKED);
    AdminKillTouchesIff(st, id, Deactivate(st.rows, id), KILL_SENSOR_DISCONNECTED);
    if id in st.s2c {
      var e := SensorsConnectionIsThereIff(st, id);
    } else {
      UnregisteredHasNone(st, id);
    }
  }

  lemma ReachableAddressInv(start: State, actions: seq<Action>)
    requires Initial(start)
    ensures AddressInv(Run(start, actions))
  {
    hide Run;
    AddressIsTheConnections(start, actions);
  }

  // ---- rejected and accepted inits ----

  lemma RejectionTouchesIff(st: State, serverTime: int64, id: int32)
    requires Inv(st) && NextRejected(st, id)
    ensures var entry := st.log[|st.verdicts|]; var c := entry.request.clientId;
      OnlyTouches(st, Execute(st, serverTime), {entry.conn}) <==>
      !IsLive(st.slots, c) || st.slots[c].conn == entry.conn
  {
    hide ScanInv, ReplayInv, VerdictInv, DbInv, SlotsInv, LogInv, TurnsInv, KillSensor;
    var entry := st.log[|st.verdicts|];
    KillOnlyTouchesIff(st, entry.request.clientId, KILL_SENSOR_INCORRECT_TOKEN, {entry.conn});
    KillOnlyTouchesIff(st, entry.request.clientId, KILL_SENSOR_TOKEN_ACTIVE, {entry.conn});
  }

  /** In every reachable state: executing a rejected init touches nobody but its sender exactly when
      the sender is still open or its slot is empty; by the time the request is processed the slot
      may have been reused. */
  lemma RejectionHitsOnlyItsSenderIff(start: State, actions: seq<Action>, serverTime: int64, id: int32)
    requires Initial(start) && NextRejected(Run(start, actions), id)
    ensures var st := Run(start, actions); var entry := st.log[|st.verdicts|];
      && entry.conn < |st.conns| && st.conns[entry.conn].slot == entry.request.clientId
      && (OnlyTouches(st, Step(st, ExecuteNext(serverTime)), {entry.conn}) <==>
            st.conns[entry.conn].closedAt == None || !IsLive(st.slots, entry.request.clientId))
  {
    hide Run, ScanInv, ReplayInv, VerdictInv, DbInv, TurnsInv, Execute, OnlyTouches;
    var st := Run(start, actions);
    InitialInv(start);
    RunKeepsInv(start, actions);
    assert EntryInv(st.conns, st.log, |st.verdicts|);
    RejectionTouchesIff(st, serverTime, id);
  }

  /** What the executor answers to an init. */
  ghost function Answer(st: State, id: int32, serverTime: int64): Reply
    requires NextNames(st, id)
  {
    if st.rows[id].status == Revoked then Rejected(KILL_SENSOR_INCORRECT_TOKEN)
    else if id in st.s2c then Rejected(KILL_SENSOR_TOKEN_ACTIVE)
    else Accepted(serverTime)
  }

  /** The answer goes to whoever has the slot; that is the sender exactly as long as the sender is
      open, and otherwise a connection accepted later, or nobody. */
  lemma AnswerReachesItsSenderIff(st: State, serverTime: int64, id: int32)
    requires Inv(st) && NextNames(st, id)
    ensures var entry, sent := st.log[|st.verdicts|], Execute(st, serverTime).sent;
      var c, answer := entry.request.clientId, Answer(st, id, serverTime);
      && sent == st.sent + (if IsLive(st.slots, c) then [Sent(st.slots[c].conn, answer)] else [])
      && entry.conn < |st.conns|
      && (sent == st.sent + [Sent(entry.conn, answer)] <==> st.conns[entry.conn].closedAt == None)
      && (st.conns[entry.conn].closedAt != None && IsLive(st.slots, c) ==> st.slots[c].conn > entry.conn)
  {
    hide ScanInv, ReplayInv, VerdictInv, DbInv, Activate;
    var entry, sent := st.log[|st.verdicts|], Execute(st, serverTime).sent;
    var c, answer := entry.request.clientId, Answer(st, id, serverTime);
    assert EntryInv(st.conns, st.log, |st.verdicts|);
    if IsLive(st.slots, c) {
      var f := st.slots[c].conn;
      assert sent == st.sent + [Sent(f, answer)];
      assert (st.sent + [Sent(f, answer)])[|st.sent|] == Sent(f, answer);
      assert (st.sent + [Sent(entry.conn, answer)])[|st.sent|] == Sent(entry.conn, answer);
      assert f < entry.conn ==> InTurn(st.conns, st.log, f, entry.conn);
    } else {
      assert sent == st.sent;
    }
  }

  // ---- goodbyes ----

  ghost predicate NextIsGoodbye(st: State) {
    |st.verdicts| < |st.log| && st.log[|st.verdicts|].request.Disconnected?
  }

  /** No sensor loses its registration but those that connection e registered. */
  ghost predicate LosesOnlyItsOwn(st: State, st': State, e: nat) {
    forall id <- st.s2c :: id !in st'.s2c ==> SensorsConnection(st, id) == {e}
  }

  lemma GoodbyeErases(st: State, serverTime: int64)
    requires NextIsGoodbye(st)
    ensures var c, st' := st.log[|st.verdicts|].request.clientId, Execute(st, serverTime);
      st'.s2c == if c in st.c2s then st.s2c - {st.c2s[c]} else st.s2c
  {
  }

  /** The registrar of the sensor that a disconnecting client stands for, if the map leads back to
      the client, is the disconnecting connection itself. */
  lemma RegistrarOfGoodbye(st: State)
    requires Inv(st) && AddressInv(st) && NextIsGoodbye(st)
    requires var c := st.log[|st.verdicts|].request.clientId;
      c in st.c2s && st.c2s[c] in st.s2c && st.s2c[st.c2s[c]] == c
    ensures var entry := st.log[|st.verdicts|]; SensorsConnection(st, st.c2s[entry.request.clientId]) == {entry.conn}
  {
    hide ScanInv, DbInv, SlotsInv, TurnsInv, Registrar, VerdictInv;
    var n := |st.verdicts|;
    var c, done := st.log[n].request.clientId, st.log[..n];
    var id := st.c2s[c];
    assert Lookup(st.c2s, c) == Registration(done, st.verdicts, c);
    var j' := RegistrationSource(done, st.verdicts, c);
    assert RegisteredByRegistrar(st, id);
    var j := Registrar(st.verdicts, id).value;
    assert EntryInv(st.conns, st.log, j) && EntryInv(st.conns, st.log, n);
    assert j >= j' && Separated(st.conns, st.log, j, n);
  }

  /** In every reachable state: a goodbye erases no registration but that of its own connection
      exactly when the sensor that its client stands for, if registered, is registered for that
      client.  An admin kill may have let another connection register the sensor meanwhile. */
  lemma GoodbyeErasesOnlyItsOwnIff(start: State, actions: seq<Action>, serverTime: int64)
    requires Initial(start) && NextIsGoodbye(Run(start, actions))
    ensures var st := Run(start, actions); var entry := st.log[|st.verdicts|]; var c := entry.request.clientId;
      LosesOnlyItsOwn(st, Step(st, ExecuteNext(serverTime)), entry.conn) <==>
      (c in st.c2s && st.c2s[c] in st.s2c ==> st.s2c[st.c2s[c]] == c)
  {
    hide Run, Inv, AddressInv, Execute, SensorsConnection;
    var st := Run(start, actions);
    InitialInv(start);
    RunKeepsInv(start, actions);
    ReachableAddressInv(start, actions);
    GoodbyeErases(st, serverTime);
    var c := st.log[|st.verdicts|].request.clientId;
    if c in st.c2s && st.c2s[c] in st.s2c {
      if st.s2c[st.c2s[c]] == c {
        RegistrarOfGoodbye(st);
      } else {
        var e := SensorsConnectionIsThereIff(st, st.c2s[c]);
        GoodbyeIsOnItsSlot(st);
      }
    }
  }

  lemma GoodbyeIsOnItsSlot(st: State)
    requires Inv(st) && NextIsGoodbye(st)
    ensures var entry := st.log[|st.verdicts|];
      entry.conn < |st.conns| && st.conns[entry.conn].slot == entry.request.clientId
  {
    hide ScanInv, ReplayInv, VerdictInv, DbInv, SlotsInv, TurnsInv;
    assert EntryInv(st.conns, st.log, |st.verdicts|);
  }

  // ---- confirmations ----

  /** A connection and the time of a measurement that it sent, as the sensor gave it. */
  datatype Stamp = Stamp(conn: nat, timestamp: int64)

  /** The confirmations among these replies. */
  function Confirmations(sent: seq<Sent>): seq<Stamp> {
    if sent == [] then []
    else
      var n := |sent| - 1;
      Confirmations(sent[..n]) +
        if sent[n].reply.Confirmed? then [Stamp(sent[n].conn, sent[n].reply.timestamp)] else []
  }

  /** The measurements among these requests, which keep whole seconds. */
  function Measurements(log: seq<Entry>): seq<Stamp> {
    if log == [] then []
    else
      var n := |log| - 1;
      Measurements(log[..n]) +
        if log[n].request.Measured? then [Stamp(log[n].conn, log[n].request.timestamp)] else []
  }

  /** The measurement that an action brings in from a live connection. */
  function Incoming(st: State, a: Action): seq<Stamp> {
    if a.ReceiveFrame? && a.frame.MeasureFrame? && IsLive(st.slots, a.clientId)
    then [Stamp(st.slots[a.clientId].conn, a.frame.timestamp)] else []
  }

  /** The measurements that a run brings in. */
  ghost function Received(st: State, actions: seq<Action>): seq<Stamp>
    decreases |actions|
  {
    if actions == [] then [] else Incoming(st, actions[0]) + Received(Step(st, actions[0]), actions[1..])
  }

  function InSeconds(stamps: seq<Stamp>): (r: seq<Stamp>)
    ensures |r| == |stamps|
    ensures forall i :: 0 <= i < |stamps| ==> r[i] == Stamp(stamps[i].conn, Seconds(stamps[i].timestamp))
  {
    seq(|stamps|, i requires 0 <= i < |stamps| => Stamp(stamps[i].conn, Seconds(stamps[i].timestamp)))
  }

  lemma ConfirmationsOfNext(sent: seq<Sent>, next: Sent)
    ensures Confirmations(sent + [next]) == Confirmations(sent) +
      if next.reply.Confirmed? then [Stamp(next.conn, next.reply.timestamp)] else []
  {
    assert (sent + [next])[..|sent|] == sent;
  }

  lemma MeasurementsOfNext(log: seq<Entry>, next: Entry)
    ensures Measurements(log + [next]) == Measurements(log) +
      if next.request.Measured? then [Stamp(next.conn, next.request.timestamp)] else []
  {
    assert (log + [next])[..|log|] == log;
  }

  /** One more confirmation and one more queued measurement for each that came in. */
  ghost predicate Keeps(st: State, st': State, incoming: seq<Stamp>) {
    && Confirmations(st'.sent) == Confirmations(st.sent) + incoming
    && Measurements(st'.log) == Measurements(st.log) + InSeconds(incoming)
  }

  lemma SameKeeps(st: State, st': State)
    requires st'.sent == st.sent && st'.log == st.log
    ensures Keeps(st, st', [])
  {
    assert Confirmations(st.sent) + [] == Confirmations(st.sent) && Measurements(st.log) + [] == Measurements(st.log);
  }

  lemma KeepsChain(st: State, st': State, st'': State)
    requires Keeps(st, st', []) && Keeps(st', st'', [])
    ensures Keeps(st, st'', [])
  {
  }

  lemma SendKeeps(st: State, c: int, reply: Reply)
    requires !reply.Confirmed?
    ensures Keeps(st, Send(st, c, reply), [])
  {
    SameKeeps(st, st);
    if IsLive(st.slots, c) {
      ConfirmationsOfNext(st.sent, Sent(st.slots[c].conn, reply));
    }
  }

  lemma PushKeeps(st: State, c: int, request: Request)
    requires !request.Measured? && IsLive(st.slots, c)
    ensures Keeps(st, Push(st, c, request), [])
  {
    SameKeeps(st, st);
    MeasurementsOfNext(st.log, Entry(request, st.slots[c].conn));
  }

  lemma CloseKeeps(st: State, c: int)
    ensures Keeps(st, DisconnectClient(st, c), [])
  {
    SameKeeps(st, st);
    if IsLive(st.slots, c) {
      PushKeeps(st, c, Disconnected(c));
    }
  }

  lemma KillKeeps(st: State, c: int, reason: int32)
    ensures Keeps(st, KillSensor(st, c, reason), [])
  {
    hide Keeps;
    SendKeeps(st, c, Rejected(reason));
    CloseKeeps(Send(st, c, Rejected(reason)), c);
    KeepsChain(st, Send(st, c, Rejected(reason)), KillSensor(st, c, reason));
  }

  lemma RejectionKeeps(st: State, c: int, reason: int32)
    ensures Keeps(st, Judge(KillSensor(st, c, reason), None), [])
  {
    hide Keeps, KillSensor;
    KillKeeps(st, c, reason);
    SameKeeps(KillSensor(st, c, reason), Judge(KillSensor(st, c, reason), None));
    KeepsChain(st, KillSensor(st, c, reason), Judge(KillSensor(st, c, reason), None));
  }

  lemma ReceiveKeeps(st: State, c: int, frame: Frame)
    ensures Keeps(st, Receive(st, c, frame), Incoming(st, ReceiveFrame(c, frame)))
  {
    SameKeeps(st, st);
    if IsLive(st.slots, c) {
      match frame
      case InitFrame(token) =>
        PushKeeps(st, c, Connected(c, st.slots[c].ip, st.slots[c].port, token));
      case MeasureFrame(timestamp, value) =>
        var e := st.slots[c].conn;
        ConfirmationsOfNext(st.sent, Sent(e, Confirmed(timestamp)));
        MeasurementsOfNext(st.log, Entry(Measured(c, value, Seconds(timestamp)), e));
      case UnknownFrame =>
        CloseKeeps(st, c);
    }
  }

  lemma ExecutionKeeps(st: State, serverTime: int64)
    ensures Keeps(st, Execute(st, serverTime), [])
  {
    hide Keeps, KillSensor, Send, Activate;
    if |st.verdicts| < |st.log| && st.log[|st.verdicts|].request.Connected? {
      hide Judge;
      var request := st.log[|st.verdicts|].request;
      RejectionKeeps(st, request.clientId, KILL_SENSOR_INCORRECT_TOKEN);
      RejectionKeeps(st, request.clientId, KILL_SENSOR_TOKEN_ACTIVE);
      JudgeKeeps(st, None);
      if TokenExists(st.rows, request.token) {
        var id := SensorId(st.rows, request.token);
        JudgeKeeps(st, Some(id));
        var judged := Judge(st, Some(id));
        var registered := judged.(
          rows := Activate(st.rows, request.ip, request.port, request.token),
          c2s := st.c2s[request.clientId := id],
          s2c := st.s2c[id := request.clientId]);
        SameKeeps(judged, registered);
        KeepsChain(st, judged, registered);
        SendKeeps(registered, request.clientId, Accepted(serverTime));
        KeepsChain(st, registered, Send(registered, request.clientId, Accepted(serverTime)));
      }
    } else {
      SameKeeps(st, Execute(st, serverTime));
    }
  }

  lemma JudgeKeeps(st: State, verdict: Option<int32>)
    ensures Keeps(st, Judge(st, verdict), [])
  {
    SameKeeps(st, Judge(st, verdict));
  }

  lemma AdminKillKeeps(st: State, id: int32, rows: Rows, reason: int32)
    ensures Keeps(st, AdminKill(st, id, rows, reason), [])
  {
    hide Keeps, KillSensor;
    SameKeeps(st, st);
    if id in st.rows {
      var c, updated := RegisteredClient(st, id), st.(rows := rows);
      SameKeeps(st, updated);
      KillKeeps(updated, c, reason);
      KeepsChain(st, updated, KillSensor(updated, c, reason));
      SameKeeps(KillSensor(updated, c, reason), AdminKill(st, id, rows, reason));
      KeepsChain(st, KillSensor(updated, c, reason), AdminKill(st, id, rows, reason));
    }
  }

  lemma StepKeepsConfirmed(st: State, a: Action)
    ensures Keeps(st, Step(st, a), Incoming(st, a))
  {
    hide Keeps, Execute, AdminKill, Receive, DisconnectClient, FirstFree, Revoke, Deactivate;
    match a
    case ReceiveFrame(c, frame) => ReceiveKeeps(st, c, frame);
    case PeerCloses(c) => CloseKeeps(st, c);
    case ExecuteNext(serverTime) => ExecutionKeeps(st, serverTime);
    case RevokeSensor(id) => AdminKillKeeps(st, id, Revoke(st.rows, id), KILL_SENSOR_REVOKED);
    case DisconnectSensor(id) => AdminKillKeeps(st, id, Deactivate(st.rows, id), KILL_SENSOR_DISCONNECTED);
    case _ => SameKeeps(st, Step(st, a));
  }

  /** In every run, from every state: the confirmations sent are, in order and one for one, to the
      millisecond those of the measurements that came in, each to the very connection that it came
      in on, and the measurements queued are the same in whole seconds. */
  lemma {:induction false} ConfirmationsMatchMeasurements(st: State, actions: seq<Action>)
    ensures Confirmations(Run(st, actions).sent) == Confirmations(st.sent) + Received(st, actions)
    ensures Measurements(Run(st, actions).log) == Measurements(st.log) + InSeconds(Received(st, actions))
    decreases |actions|
  {
    if actions == [] {
      SameKeeps(st, st);
    } else {
      hide Step, Confirmations, Measurements, Incoming;
      var next, first := Step(st, actions[0]), Incoming(st, actions[0]);
      var rest := Received(next, actions[1..]);
      StepKeepsConfirmed(st, actions[0]);
      ConfirmationsMatchMeasurements(next, actions[1..]);
      Associative(Confirmations(st.sent), first, rest);
      Associative(Measurements(st.log), InSeconds(first), InSeconds(rest));
      assert InSeconds(first + rest) == InSeconds(first) + InSeconds(rest);
    }
  }
}
