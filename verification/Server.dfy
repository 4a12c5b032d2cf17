/** ServerModel: the sensor executor and the administrator executor over the handler, the queue,
    the two maps and the table.  Every method is one step of the session state machine. */
module Server {
  import opened Wire
  import opened Queues
  import opened Session
  import opened SessionInvariants
  import opened Database
  import opened SensorProtocol
  import opened Framing
  import opened Transport
  import opened Rounds
  import opened Traces
  import opened Replies
  import Handler

  /** A handler's network state, completed by what the model and the table hold. */
  function With(net: State, c2s: map<int, int32>, s2c: map<int32, int>, rows: Rows,
                stored: seq<Stored>, verdicts: seq<Option<int32>>, adminKills: nat): State {
    net.(c2s := c2s, s2c := s2c, rows := rows, stored := stored, verdicts := verdicts, adminKills := adminKills)
  }

  /** A kill touches the network state only. */
  lemma KillUnderWith(net: State, c2s: map<int, int32>, s2c: map<int32, int>, rows: Rows,
                      stored: seq<Stored>, verdicts: seq<Option<int32>>, adminKills: nat, c: int, reason: int32)
    ensures With(Session.KillSensor(net, c, reason), c2s, s2c, rows, stored, verdicts, adminKills) ==
      Session.KillSensor(With(net, c2s, s2c, rows, stored, verdicts, adminKills), c, reason)
  {
  }

  /** The pieces of a revocation or disconnection make up the step. */
  lemma AdminKillUnderWith(before: State, net: State, id: int32, rows: Rows, reason: int32)
    requires id in before.rows
    requires before == With(net, before.c2s, before.s2c, before.rows, before.stored, before.verdicts, before.adminKills)
    ensures AdminKill(before, id, rows, reason) ==
      With(Session.KillSensor(net, RegisteredClient(before, id), reason),
           before.c2s, before.s2c - {id}, rows, before.stored, before.verdicts, before.adminKills + 1)
  {
    hide Session.KillSensor;
    KillUnderWith(net, before.c2s, before.s2c, rows, before.stored, before.verdicts, before.adminKills,
                  RegisteredClient(before, id), reason);
  }

  lemma MissingRow(rows: Rows, id: int32)
    ensures id !in rows ==> Revoke(rows, id) == rows && Deactivate(rows, id) == rows
  {
  }

  /** The step for an accepted or a rejected init. */
  lemma RejectionUnderWith(before: State, net: State, c: int, reason: int32)
    requires before == With(net, before.c2s, before.s2c, before.rows, before.stored, before.verdicts, before.adminKills)
    ensures Judge(Session.KillSensor(before, c, reason), None) ==
      With(Session.KillSensor(net, c, reason), before.c2s, before.s2c, before.rows, before.stored,
           before.verdicts + [None], before.adminKills)
  {
    hide Session.KillSensor;
    KillUnderWith(net, before.c2s, before.s2c, before.rows, before.stored, before.verdicts, before.adminKills, c,
      reason);
  }

  /** Steps of the network thread do not look at the other fields either. */
  lemma NetworkUnderWith(net: State, c2s: map<int, int32>, s2c: map<int32, int>, rows: Rows,
                         stored: seq<Stored>, verdicts: seq<Option<int32>>, adminKills: nat, a: Action)
    requires a.ScanSlots? || a.AcceptConnection? || a.ReceiveFrame? || a.PeerCloses?
    ensures With(Step(net, a), c2s, s2c, rows, stored, verdicts, adminKills) ==
      Step(With(net, c2s, s2c, rows, stored, verdicts, adminKills), a)
  {
    match a
    case ReceiveFrame(c, frame) =>
      ReceiveUnderWith(net, c2s, s2c, rows, stored, verdicts, adminKills, c, frame);
    case _ =>
  }

  lemma ReceiveUnderWith(net: State, c2s: map<int, int32>, s2c: map<int32, int>, rows: Rows,
                         stored: seq<Stored>, verdicts: seq<Option<int32>>, adminKills: nat, c: int, frame: Frame)
    ensures With(Receive(net, c, frame), c2s, s2c, rows, stored, verdicts, adminKills) ==
      Receive(With(net, c2s, s2c, rows, stored, verdicts, adminKills), c, frame)
  {
  }

  class ServerModel {
    const handler: Handler.ClientsHandler
    const sensorRequestsQueue: Queue<Request>
    const table: SensorTable
    var clientToSensorId: map<int, int32>
    var sensorToClientId: map<int32, int>
    ghost var verdicts: seq<Option<int32>>
    ghost var adminKills: nat

    /** What the table held when this server started. */
    ghost const earlier: seq<Stored>

    /** The measurements stored since. */
    ghost function SinceStart(): seq<Stored>
      reads table
    {
      if |earlier| <= |table.measurements| then table.measurements[|earlier|..] else []
    }

    /** The whole session state: the handler's part, the table and the maps. */
    ghost function View(): State
      reads this, handler, table
    {
      With(handler.net, clientToSensorId, sensorToClientId, table.rows, SinceStart(), verdicts, adminKills)
    }

    /** The objects fit together. */
    ghost predicate Standing()
      reads this, handler, handler.clients, sensorRequestsQueue, table
    {
      handler.queue == sensorRequestsQueue && handler.Valid() && table.Valid() && earlier <= table.measurements
    }

    /** Between requests. */
    ghost predicate Settled()
      reads this, handler, handler.clients, sensorRequestsQueue, table
    {
      Standing() && |verdicts| == |sensorRequestsQueue.popped|
    }

    /** After a request has been popped, before it has been processed. */
    ghost predicate Popped()
      reads this, handler, handler.clients, sensorRequestsQueue, table
    {
      Standing() && |sensorRequestsQueue.popped| == |verdicts| + 1
    }

    ghost predicate Valid()
      reads this, handler, handler.clients, sensorRequestsQueue, table
    {
      Settled() && Inv(View()) && Traced(View(), handler.streams)
    }

    constructor (maxClients: nat, table: SensorTable)
      requires table.Valid()
      requires forall id <- table.rows :: table.rows[id].status != Active
      ensures Valid() && Initial(View()) && this.table == table && |View().slots| == maxClients
      ensures earlier == table.measurements && !handler.stopped
      ensures fresh(handler) && fresh(handler.clients) && fresh(sensorRequestsQueue)
    {
      var queue := new Queue<Request>();
      sensorRequestsQueue := queue;
      handler := new Handler.ClientsHandler(maxClients, queue);
      this.table := table;
      earlier := table.measurements;
      clientToSensorId, sensorToClientId := map[], map[];
      verdicts, adminKills := [], 0;
      new;
      InitialInv(View());
    }

    /** The next queued request is the next unprocessed entry of the log. */
    lemma NextRequest()
      requires Valid() && sensorRequestsQueue.items != []
      ensures |verdicts| < |View().log|
      ensures View().log[|verdicts|].request == sensorRequestsQueue.items[0]
    {
      assert sensorRequestsQueue.pushed[|verdicts|] == sensorRequestsQueue.items[0];
    }

    /** killSensor: the reason is sent, then the slot is closed, whoever is there. */
    method KillSensor(clientId: int, reason: int32, room: int)
      requires handler.queue == sensorRequestsQueue && handler.Valid()
      modifies handler`net, handler`wires, handler.At(clientId), sensorRequestsQueue
      ensures handler.Valid() && handler.net == Session.KillSensor(old(handler.net), clientId, reason)
      ensures sensorRequestsQueue.popped == old(sensorRequestsQueue.popped)
    {
      handler.SendReply(clientId, Rejected(reason), room);
      handler.DisconnectClient(clientId);
    }

    /** One round of executeSensorRequests. */
    method ExecuteSensorRequest(serverTime: int64, room: int)
      requires Valid() && sensorRequestsQueue.items != []
      modifies this`clientToSensorId, this`sensorToClientId, this`verdicts
      modifies handler`net, handler`wires, handler.clients, sensorRequestsQueue, table
      ensures Valid() && View() == Execute(old(View()), serverTime)
    {
      hide Inv, Execute, Traced, Sends, Receives, TokensDistinct,
        Handler.ClientsHandler.Implements;
      ghost var before := View();
      NextRequest();
      ExecutionKeepsInv(before, serverTime);
      InvHasConnInv(before);
      ExecutionKeepsTraced(before, serverTime, handler.streams);
      var request := sensorRequestsQueue.Pop(_ => [], 0);
      match request {
        case Measured(clientId, value, timestamp) =>
          ExecuteMeasured(clientId, value, timestamp, serverTime);
        case Connected(clientId, ip, port, token) =>
          ExecuteConnected(clientId, ip, port, token, serverTime, room);
        case Disconnected(clientId) =>
          ExecuteDisconnected(clientId, serverTime);
      }
    }

    method ExecuteMeasured(clientId: int, value: int32, timestamp: int64, ghost serverTime: int64)
      requires Popped()
      requires |verdicts| < |View().log| && View().log[|verdicts|].request == Measured(clientId, value, timestamp)
      modifies this`verdicts, table
      ensures Settled()
      ensures View() == Execute(old(View()), serverTime)
    {
      if clientId in clientToSensorId {
        table.AddMeasurement(clientToSensorId[clientId], value, Int32(timestamp));
      }
      verdicts := verdicts + [None];
    }

    method ExecuteConnected(clientId: int, ip: Text, port: int32, token: Text, serverTime: int64, room: int)
      requires Popped()
      requires |verdicts| < |View().log| && View().log[|verdicts|].request == Connected(clientId, ip, port, token)
      modifies this`clientToSensorId, this`sensorToClientId, this`verdicts
      modifies handler`net, handler`wires, handler.clients, sensorRequestsQueue, table
      ensures Settled()
      ensures View() == Execute(old(View()), serverTime)
    {
      hide TokensDistinct, Session.KillSensor, Activate, Sends, Receives, Handler.ClientsHandler.Implements;
      var whitelisted := table.CheckIfTokenIsWhitelisted(token);
      if whitelisted == None {
        verdicts := verdicts + [None];
        return;
      }
      if !whitelisted.value {
        Reject(clientId, KILL_SENSOR_INCORRECT_TOKEN, room);
        return;
      }
      var known := table.GetSensorId(token);
      if known.value in sensorToClientId {
        Reject(clientId, KILL_SENSOR_TOKEN_ACTIVE, room);
        return;
      }
      Register(clientId, ip, port, token, serverTime, room);
    }

    /** The rest, for a token that is neither revoked nor registered. */
    method Register(clientId: int, ip: Text, port: int32, token: Text, serverTime: int64, room: int)
      requires Popped() && TokenExists(table.rows, token)
      requires var id := SensorId(table.rows, token); table.rows[id].status != Revoked && id !in sensorToClientId
      requires |verdicts| < |View().log| && View().log[|verdicts|].request == Connected(clientId, ip, port, token)
      modifies this`clientToSensorId, this`sensorToClientId, this`verdicts
      modifies handler`net, handler`wires, handler.clients, table
      ensures Settled()
      ensures View() == Execute(old(View()), serverTime)
    {
      hide TokensDistinct, Session.KillSensor, Activate, Handler.ClientsHandler.Valid;
      var id := table.AddSensor(ip, port, token);
      clientToSensorId := clientToSensorId[clientId := id.value];
      sensorToClientId := sensorToClientId[id.value := clientId];
      verdicts := verdicts + [id];
      SendAcceptance(clientId, serverTime, room);
    }

    method SendAcceptance(clientId: int, serverTime: int64, room: int)
      requires handler.Valid()
      modifies handler`net, handler`wires, handler.At(clientId)
      ensures handler.Valid() && handler.net == Send(old(handler.net), clientId, Accepted(serverTime))
    {
      hide Sends, Receives;
      assert forall c :: 0 <= c < |handler.clients| && c != clientId ==> handler.clients[c] !in handler.At(clientId);
      handler.SendReply(clientId, Accepted(serverTime), room);
    }

    method Reject(clientId: int, reason: int32, room: int)
      requires Popped()
      modifies this`verdicts, handler`net, handler`wires, handler.clients, sensorRequestsQueue
      ensures Settled()
      ensures View() == Judge(Session.KillSensor(old(View()), clientId, reason), None)
    {
      hide Session.KillSensor, Sends, Receives, Handler.ClientsHandler.Implements;
      RejectionUnderWith(View(), handler.net, clientId, reason);
      KillSensor(clientId, reason, room);
      verdicts := verdicts + [None];
    }

    method ExecuteDisconnected(clientId: int, ghost serverTime: int64)
      requires Popped()
      requires |verdicts| < |View().log| && View().log[|verdicts|].request == Disconnected(clientId)
      modifies this`clientToSensorId, this`sensorToClientId, this`verdicts, table
      ensures Settled()
      ensures View() == Execute(old(View()), serverTime)
    {
      if clientId in clientToSensorId {
        var id := clientToSensorId[clientId];
        var _ := table.DisconnectSensor(id);
        sensorToClientId := sensorToClientId - {id};
        clientToSensorId := clientToSensorId - {clientId};
      }
      verdicts := verdicts + [None];
    }

    /** REVOKE_SENSOR.  False: the sensor does not exist, and nothing but an exception happens. */
    method ExecuteRevokeSensor(id: int32, room: int) returns (done: bool)
      requires Valid()
      modifies this`sensorToClientId, this`adminKills
      modifies handler`net, handler`wires, handler.clients, sensorRequestsQueue, table
      ensures Valid() && View() == Step(old(View()), RevokeSensor(id))
      ensures done <==> id in old(table.rows)
      ensures table.rows ==
        if done then old(table.rows)[id := old(table.rows)[id].(status := Status.Revoked)] else old(table.rows)
    {
      hide Inv, Session.KillSensor, TokensDistinct, Revoke, Sends, Receives, Handler.ClientsHandler.Implements, Traced;
      ghost var before, net := View(), handler.net;
      StepKeepsInv(before, RevokeSensor(id));
      InvHasConnInv(before);
      AdminKillKeepsTraced(before, id, Revoke(before.rows, id), KILL_SENSOR_REVOKED, handler.streams);
      MissingRow(before.rows, id);
      done := table.RevokeSensor(id);
      if done {
        AdminKillUnderWith(before, net, id, Revoke(before.rows, id), KILL_SENSOR_REVOKED);
        KillRegistered(id, KILL_SENSOR_REVOKED, room);
      }
    }

    /** DISCONNECT_SENSOR */
    method ExecuteDisconnectSensor(id: int32, room: int) returns (done: bool)
      requires Valid()
      modifies this`sensorToClientId, this`adminKills
      modifies handler`net, handler`wires, handler.clients, sensorRequestsQueue, table
      ensures Valid() && View() == Step(old(View()), DisconnectSensor(id))
      ensures done <==> id in old(table.rows)
      ensures table.rows == if done && old(table.rows)[id].status != Status.Revoked
        then old(table.rows)[id := old(table.rows)[id].(status := Inactive)] else old(table.rows)
    {
      hide Inv, Traced, Session.KillSensor, TokensDistinct, Deactivate, Sends, Receives;
      hide Handler.ClientsHandler.Implements;
      ghost var before, net := View(), handler.net;
      StepKeepsInv(before, DisconnectSensor(id));
      InvHasConnInv(before);
      AdminKillKeepsTraced(before, id, Deactivate(before.rows, id), KILL_SENSOR_DISCONNECTED, handler.streams);
      MissingRow(before.rows, id);
      done := table.DisconnectSensor(id);
      if done {
        AdminKillUnderWith(before, net, id, Deactivate(before.rows, id), KILL_SENSOR_DISCONNECTED);
        KillRegistered(id, KILL_SENSOR_DISCONNECTED, room);
      }
    }

    /** sensorToClientId[id] inserts 0 for a missing key; the entry is then erased. */
    method KillRegistered(id: int32, reason: int32, room: int)
      requires handler.queue == sensorRequestsQueue && handler.Valid()
      modifies this`sensorToClientId, this`adminKills, handler`net, handler`wires, handler.clients, sensorRequestsQueue
      ensures handler.Valid() && sensorRequestsQueue.popped == old(sensorRequestsQueue.popped)
      ensures handler.net == Session.KillSensor(old(handler.net), RegisteredClient(old(View()), id), reason)
      ensures sensorToClientId == old(sensorToClientId) - {id} && adminKills == old(adminKills) + 1
    {
      hide Sends, Receives, Session.KillSensor;
      if id !in sensorToClientId {
        sensorToClientId := sensorToClientId[id := 0];
      }
      KillSensor(sensorToClientId[id], reason, room);
      sensorToClientId := sensorToClientId - {id};
      adminKills := adminKills + 1;
    }

    /** UPDATE_SENSOR_NAME */
    method ExecuteUpdateSensorName(id: int32, name: Text) returns (done: bool)
      requires Valid()
      modifies table
      ensures Valid() && View() == Step(old(View()), RenameSensor(id, name))
      ensures done <==> id in old(table.rows)
      ensures table.rows ==
        if done then old(table.rows)[id := old(table.rows)[id].(name := name)] else old(table.rows)
    {
      hide Inv, TokensDistinct, Sends, Receives, Handler.ClientsHandler.Implements, Traced;
      ghost var before := View();
      StepKeepsInv(before, RenameSensor(id, name));
      done := table.EditSensor(id, name);
      SameLogKeepsTraced(before, View(), handler.streams);
    }

    /** GENERATE_TOKEN.  `key` is the new row's identifier; `some` is a time at which rand() would
        give a new token. */
    method ExecuteGenerateToken(rand: nat -> nat, key: int32, ghost some: nat) returns (token: Text)
      requires Valid() && key !in table.rows && !TokenExists(table.rows, TokenAt(rand, some * 15))
      modifies table
      ensures Valid() && View() == Step(old(View()), GenerateToken(token, key))
      ensures !TokenExists(old(table.rows), token) && Names(table.rows, token, key) && table.rows[key].status == Fresh
      ensures |token| == 15 && forall i :: 0 <= i < 15 ==> IsAlphanum(token[i])
    {
      hide Inv, TokensDistinct, Traced, Sends, Receives, Handler.ClientsHandler.Implements;
      ghost var k;
      ghost var before := View();
      token, k := GenerateNewToken(table, rand, some);
      StepKeepsInv(View(), GenerateToken(token, key));
      var _ := table.InitializeSensor(token, key);
      SameLogKeepsTraced(before, View(), handler.streams);
    }

    /** GET_ALL_SENSORS: the list shows as connected exactly the sensors with a registered
        connection, and every such sensor is in it. */
    method ExecuteGetAllSensors() returns (sensors: seq<Listed>)
      requires Valid()
      ensures Lists(table.rows, sensors)
      ensures forall s <- sensors :: s.connected <==> s.id in sensorToClientId
      ensures forall id <- sensorToClientId :: exists s :: s in sensors && s.id == id && s.connected
    {
      sensors := table.GetAllSensors();
      assert ActiveInv(View().rows, View().s2c);
      forall id | id in sensorToClientId
        ensures exists s :: s in sensors && s.id == id && s.connected
      {
        assert id in table.rows && table.rows[id].status == Active;
        var s :| s in sensors && s.id == id;
      }
    }

    // ---- the network thread ----

    /** The handler made a step of its own; so did the server. */
    lemma NetworkStep(before: State, net: State, a: Action)
      requires a.ScanSlots? || a.AcceptConnection? || a.ReceiveFrame? || a.PeerCloses?
      requires Inv(before) && handler.net == Step(net, a)
      requires before == With(net, clientToSensorId, sensorToClientId, table.rows, SinceStart(), verdicts, adminKills)
      ensures View() == Step(before, a) && Inv(View())
    {
      hide Inv, Step;
      NetworkUnderWith(net, clientToSensorId, sensorToClientId, table.rows, SinceStart(), verdicts, adminKills, a);
      StepKeepsInv(before, a);
    }

    /** Whatever the threads have done: every connection has queued exactly the requests that the
        messages in its bytes become; for a live one these are the bytes of its Client. */
    lemma LogIsDelivered(e: nat)
      requires Valid() && e < |View().conns|
      ensures e < |handler.streams| && TracedConn(View(), handler.streams[e], e)
      ensures var c := View().conns[e].slot;
        View().conns[e].closedAt == None ==>
          && 0 <= c < |handler.clients| && IsLive(View().slots, c) && View().slots[c].conn == e
          && handler.clients[c].history.bytes == handler.streams[e]
          && handler.clients[c].history.delivered == Decode(handler.streams[e]).msgs
    {
      hide ScanInv, ReplayInv, VerdictInv, DbInv, LogInv, TurnsInv, TracedConn, Decode, Sends, Receives;
      if View().conns[e].closedAt == None {
        var c := View().conns[e].slot;
        var client := handler.clients[c];
        assert Handler.ClientsHandler.Implements(client, handler.net.slots[c], c, handler.stopped);
        assert Handler.ClientsHandler.OnStream(client, handler.net.slots[c], c, handler.net.conns, handler.streams);
        ReceivedDecodes(client.history, client.remainingIn, client.remainingInLen, client.inBuffer);
      }
    }

    /** Every stored measurement goes back to the bytes of one connection: a measurement message in
        them, and before it a message with the token of the sensor it is stored under. */
    lemma MeasurementsComeFromBytes(k: nat) returns (e: nat, n: nat, m: nat)
      requires Valid() && k < |View().stored|
      ensures e < |handler.streams| && ComesFrom(View(), View().stored[k], Decode(handler.streams[e]).msgs, n, m)
    {
      hide Inv, Traced, ComesFrom, Decode;
      e, n, m := MeasurementComesFromBytes(View(), handler.streams, k);
    }

    lemma WiresAreOfConnections()
      requires Valid()
      ensures |handler.wires| == |View().conns|
    {
      hide Inv, Traced, Frames, Told;
    }

    /** Whatever part of the bytes handed to a connection's socket has reached the sensor, whether or not
        the connection is still open: the sensor reads in it the first of the server's replies to that
        connection, in order; and all of them if the connection is open, nothing waits and all has arrived. */
    lemma SensorReadsReplies(e: nat, arrived: seq<byte>, beyond: seq<byte>)
      requires Valid() && e < |handler.wires| && arrived <= handler.wires[e] && |beyond| >= 8
      ensures Decode(arrived).illegal == None && ReadsAs(Decode(arrived).msgs, RepliesTo(View().sent, e), beyond)
      ensures View().conns[e].closedAt == None ==>
        var c := View().conns[e].slot;
        && 0 <= c < |handler.clients| && handler.clients[c].history.wire == handler.wires[e]
        && (handler.clients[c].outBuffer == [] && arrived == handler.wires[e] ==>
              |Decode(arrived).msgs| == |RepliesTo(View().sent, e)|)
    {
      hide ScanInv, ReplayInv, VerdictInv, DbInv, LogInv, TurnsInv, Traced, Decode, Frames, Messages, Sends, Receives;
      var replies := RepliesTo(View().sent, e);
      RepliesArrive(replies, arrived, beyond);
      if View().conns[e].closedAt == None {
        var c := View().conns[e].slot;
        assert Handler.ClientsHandler.OnWire(handler.clients[c], handler.net.slots[c], handler.net.sent, handler.wires);
        assert Handler.ClientsHandler.Implements(handler.clients[c], handler.net.slots[c], c, handler.stopped);
        WireOfSends(handler.clients[c].history, handler.clients[c].outBuffer);
      }
    }

    /** A slot with a socket is live. */
    lemma Connectedness(slot: nat)
      requires Valid() && slot < |handler.clients| && handler.clients[slot].Connected()
      ensures IsLive(handler.net.slots, slot)
    {
      hide Inv, Traced, Sends, Receives;
      assert Handler.ClientsHandler.Implements(handler.clients[slot], handler.net.slots[slot], slot, handler.stopped);
    }

    lemma ViewIsOfNet()
      ensures View().slots == handler.net.slots && View().log == handler.net.log
      ensures View().armed == handler.net.armed
    {
    }

    /** One slot's turn in tryRecv. */
    method ReceiveFrom(slot: nat, data: Incoming) returns (turn: Handler.Turn, ghost actions: seq<Action>)
      requires Valid() && !handler.stopped && data.Valid() && IsLive(handler.net.slots, slot)
      modifies handler`net, handler`wires, handler`stopped, handler`streams, handler.At(slot), sensorRequestsQueue
      ensures Valid() && (handler.stopped <==> turn.thrown != None)
      ensures turn == Handler.TurnOf(old(handler.clients[slot].history), data.available, data.limit)
      ensures actions == Reception(turn, slot, data.beyond) && View() == Run(old(View()), actions)
      ensures OthersKept(old(handler.net.slots), handler.net.slots, slot)
      ensures handler.net.slots[slot].Live? ==>
        handler.clients[slot].outBuffer ==
        Handler.BufferAfter(old(handler.clients[slot].outBuffer), turn.got, data.beyond, data.room)
    {
      hide Inv, Traced, Receive, ParseFrame, Handler.TurnOf, Handler.BufferAfter, Handler.StreamsAfter, OthersKept,
        With, TokensDistinct, Sends, Receives, Handler.ClientsHandler.Implements, Handler.ClientsHandler.OnStream;
      ghost var before, net, streams := View(), handler.net, handler.streams;
      ViewIsOfNet();
      turn := handler.TryRecv(slot, data.available, data.limit, data.beyond, data.room);
      actions := Reception(turn, slot, data.beyond);
      if actions != [] {
        TurnStep(before, net, slot, actions[0]);
        assert actions == [actions[0]];
      } else {
        OthersKeptByNothing(net.slots, slot);
      }
      TurnKeepsTraced(before, turn, slot, data.beyond, data.available, streams, handler.streams);
    }

    /** One slot's turn in trySend. */
    method SendTo(slot: nat, room: int) returns (ghost actions: seq<Action>)
      requires Valid() && IsLive(handler.net.slots, slot)
      modifies handler`net, handler`wires, handler.At(slot), sensorRequestsQueue
      ensures Valid() && View() == Run(old(View()), actions)
      ensures actions == if room <= 0 || old(handler.clients[slot].outBuffer) == [] then [PeerCloses(slot)] else []
      ensures OthersKept(old(handler.net.slots), handler.net.slots, slot)
    {
      hide Inv, Traced, OthersKept, With, TokensDistinct, Sends, Receives, Handler.ClientsHandler.Implements,
        Handler.ClientsHandler.OnStream, Handler.ClientsHandler.OnWire, Wired;
      ghost var before, net := View(), handler.net;
      ViewIsOfNet();
      InvHasConnInv(before);
      CloseKeepsTraced(before, slot, handler.streams);
      actions := if room <= 0 || handler.clients[slot].outBuffer == [] then [PeerCloses(slot)] else [];
      handler.TrySend(slot, room);
      if actions != [] {
        TurnStep(before, net, slot, actions[0]);
        assert actions == [actions[0]];
        RunOfOneMore(before, [], actions[0]);
        assert [] + [actions[0]] == actions;
      } else {
        OthersKeptByNothing(net.slots, slot);
      }
    }

    /** A turn that made one step. */
    lemma TurnStep(before: State, net: State, slot: nat, a: Action)
      requires (a.ReceiveFrame? || a.PeerCloses?) && a.clientId == slot
      requires Inv(before) && handler.net == Step(net, a)
      requires before == With(net, clientToSensorId, sensorToClientId, table.rows, SinceStart(), verdicts, adminKills)
      ensures View() == Run(before, [a]) && Inv(View())
      ensures OthersKept(net.slots, handler.net.slots, slot)
    {
      hide Inv, Step;
      NetworkStep(before, net, a);
      RunOfOneMore(before, [], a);
      assert [] + [a] == [a];
      TurnLeavesOtherSlots(net, a);
    }

    /** One round of ClientsHandler::startHandling: choose a slot, accept at most one connection
        into it, read from the ready slots, then write to the ready slots.  The round is exactly
        these actions of the state machine, each ready slot having its turn. */
    method HandlingRound(arrival: Option<Arrival>, readable: map<nat, Incoming>, writable: map<nat, int>)
      returns (thrown: Option<int32>,
               ghost accepted: seq<Action>, ghost received: seq<Action>, ghost closed: seq<Action>)
      requires Valid() && !handler.stopped
      requires forall c <- readable :: readable[c].Valid()
      modifies handler`freeHandler, handler`net, handler`wires, handler`stopped, handler`streams
      modifies handler.clients, sensorRequestsQueue
      ensures Valid() && (handler.stopped <==> thrown != None)
      ensures View() == Run(Run(Run(old(View()), accepted), received), closed)
      ensures accepted == Acceptance(old(View().slots), arrival)
      ensures var slots := Run(old(View()), accepted).slots;
        |slots| == |handler.clients| &&
        (received, thrown) == Receptions(old(handler.Histories()), slots, readable, |slots|)
      ensures thrown != None ==> closed == []
      ensures thrown == None ==>
        var slots, slots' := Run(old(View()), accepted).slots, Run(Run(old(View()), accepted), received).slots;
        |slots| == |slots'| == |handler.clients| &&
        var buffers := Replied(old(handler.Histories()), old(handler.OutBuffers()), slots, readable);
        closed == Closings(buffers, slots', writable, |slots'|)
      ensures IsRound(old(View()), old(handler.Histories()), old(handler.OutBuffers()), arrival, readable, writable,
                      accepted + received + closed)
    {
      hide Inv, Traced, Step, Receptions, Closings, Replied, IsRound, With, Sends, Receives, TokensDistinct,
        Handler.ClientsHandler.Implements;
      accepted := ChooseAndAccept(arrival);
      ViewIsOfNet();
      ghost var histories, buffers, slots := handler.Histories(), handler.OutBuffers(), handler.net.slots;
      thrown, received := ReceiveFromAll(readable);
      closed := [];
      ViewIsOfNet();
      if thrown == None {
        ghost var replied := Replied(histories, buffers, slots, readable);
        ClosingsOfSame(replied, handler.OutBuffers(), handler.net.slots, writable, |slots|);
        closed := SendToAll(writable);
      }
      PartsMakeRound(old(View()), histories, buffers, arrival, readable, writable, received, thrown, closed);
    }

    /** What the slots from `first` on hold: their turns have not come yet. */
    ghost predicate Untouched(first: nat, slots: seq<Slot>, histories: seq<History>, buffers: seq<seq<byte>>)
      reads handler, handler.clients
    {
      && |slots| == |histories| == |buffers| == |handler.net.slots| == |handler.clients|
      && forall c :: first <= c < |slots| ==>
          && handler.net.slots[c] == slots[c]
          && handler.clients[c].history == histories[c] && handler.clients[c].outBuffer == buffers[c]
    }

    /** What the slots before `first` have in their send buffers: their turns have come. */
    ghost predicate Answered(first: nat, replied: seq<seq<byte>>)
      reads handler, handler.clients
    {
      && |replied| == |handler.net.slots| == |handler.clients|
      && forall c :: 0 <= c < first && c < |replied| && handler.net.slots[c].Live? ==>
          handler.clients[c].outBuffer == replied[c]
    }

    /** One slot of the loop of tryRecv. */
    method ReceiveTurn(slot: nat, readable: map<nat, Incoming>,
                       ghost slots: seq<Slot>, ghost histories: seq<History>, ghost buffers: seq<seq<byte>>)
      returns (thrown: Option<int32>, ghost actions: seq<Action>)
      requires Valid() && !handler.stopped && slot < |handler.clients|
      requires forall c <- readable :: readable[c].Valid()
      requires Untouched(slot, slots, histories, buffers) && Receptions(histories, slots, readable, slot).1 == None
      requires Answered(slot, Replied(histories, buffers, slots, readable))
      modifies handler`net, handler`wires, handler`stopped, handler`streams, handler.At(slot), sensorRequestsQueue
      ensures Valid() && (handler.stopped <==> thrown != None)
      ensures View() == Run(old(View()), actions)
      ensures Untouched(slot + 1, slots, histories, buffers)
      ensures Answered(slot + 1, Replied(histories, buffers, slots, readable))
      ensures Receptions(histories, slots, readable, slot + 1) ==
        (Receptions(histories, slots, readable, slot).0 + actions, thrown)
    {
      hide Inv, Traced, Step, With, Handler.TurnOf, Handler.BufferAfter, Reception, Sends, Receives;
      thrown, actions := None, [];
      assert Handler.ClientsHandler.Implements(handler.clients[slot], handler.net.slots[slot], slot, false);
      assert forall c :: 0 <= c < |slots| && c != slot ==> handler.clients[c] !in handler.At(slot);
      if slot in readable && handler.clients[slot].socket >= 0 {
        var turn;
        turn, actions := ReceiveFrom(slot, readable[slot]);
        thrown := turn.thrown;
      } else {
        assert Receptions(histories, slots, readable, slot).0 + [] == Receptions(histories, slots, readable, slot).0;
      }
    }

    lemma BeforeAnyTurn(readable: map<nat, Incoming>)
      requires handler.Valid() && forall c <- readable :: readable[c].Valid()
      ensures var histories, buffers, slots := handler.Histories(), handler.OutBuffers(), handler.net.slots;
        && Untouched(0, slots, histories, buffers) && Answered(0, Replied(histories, buffers, slots, readable))
        && |slots| == |handler.clients|
        && Receptions(histories, slots, readable, 0) == ([], None)
    {
      hide RepliedAt;
    }

    /** The loop of tryRecv. */
    method ReceiveFromAll(readable: map<nat, Incoming>) returns (thrown: Option<int32>, ghost actions: seq<Action>)
      requires Valid() && !handler.stopped
      requires forall c <- readable :: readable[c].Valid()
      modifies handler`net, handler`wires, handler`stopped, handler`streams, handler.clients, sensorRequestsQueue
      ensures Valid() && (handler.stopped <==> thrown != None)
      ensures View() == Run(old(View()), actions)
      ensures (actions, thrown) ==
        Receptions(old(handler.Histories()), old(handler.net.slots), readable, |handler.clients|)
      ensures thrown == None ==>
        Answered(|handler.clients|,
                 Replied(old(handler.Histories()), old(handler.OutBuffers()), old(handler.net.slots), readable))
    {
      hide Inv, Traced, Step, With, TokensDistinct, Sends, Receives, Handler.ClientsHandler.Implements,
        Receptions, Replied, Untouched, Answered, Handler.ClientsHandler.Valid, Handler.ClientsHandler.OnWire;
      BeforeAnyTurn(readable);
      ghost var histories, buffers, slots := handler.Histories(), handler.OutBuffers(), handler.net.slots;
      ghost var replied := Replied(histories, buffers, slots, readable);
      actions, thrown := [], None;
      var slot := 0;
      while slot < |handler.clients| && thrown == None
        invariant slot <= |handler.clients|
        invariant Valid() && (handler.stopped <==> thrown != None) && View() == Run(old(View()), actions)
        invariant (actions, thrown) == Receptions(histories, slots, readable, slot)
        invariant Untouched(slot, slots, histories, buffers) && Answered(slot, replied)
      {
        ghost var more;
        thrown, more := ReceiveTurn(slot, readable, slots, histories, buffers);
        RunOfRuns(old(View()), actions, more);
        actions, slot := actions + more, slot + 1;
      }
      if thrown != None {
        ThrownEndsReception(histories, slots, readable, slot, |slots|);
      }
    }

    /** One slot of the loop of trySend. */
    method SendTurn(slot: nat, writable: map<nat, int>,
                    ghost slots: seq<Slot>, ghost histories: seq<History>, ghost buffers: seq<seq<byte>>)
      returns (ghost actions: seq<Action>)
      requires Valid() && !handler.stopped && slot < |handler.clients|
      requires Untouched(slot, slots, histories, buffers)
      modifies handler`net, handler`wires, handler.At(slot), sensorRequestsQueue
      ensures Valid() && View() == Run(old(View()), actions)
      ensures Untouched(slot + 1, slots, histories, buffers)
      ensures Closings(buffers, slots, writable, slot + 1) == Closings(buffers, slots, writable, slot) + actions
    {
      hide Inv, Traced, Step, With, Sends, Receives;
      actions := [];
      assert Handler.ClientsHandler.Implements(handler.clients[slot], handler.net.slots[slot], slot, false);
      assert forall c :: slot < c < |slots| ==> handler.clients[c] !in handler.At(slot);
      if slot in writable && handler.clients[slot].socket >= 0 {
        actions := SendTo(slot, writable[slot]);
      }
    }

    /** The loop of trySend. */
    method SendToAll(writable: map<nat, int>) returns (ghost actions: seq<Action>)
      requires Valid() && !handler.stopped
      modifies handler`net, handler`wires, handler.clients, sensorRequestsQueue
      ensures Valid() && !handler.stopped && View() == Run(old(View()), actions)
      ensures actions == Closings(old(handler.OutBuffers()), old(handler.net.slots), writable, |handler.clients|)
    {
      hide Inv, Traced, Step, With, TokensDistinct, Sends, Receives, Handler.ClientsHandler.Implements;
      hide Handler.ClientsHandler.OnStream, Handler.ClientsHandler.OnWire;
      ghost var histories, buffers, slots := handler.Histories(), handler.OutBuffers(), handler.net.slots;
      actions := [];
      assert actions == Closings(buffers, slots, writable, 0);
      for slot := 0 to |handler.clients|
        invariant Valid() && !handler.stopped && View() == Run(old(View()), actions)
        invariant actions == Closings(buffers, slots, writable, slot)
        invariant Untouched(slot, slots, histories, buffers)
      {
        ghost var more := SendTurn(slot, writable, slots, histories, buffers);
        RunOfRuns(old(View()), actions, more);
        actions := actions + more;
      }
    }

    /** getFreeHandler, then tryAccept if a slot was free and a connection is there. */
    method ChooseAndAccept(arrival: Option<Arrival>) returns (ghost actions: seq<Action>)
      requires Valid() && !handler.stopped
      modifies handler`freeHandler, handler`net, handler`wires, handler`streams, handler.clients
      ensures Valid() && !handler.stopped && View() == Run(old(View()), actions)
      ensures actions == Acceptance(old(View().slots), arrival)
      ensures handler.Histories() == old(handler.Histories()) && handler.OutBuffers() == old(handler.OutBuffers())
    {
      hide Inv, Traced, Step, FirstFree, With, Sends, Receives, TokensDistinct, Handler.ClientsHandler.Implements;
      ghost var start := View();
      ViewIsOfNet();
      actions := [];
      Choose();
      RunOfOneMore(start, actions, ScanSlots);
      actions := actions + [ScanSlots];
      if handler.freeHandler >= 0 && arrival != None {
        AcceptOne(arrival.value);
        RunOfOneMore(start, actions, AcceptConnection(arrival.value.ip, arrival.value.port));
        actions := actions + [AcceptConnection(arrival.value.ip, arrival.value.port)];
      }
    }

    method Choose()
      requires Valid()
      modifies handler`freeHandler, handler`net
      ensures Valid() && View() == Step(old(View()), ScanSlots)
      ensures handler.freeHandler == FirstFree(old(handler.net.slots), 0)
      ensures handler.net.armed <==> handler.freeHandler >= 0
    {
      hide Inv, Traced, FirstFree, Sends, Receives, TokensDistinct, Handler.ClientsHandler.Implements;
      ghost var before, net := View(), handler.net;
      handler.ChooseFreeHandler();
      NetworkStep(before, net, ScanSlots);
      SameLogKeepsTraced(before, View(), handler.streams);
    }

    method AcceptOne(arrival: Arrival)
      requires Valid() && handler.net.armed
      modifies handler`net, handler`wires, handler`streams, handler.At(handler.freeHandler)
      ensures Valid() && View() == Step(old(View()), AcceptConnection(arrival.ip, arrival.port))
      ensures handler.Histories() == old(handler.Histories()) && handler.OutBuffers() == old(handler.OutBuffers())
    {
      hide Inv, Traced, Accept, Sends, Receives, TokensDistinct, Handler.ClientsHandler.Implements,
        Handler.ClientsHandler.OnStream;
      ghost var before, net, streams := View(), handler.net, handler.streams;
      ArmedSlotIsFree(before);
      InvHasConnInv(before);
      assert forall c :: 0 <= c < |handler.clients| && c != handler.freeHandler ==>
          handler.clients[c] !in handler.At(handler.freeHandler);
      handler.BindHandler(arrival.socket, arrival.ip, arrival.port);
      NetworkStep(before, net, AcceptConnection(arrival.ip, arrival.port));
      AcceptKeepsTraced(before, arrival.ip, arrival.port, streams);
    }
  }

  lemma ArmedSlotIsFree(st: State)
    requires Inv(st) && st.armed
    ensures 0 <= st.freeHandler < |st.slots| && st.slots[st.freeHandler].Free?
  {
  }
}
