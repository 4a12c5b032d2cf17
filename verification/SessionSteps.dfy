/** What the steps write, field by field, and what a revocation and a rename mean for all that follows. */
module SessionSteps {
  import opened Wire
  import opened Session
  import opened SessionInvariants
  import opened SessionProperties
  import opened SessionAddresses

  // ---- one step ----

  /** Whoever has slot c is sent the reason, loses the slot, and has its goodbye queued; if nobody has
      it, nothing is sent, freed or queued. */
  ghost predicate Kills(st: State, st': State, c: int, reason: int32) {
    if 0 <= c < |st.slots| && st.slots[c].Live? then
      var e := st.slots[c].conn;
      && st'.sent == st.sent + [Sent(e, Rejected(reason))]
      && st'.slots == st.slots[c := Free]
      && st'.log == st.log + [Entry(Disconnected(c), e)]
      && (e < |st.conns| ==> st'.conns == st.conns[e := st.conns[e].(closedAt := Some(|st.log|))])
    else
      st'.sent == st.sent && st'.slots == st.slots && st'.log == st.log && st'.conns == st.conns
  }

  lemma KillSensorKills(st: State, c: int, reason: int32)
    ensures Kills(st, KillSensor(st, c, reason), c, reason)
  {
  }

  /** REVOKE_SENSOR: the row says so, the registration is gone, and the sensor's client, or client 0, is
      killed with reason 1.  An unknown sensor changes nothing. */
  lemma RevocationWrites(st: State, id: int32)
    ensures var st' := Step(st, RevokeSensor(id));
      if id !in st.rows then st' == st
      else
        && st'.rows == st.rows[id := st.rows[id].(status := Status.Revoked)]
        && st'.s2c == st.s2c - {id} && st'.c2s == st.c2s
        && st'.stored == st.stored && st'.verdicts == st.verdicts
        && Kills(st, st', if id in st.s2c then st.s2c[id] else 0, 1)
  {
    hide KillSensor;
    var updated, c := st.(rows := Revoke(st.rows, id)), RegisteredClient(st, id);
    KillSensorKills(updated, c, KILL_SENSOR_REVOKED);
    KillLeavesTables(updated, c, KILL_SENSOR_REVOKED);
  }

  /** DISCONNECT_SENSOR: the same with reason 2, and a row that says inactive unless revoked. */
  lemma DisconnectionWrites(st: State, id: int32)
    ensures var st' := Step(st, DisconnectSensor(id));
      if id !in st.rows then st' == st
      else
        && st'.rows == st.rows[id := st.rows[id].(
             status := if st.rows[id].status == Status.Revoked then Status.Revoked else Inactive)]
        && st'.s2c == st.s2c - {id} && st'.c2s == st.c2s
        && st'.stored == st.stored && st'.verdicts == st.verdicts
        && Kills(st, st', if id in st.s2c then st.s2c[id] else 0, 2)
  {
    hide KillSensor;
    var updated, c := st.(rows := Deactivate(st.rows, id)), RegisteredClient(st, id);
    KillSensorKills(updated, c, KILL_SENSOR_DISCONNECTED);
    KillLeavesTables(updated, c, KILL_SENSOR_DISCONNECTED);
  }

  /** UPDATE_SENSOR_NAME */
  lemma RenamingWrites(st: State, id: int32, name: Text)
    ensures Step(st, RenameSensor(id, name)) ==
      if id in st.rows then st.(rows := st.rows[id := st.rows[id].(name := name)]) else st
  {
  }

  /** GENERATE_TOKEN, for a token and a key that no row has. */
  lemma GenerationWrites(st: State, token: Text, id: int32)
    requires id !in st.rows && forall other <- st.rows :: st.rows[other].token != token
    ensures Step(st, GenerateToken(token, id)) == st.(rows := st.rows[id := Row([], token, Fresh, [], 0)])
  {
  }

  /** An init for a sensor that is revoked is answered with reason 3, for one that is registered with
      reason 4; for any other the row and both maps change, and the answer is the server's time. */
  lemma InitWrites(st: State, serverTime: int64, id: int32)
    requires DbInv(st) && NextNames(st, id)
    ensures var st', request := Step(st, ExecuteNext(serverTime)), st.log[|st.verdicts|].request;
      var c := request.clientId;
      && st'.stored == st.stored
      && (if st.rows[id].status == Status.Revoked || id in st.s2c then
            && st'.rows == st.rows && st'.s2c == st.s2c && st'.c2s == st.c2s && st'.verdicts == st.verdicts + [None]
            && Kills(st, st', c, if st.rows[id].status == Status.Revoked then 3 else 4)
          else
            && st'.rows == st.rows[id := st.rows[id].(ip := request.ip, port := request.port, status := Active)]
            && st'.s2c == st.s2c[id := c] && st'.c2s == st.c2s[c := id] && st'.verdicts == st.verdicts + [Some(id)]
            && st'.slots == st.slots && st'.log == st.log && st'.conns == st.conns
            && st'.sent == st.sent + if 0 <= c < |st.slots| && st.slots[c].Live?
                 then [Sent(st.slots[c].conn, Accepted(serverTime))] else [])
  {
    hide SensorId, Activate, TokensDistinct, KillSensor;
    var c := st.log[|st.verdicts|].request.clientId;
    KillSensorKills(st, c, KILL_SENSOR_INCORRECT_TOKEN);
    KillSensorKills(st, c, KILL_SENSOR_TOKEN_ACTIVE);
    KillLeavesTables(st, c, KILL_SENSOR_INCORRECT_TOKEN);
    KillLeavesTables(st, c, KILL_SENSOR_TOKEN_ACTIVE);
    if st.rows[id].status != Status.Revoked && id !in st.s2c {
      AcceptanceRegisters(st, serverTime, id);
    }
  }

  /** An init whose token no row has changes nothing, and is not answered. */
  lemma UnknownTokenWrites(st: State, serverTime: int64)
    requires |st.verdicts| < |st.log| && st.log[|st.verdicts|].request.Connected?
    requires forall id <- st.rows :: st.rows[id].token != st.log[|st.verdicts|].request.token
    ensures Step(st, ExecuteNext(serverTime)) == st.(verdicts := st.verdicts + [None])
  {
  }

  /** A measurement is stored under its client's sensor, if there is one; a goodbye makes that sensor
      inactive unless revoked, and takes client and sensor out of the maps. */
  lemma MeasurementAndGoodbyeWrite(st: State, serverTime: int64)
    requires |st.verdicts| < |st.log| && !st.log[|st.verdicts|].request.Connected?
    ensures var st', request := Step(st, ExecuteNext(serverTime)), st.log[|st.verdicts|].request;
      var c := request.clientId;
      if c !in st.c2s then st' == st.(verdicts := st.verdicts + [None])
      else if request.Measured? then
        st' == st.(verdicts := st.verdicts + [None],
                   stored := st.stored + [Stored(st.c2s[c], request.value, Int32(request.timestamp))])
      else
        var id := st.c2s[c];
        st' == st.(verdicts := st.verdicts + [None], s2c := st.s2c - {id}, c2s := st.c2s - {c}, rows :=
                     if id in st.rows && st.rows[id].status != Status.Revoked
                     then st.rows[id := st.rows[id].(status := Inactive)] else st.rows)
  {
  }

  /** A message on a live slot: a token is queued with the connection's address; a measurement is confirmed
      with its own time and queued in seconds; anything else closes the connection. */
  lemma ReceptionWrites(st: State, c: int, frame: Frame)
    requires IsLive(st.slots, c)
    ensures var st', slot := Step(st, ReceiveFrame(c, frame)), st.slots[c];
      match frame
      case InitFrame(token) =>
        st' == st.(log := st.log + [Entry(Connected(c, slot.ip, slot.port, token), slot.conn)])
      case MeasureFrame(timestamp, value) =>
        st' == st.(sent := st.sent + [Sent(slot.conn, Confirmed(timestamp))],
                   log := st.log + [Entry(Measured(c, value, Seconds(timestamp)), slot.conn)])
      case UnknownFrame =>
        && st'.slots == st.slots[c := Free] && st'.sent == st.sent
        && st'.log == st.log + [Entry(Disconnected(c), slot.conn)]
  {
  }

  /** A connection that its peer closes loses its slot, and its goodbye is queued; nothing is sent. */
  lemma ClosingWrites(st: State, c: int)
    requires IsLive(st.slots, c) && st.slots[c].conn < |st.conns|
    ensures var e := st.slots[c].conn;
      Step(st, PeerCloses(c)) == st.(
        slots := st.slots[c := Free], log := st.log + [Entry(Disconnected(c), e)],
        conns := st.conns[e := st.conns[e].(closedAt := Some(|st.log|))])
  {
  }

  // ---- after a revocation ----

  /** What was stored in between was not stored under the sensor. */
  ghost predicate NotStoredSince(st: State, st': State, id: int32) {
    st.stored <= st'.stored && forall k :: |st.stored| <= k < |st'.stored| ==> st'.stored[k].sensorId != id
  }

  /** After a revocation, whatever happens next: the sensor is revoked and unregistered, and every init
      that names it, from whatever connection, is rejected with reason 3. */
  lemma RevocationIsForEver(st: State, id: int32, actions: seq<Action>)
    requires Inv(st) && id in st.rows
    ensures var st' := Run(Step(st, RevokeSensor(id)), actions);
      && id in st'.rows && st'.rows[id].status == Status.Revoked && id !in st'.s2c
      && forall serverTime :: NextNames(st', id) ==> Rejects(st', serverTime, 3)
  {
    hide Run, Step, ConnInv, ScanInv, ReplayInv, VerdictInv, Kills;
    var first := Step(st, RevokeSensor(id));
    RevocationWrites(st, id);
    StepKeepsInv(st, RevokeSensor(id));
    RevokedIsAbsorbing(first, actions, id);
    RunKeepsInv(first, actions);
    var st' := Run(first, actions);
    forall serverTime | NextNames(st', id)
      ensures Rejects(st', serverTime, 3)
    {
      InitWrites(st', serverTime, id);
    }
  }

  /** The executor's next step registers nobody, and rejects and kills whoever is in the init's slot. */
  ghost predicate Rejects(st: State, serverTime: int64, reason: int32)
    requires |st.verdicts| < |st.log|
  {
    var st' := Step(st, ExecuteNext(serverTime));
    && st'.rows == st.rows && st'.s2c == st.s2c && st'.c2s == st.c2s
    && Kills(st, st', st.log[|st.verdicts|].request.clientId, reason)
  }

  lemma StoresForItsClients(st: State, a: Action, id: int32)
    requires forall c :: !RepresentedBy(st, id, c)
    ensures NotStoredSince(st, Step(st, a), id)
  {
    hide KillSensor, Activate, FirstFree;
    if a.ExecuteNext? && |st.verdicts| < |st.log| {
      var request := st.log[|st.verdicts|].request;
      assert !RepresentedBy(st, id, request.clientId);
      if request.Connected? {
        KillLeavesTables(st, request.clientId, KILL_SENSOR_INCORRECT_TOKEN);
        KillLeavesTables(st, request.clientId, KILL_SENSOR_TOKEN_ACTIVE);
      }
    }
    if a.RevokeSensor? {
      KillLeavesTables(st.(rows := Revoke(st.rows, a.id)), RegisteredClient(st, a.id), KILL_SENSOR_REVOKED);
    }
    if a.DisconnectSensor? {
      KillLeavesTables(st.(rows := Deactivate(st.rows, a.id)), RegisteredClient(st, a.id), KILL_SENSOR_DISCONNECTED);
    }
  }

  /** If no client stands for a revoked sensor, nothing is stored under it any more. */
  lemma {:induction false} RevokedStoresNothing(st: State, id: int32, actions: seq<Action>)
    requires Inv(st) && IsRevoked(st, id) && forall c :: !RepresentedBy(st, id, c)
    ensures NotStoredSince(st, Run(st, actions), id)
    decreases |actions|
  {
    hide Inv, Step;
    if actions != [] {
      var next := Step(st, actions[0]);
      StepKeepsInv(st, actions[0]);
      RevokedStaysInStep(st, actions[0], id);
      StoresForItsClients(st, actions[0], id);
      RevokedStoresNothing(next, id, actions[1..]);
    }
  }

  // ---- after a rename ----

  ghost predicate HasName(st: State, id: int32, name: Text) {
    id in st.rows && st.rows[id].name == name
  }

  lemma NameStaysInStep(st: State, a: Action, id: int32, name: Text)
    requires HasName(st, id, name) && !(a.RenameSensor? && a.id == id)
    ensures HasName(Step(st, a), id, name)
  {
    hide KillSensor, FirstFree;
    if a.ExecuteNext? && |st.verdicts| < |st.log| && st.log[|st.verdicts|].request.Connected? {
      var c := st.log[|st.verdicts|].request.clientId;
      KillLeavesTables(st, c, KILL_SENSOR_INCORRECT_TOKEN);
      KillLeavesTables(st, c, KILL_SENSOR_TOKEN_ACTIVE);
    }
    if a.RevokeSensor? {
      KillLeavesTables(st.(rows := Revoke(st.rows, a.id)), RegisteredClient(st, a.id), KILL_SENSOR_REVOKED);
    }
    if a.DisconnectSensor? {
      KillLeavesTables(st.(rows := Deactivate(st.rows, a.id)), RegisteredClient(st, a.id), KILL_SENSOR_DISCONNECTED);
    }
  }

  lemma {:induction false} NameStays(st: State, id: int32, name: Text, actions: seq<Action>)
    requires HasName(st, id, name) && forall a <- actions :: !(a.RenameSensor? && a.id == id)
    ensures HasName(Run(st, actions), id, name)
    decreases |actions|
  {
    hide Step;
    if actions != [] {
      NameStaysInStep(st, actions[0], id, name);
      NameStays(Step(st, actions[0]), id, name, actions[1..]);
    }
  }

  /** After a rename, and any actions that do not rename the sensor again, it has the new name. */
  lemma RenameSticks(st: State, id: int32, name: Text, actions: seq<Action>)
    requires id in st.rows && forall a <- actions :: !(a.RenameSensor? && a.id == id)
    ensures var st' := Run(Step(st, RenameSensor(id, name)), actions);
      id in st'.rows && st'.rows[id].name == name
  {
    hide Run, Step;
    RenamingWrites(st, id, name);
    NameStays(Step(st, RenameSensor(id, name)), id, name, actions);
  }
}
