/** Which connection a registered sensor belongs to, and whose address its row holds. */
module SessionAddresses {
  import opened Wire
  import opened Session
  import opened SessionInvariants

  // ---- the next request of the executor ----

  /** An init whose token names a sensor. */
  ghost predicate NextNames(st: State, id: int32) {
    && |st.verdicts| < |st.log| && st.log[|st.verdicts|].request.Connected?
    && TokenExists(st.rows, st.log[|st.verdicts|].request.token)
    && id == SensorId(st.rows, st.log[|st.verdicts|].request.token)
  }

  ghost predicate NextAccepted(st: State, id: int32) {
    NextNames(st, id) && st.rows[id].status != Revoked && id !in st.s2c
  }

  ghost predicate NextRejected(st: State, id: int32) {
    NextNames(st, id) && (st.rows[id].status == Revoked || id in st.s2c)
  }

  /** An accepted init registers its client for its sensor, activates the sensor's row with the
      address it came with, and changes no other registration and no other row. */
  lemma AcceptanceRegisters(st: State, serverTime: int64, id: int32)
    requires DbInv(st) && NextAccepted(st, id)
    ensures var request, st' := st.log[|st.verdicts|].request, Execute(st, serverTime);
      && st'.rows == st.rows[id := st.rows[id].(ip := request.ip, port := request.port, status := Active)]
      && st'.s2c == st.s2c[id := request.clientId] && st'.c2s == st.c2s[request.clientId := id]
      && st'.verdicts == st.verdicts + [Some(id)]
      && st'.log == st.log && st'.conns == st.conns && st'.slots == st.slots && st'.stored == st.stored
  {
    var request := st.log[|st.verdicts|].request;
    ActivateOne(st.rows, request.ip, request.port, request.token, id);
  }

  /** Any other init registers nobody. */
  lemma OtherInitRegistersNobody(st: State, serverTime: int64)
    requires |st.verdicts| < |st.log| && st.log[|st.verdicts|].request.Connected?
    requires forall id :: !NextAccepted(st, id)
    ensures var st' := Execute(st, serverTime);
      && st'.rows == st.rows && st'.s2c == st.s2c && st'.c2s == st.c2s && st'.stored == st.stored
      && st'.verdicts == st.verdicts + [None] && st.log <= st'.log
  {
    var request := st.log[|st.verdicts|].request;
    if TokenExists(st.rows, request.token) {
      var id := SensorId(st.rows, request.token);
      assert !NextAccepted(st, id);
      KillLeavesTables(st, request.clientId, KILL_SENSOR_INCORRECT_TOKEN);
      KillLeavesTables(st, request.clientId, KILL_SENSOR_TOKEN_ACTIVE);
    }
  }

  lemma KillLeavesTables(st: State, c: int, reason: int32)
    ensures var st' := KillSensor(st, c, reason);
      && st'.rows == st.rows && st'.s2c == st.s2c && st'.c2s == st.c2s && st'.stored == st.stored
      && st'.verdicts == st.verdicts && st.log <= st'.log && st'.adminKills == st.adminKills
  {
  }

  // ---- the registrar of a sensor ----

  /** The last accepted init that named the sensor. */
  function Registrar(verdicts: seq<Option<int32>>, id: int32): (j: Option<nat>)
    ensures j != None ==> j.value < |verdicts| && verdicts[j.value] == Some(id)
    ensures forall k :: (if j == None then 0 else j.value + 1) <= k < |verdicts| ==> verdicts[k] != Some(id)
  {
    if verdicts == [] then None
    else
      var n := |verdicts| - 1;
      if verdicts[n] == Some(id) then Some(n) else Registrar(verdicts[..n], id)
  }

  lemma RegistrarOfNext(verdicts: seq<Option<int32>>, verdict: Option<int32>, id: int32)
    ensures Registrar(verdicts + [verdict], id) ==
      if verdict == Some(id) then Some(|verdicts|) else Registrar(verdicts, id)
  {
    assert (verdicts + [verdict])[..|verdicts|] == verdicts;
  }

  /** Sensor id's registration and row are those of its registrar: client, token and address. */
  ghost predicate RegisteredByRegistrar(st: State, id: int32) {
    && |st.verdicts| <= |st.log| && Registrar(st.verdicts, id) != None
    && var request := st.log[Registrar(st.verdicts, id).value].request;
      && request.Connected?
      && id in st.s2c && st.s2c[id] == request.clientId
      && id in st.rows && st.rows[id].token == request.token
      && st.rows[id].ip == request.ip && st.rows[id].port == request.port
  }

  ghost predicate AddressInv(st: State) {
    forall id <- st.s2c :: RegisteredByRegistrar(st, id)
  }

  predicate SameConnection(row: Row, row': Row) {
    row'.token == row.token && row'.ip == row.ip && row'.port == row.port
  }

  /** If sensor id is registered afterwards, it was so before, in the same way. */
  ghost predicate Carries(st: State, st': State, id: int32) {
    && st.log <= st'.log && |st'.verdicts| <= |st'.log|
    && (id in st'.s2c ==>
          && Registrar(st'.verdicts, id) == Registrar(st.verdicts, id)
          && id in st.s2c && st'.s2c[id] == st.s2c[id]
          && (id in st.rows ==> id in st'.rows && SameConnection(st.rows[id], st'.rows[id])))
  }

  lemma RegistrationCarries(st: State, st': State, id: int32)
    requires AddressInv(st) && Carries(st, st', id) && id in st'.s2c
    ensures RegisteredByRegistrar(st', id)
  {
    assert RegisteredByRegistrar(st, id);
    var j := Registrar(st.verdicts, id).value;
    assert st'.log[j] == st.log[j];
  }

  lemma AdminKillCarries(st: State, other: int32, rows: Rows, reason: int32, id: int32)
    requires |st.verdicts| <= |st.log|
    requires rows == Revoke(st.rows, other) || rows == Deactivate(st.rows, other)
    ensures Carries(st, AdminKill(st, other, rows, reason), id)
  {
    hide KillSensor, Registrar;
    KillLeavesTables(st.(rows := rows), RegisteredClient(st, other), reason);
  }

  lemma OtherExecutionCarries(st: State, serverTime: int64, id: int32)
    requires |st.verdicts| < |st.log| && !st.log[|st.verdicts|].request.Connected?
    ensures Carries(st, Execute(st, serverTime), id)
  {
    hide Registrar;
    RegistrarOfNext(st.verdicts, None, id);
  }

  lemma InitRegisters(st: State, serverTime: int64, id: int32)
    requires DbInv(st) && |st.verdicts| < |st.log| && st.log[|st.verdicts|].request.Connected?
    ensures Carries(st, Execute(st, serverTime), id) || RegisteredByRegistrar(Execute(st, serverTime), id)
  {
    hide Execute, Registrar, TokensDistinct;
    if other :| NextAccepted(st, other) {
      AcceptanceRegisters(st, serverTime, other);
      RegistrarOfNext(st.verdicts, Some(other), id);
    } else {
      OtherInitRegistersNobody(st, serverTime);
      RegistrarOfNext(st.verdicts, None, id);
    }
  }

  lemma ExecutionRegisters(st: State, serverTime: int64, id: int32)
    requires Inv(st)
    ensures Carries(st, Execute(st, serverTime), id) || RegisteredByRegistrar(Execute(st, serverTime), id)
  {
    VerdictsWithinLog(st);
    if |st.verdicts| >= |st.log| {
      assert Execute(st, serverTime) == st;
    } else {
      hide ConnInv, ScanInv, ReplayInv, VerdictInv, Execute, Carries, RegisteredByRegistrar;
      if st.log[|st.verdicts|].request.Connected? {
        InitRegisters(st, serverTime, id);
      } else {
        OtherExecutionCarries(st, serverTime, id);
      }
    }
  }

  lemma StepRegisters(st: State, a: Action, id: int32)
    requires Inv(st)
    ensures Carries(st, Step(st, a), id) || RegisteredByRegistrar(Step(st, a), id)
  {
    hide ConnInv, ScanInv, DbInv, Execute, AdminKill, RegisteredByRegistrar, Registrar, Revoke, Deactivate;
    match a {
      case ExecuteNext(serverTime) => ExecutionRegisters(st, serverTime, id);
      case RevokeSensor(other) => AdminKillCarries(st, other, Revoke(st.rows, other), KILL_SENSOR_REVOKED, id);
      case DisconnectSensor(other) => AdminKillCarries(st, other, Deactivate(st.rows, other),
        KILL_SENSOR_DISCONNECTED, id);
      case RenameSensor(_, _) =>
      case GenerateToken(_, _) =>
      case _ => NetworkKeepsInv(st, a);
    }
  }

  lemma StepKeepsAddressInv(st: State, a: Action)
    requires Inv(st) && AddressInv(st)
    ensures AddressInv(Step(st, a))
  {
    hide Inv, Execute, AdminKill, RegisteredByRegistrar, Carries, Revoke, Deactivate;
    forall id | id in Step(st, a).s2c
      ensures RegisteredByRegistrar(Step(st, a), id)
    {
      StepRegisters(st, a, id);
      if Carries(st, Step(st, a), id) {
        RegistrationCarries(st, Step(st, a), id);
      }
    }
  }

  lemma {:induction false} RunKeepsAddressInv(st: State, actions: seq<Action>)
    requires Inv(st) && AddressInv(st)
    ensures AddressInv(Run(st, actions))
    decreases |actions|
  {
    hide Inv, AddressInv, Step;
    if actions != [] {
      StepKeepsInv(st, actions[0]);
      StepKeepsAddressInv(st, actions[0]);
      RunKeepsAddressInv(Step(st, actions[0]), actions[1..]);
    }
  }

  /** ... and its row holds the address of that init's connection, on whose slot its client is. */
  ghost predicate HasConnectionsAddress(st: State, id: int32)
    requires RegisteredByRegistrar(st, id)
  {
    var e := st.log[Registrar(st.verdicts, id).value].conn;
    && e < |st.conns| && st.s2c[id] == st.conns[e].slot
    && st.rows[id].ip == st.conns[e].ip && st.rows[id].port == st.conns[e].port
  }

  /** In every reachable state, a registered sensor's client, token and address are those of the
      last accepted init that named it, and of the connection that sent it. */
  lemma AddressIsTheConnections(start: State, actions: seq<Action>)
    requires Initial(start)
    ensures var st := Run(start, actions);
      forall id <- st.s2c :: RegisteredByRegistrar(st, id) && HasConnectionsAddress(st, id)
  {
    hide Run, Registrar, ScanInv, ReplayInv, VerdictInv, DbInv;
    var st := Run(start, actions);
    InitialInv(start);
    RunKeepsInv(start, actions);
    NobodyRegistered(start);
    RunKeepsAddressInv(start, actions);
    forall id | id in st.s2c
      ensures RegisteredByRegistrar(st, id) && HasConnectionsAddress(st, id)
    {
      assert EntryInv(st.conns, st.log, Registrar(st.verdicts, id).value);
    }
  }

  lemma NobodyRegistered(st: State)
    requires Initial(st)
    ensures AddressInv(st)
  {
  }
}
