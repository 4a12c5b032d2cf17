/** How the two maps of the session protocol mirror each other. */
module SessionLinks {
  import opened Wire
  import opened Session
  import opened SessionInvariants
  import opened SessionProperties

  /** Every registered sensor's client stands for that sensor. */
  ghost predicate Linked(st: State) {
    forall id <- st.s2c :: st.s2c[id] in st.c2s && st.c2s[st.s2c[id]] == id
  }

  /** The maps are inverse to each other: no sensor has two clients, no client two sensors. */
  ghost predicate Inverse(st: State) {
    Linked(st) && forall c <- st.c2s :: st.c2s[c] in st.s2c && st.s2c[st.c2s[c]] == c
  }

  /** No connection has sent two inits. */
  ghost predicate OneInit(log: seq<Entry>) {
    forall i, j :: 0 <= i < j < |log| && log[i].request.Connected? && log[j].request.Connected? ==>
      log[i].conn != log[j].conn
  }

  ghost predicate LinkInv(st: State) {
    OneInit(st.log) ==> Linked(st) && (st.adminKills == 0 ==> Inverse(st))
  }

  lemma OneInitOfPrefix(log: seq<Entry>, log': seq<Entry>)
    requires log <= log' && OneInit(log')
    ensures OneInit(log)
  {
    assert forall k :: 0 <= k < |log| ==> log'[k] == log[k];
  }

  /** No init of the connection of log entry n has been processed before it. */
  ghost predicate IsFirstInit(log: seq<Entry>, n: nat)
    requires n < |log|
  {
    forall j :: 0 <= j < n && log[j].request.Connected? ==> log[j].conn != log[n].conn
  }

  /** An init being processed finds its slot unregistered, unless its connection had sent one before. */
  lemma FirstInitFindsNoClient(st: State)
    requires Inv(st) && |st.verdicts| < |st.log| && st.log[|st.verdicts|].request.Connected?
    requires IsFirstInit(st.log, |st.verdicts|)
    ensures st.log[|st.verdicts|].request.clientId !in st.c2s
  {
    hide ScanInv, DbInv, SlotsInv, VerdictInv, TurnsInv;
    var n := |st.verdicts|;
    var c := st.log[n].request.clientId;
    var done := st.log[..n];
    assert Lookup(st.c2s, c) == Registration(done, st.verdicts, c);
    if c in st.c2s {
      var j := RegistrationSource(done, st.verdicts, c);
      AcceptedEntryIsInit(st, j);
      assert EntryInv(st.conns, st.log, j) && EntryInv(st.conns, st.log, n) && Separated(st.conns, st.log, j, n);
      forall k | j <= k < n && st.log[k].request.clientId == c
        ensures !IsGoodbye(st.log[k])
      {
        assert done[k] == st.log[k];
      }
      assert false;
    }
  }

  lemma OneInitIsFirst(log: seq<Entry>, n: nat)
    requires OneInit(log) && n < |log| && log[n].request.Connected?
    ensures IsFirstInit(log, n)
  {
  }

  lemma AcceptedEntryIsInit(st: State, j: nat)
    requires VerdictInv(st) && j < |st.verdicts| && st.verdicts[j] != None
    ensures st.log[j].request.Connected?
  {
  }

  /** Registering a new pair keeps both directions, if neither side was registered. */
  lemma RegisteringKeepsLinks(st: State, st': State, id: int32, c: int)
    requires Linked(st) && id !in st.s2c && c !in st.c2s
    requires st'.c2s == st.c2s[c := id] && st'.s2c == st.s2c[id := c]
    ensures Linked(st') && (Inverse(st) ==> Inverse(st'))
  {
  }

  lemma GoodbyeKeepsLinks(st: State, st': State, c: int)
    requires Linked(st) && c in st.c2s
    requires st'.c2s == st.c2s - {c} && st'.s2c == st.s2c - {st.c2s[c]}
    ensures Linked(st') && (Inverse(st) ==> Inverse(st'))
  {
  }

  ghost predicate SameMaps(st: State, st': State) {
    st'.c2s == st.c2s && st'.s2c == st.s2c && st'.adminKills == st.adminKills && st.log <= st'.log
  }

  lemma KillLeavesMaps(st: State, c: int, reason: int32)
    ensures SameMaps(st, Judge(KillSensor(st, c, reason), None))
  {
  }

  ghost predicate Registers(st: State, st': State, id: int32, c: int) {
    && id !in st.s2c && st'.c2s == st.c2s[c := id] && st'.s2c == st.s2c[id := c]
    && st'.adminKills == st.adminKills && st.log <= st'.log
  }

  lemma InitExecutionMaps(st: State, serverTime: int64)
    requires |st.verdicts| < |st.log| && st.log[|st.verdicts|].request.Connected?
    ensures var st' := Execute(st, serverTime);
      || SameMaps(st, st')
      || exists id :: Registers(st, st', id, st.log[|st.verdicts|].request.clientId)
  {
    hide KillSensor, Activate, SameMaps;
    var request, st' := st.log[|st.verdicts|].request, Execute(st, serverTime);
    if TokenExists(st.rows, request.token) {
      var id, c := SensorId(st.rows, request.token), request.clientId;
      if st.rows[id].status == Revoked {
        KillLeavesMaps(st, c, KILL_SENSOR_INCORRECT_TOKEN);
      } else if id in st.s2c {
        KillLeavesMaps(st, c, KILL_SENSOR_TOKEN_ACTIVE);
      } else {
        assert Registers(st, st', id, c);
      }
    } else {
      Unjudged(st, st');
    }
  }

  lemma Unjudged(st: State, st': State)
    requires st' == Judge(st, None)
    ensures SameMaps(st, st')
  {
  }

  lemma OtherExecutionMaps(st: State, serverTime: int64)
    requires |st.verdicts| < |st.log| && !st.log[|st.verdicts|].request.Connected?
    ensures var request, st' := st.log[|st.verdicts|].request, Execute(st, serverTime);
      && st'.adminKills == st.adminKills && st.log <= st'.log
      && if request.Disconnected? && request.clientId in st.c2s
         then st'.c2s == st.c2s - {request.clientId} && st'.s2c == st.s2c - {st.c2s[request.clientId]}
         else SameMaps(st, st')
  {
  }

  lemma ExecutionKeepsLinks(st: State, serverTime: int64)
    requires Inv(st) && OneInit(st.log) && Linked(st)
    ensures var st' := Execute(st, serverTime);
      Linked(st') && (Inverse(st) ==> Inverse(st')) && st'.adminKills == st.adminKills
  {
    var st' := Execute(st, serverTime);
    if |st.verdicts| < |st.log| {
      hide Inv, OneInit, Execute;
      var request := st.log[|st.verdicts|].request;
      if request.Connected? {
        InitExecutionMaps(st, serverTime);
        OneInitIsFirst(st.log, |st.verdicts|);
        FirstInitFindsNoClient(st);
        if !SameMaps(st, st') {
          var id :| Registers(st, st', id, request.clientId);
          RegisteringKeepsLinks(st, st', id, request.clientId);
        }
      } else {
        OtherExecutionMaps(st, serverTime);
        if request.Disconnected? && request.clientId in st.c2s {
          GoodbyeKeepsLinks(st, st', request.clientId);
        }
      }
    }
  }

  lemma AdminKillKeepsLinks(st: State, id: int32, rows: Rows, reason: int32)
    requires Linked(st)
    ensures var st' := AdminKill(st, id, rows, reason);
      Linked(st') && st.log <= st'.log && (st' == st || st'.adminKills > 0)
  {
  }

  lemma LogGrows(st: State, a: Action)
    requires Inv(st)
    ensures st.log <= Step(st, a).log
  {
    hide Inv, AdminKill;
    match a {
      case ExecuteNext(serverTime) =>
        if |st.verdicts| < |st.log| {
          hide Execute;
          if st.log[|st.verdicts|].request.Connected? {
            InitExecutionMaps(st, serverTime);
          } else {
            OtherExecutionMaps(st, serverTime);
          }
        }
      case RevokeSensor(id) => AdminKillLog(st, id, Revoke(st.rows, id), KILL_SENSOR_REVOKED);
      case DisconnectSensor(id) => AdminKillLog(st, id, Deactivate(st.rows, id), KILL_SENSOR_DISCONNECTED);
      case RenameSensor(_, _) =>
      case GenerateToken(_, _) =>
      case _ => NetworkKeepsInv(st, a);
    }
  }

  lemma AdminKillLog(st: State, id: int32, rows: Rows, reason: int32)
    ensures st.log <= AdminKill(st, id, rows, reason).log
  {
  }

  lemma StepKeepsLinkInv(st: State, a: Action)
    requires Inv(st) && LinkInv(st)
    ensures LinkInv(Step(st, a))
  {
    hide Inv, OneInit, AdminKill, Execute;
    LogGrows(st, a);
    if OneInit(Step(st, a).log) {
      OneInitOfPrefix(st.log, Step(st, a).log);
      match a {
        case ExecuteNext(serverTime) => ExecutionKeepsLinks(st, serverTime);
        case RevokeSensor(id) => AdminKillKeepsLinks(st, id, Revoke(st.rows, id), KILL_SENSOR_REVOKED);
        case DisconnectSensor(id) => AdminKillKeepsLinks(st, id, Deactivate(st.rows, id), KILL_SENSOR_DISCONNECTED);
        case RenameSensor(_, _) =>
        case GenerateToken(_, _) =>
        case _ => NetworkKeepsInv(st, a);
      }
    }
  }

  lemma {:induction false} RunKeepsLinkInv(st: State, actions: seq<Action>)
    requires Inv(st) && LinkInv(st)
    ensures LinkInv(Run(st, actions))
    decreases |actions|
  {
    hide Inv, LinkInv, Step;
    if actions != [] {
      StepKeepsInv(st, actions[0]);
      StepKeepsLinkInv(st, actions[0]);
      RunKeepsLinkInv(Step(st, actions[0]), actions[1..]);
    }
  }

  /** When every connection sends at most one init, each registered sensor's client stands for
      it in every reachable state, admin kills included; without admin kills the maps are
      exact inverses. */
  lemma MapsMirrorEachOther(start: State, actions: seq<Action>)
    requires Initial(start) && OneInit(Run(start, actions).log)
    ensures Linked(Run(start, actions))
    ensures Run(start, actions).adminKills == 0 ==> Inverse(Run(start, actions))
  {
    InitialInv(start);
    RunKeepsLinkInv(start, actions);
  }

  /** Exactly when the init assumption matters: accepting an init keeps the link exactly when
      its client is not registered for another sensor. */
  lemma AcceptanceKeepsLinkIff(st: State, serverTime: int64)
    requires Inv(st) && Linked(st) && |st.verdicts| < |st.log| && st.log[|st.verdicts|].request.Connected?
    requires var token := st.log[|st.verdicts|].request.token;
      && TokenExists(st.rows, token)
      && var id := SensorId(st.rows, token); st.rows[id].status != Revoked && id !in st.s2c
    ensures Linked(Execute(st, serverTime)) <==> st.log[|st.verdicts|].request.clientId !in st.s2c.Values
  {
    hide ConnInv, ScanInv, ReplayInv, VerdictInv, DbInv, Activate;
    var request, st' := st.log[|st.verdicts|].request, Execute(st, serverTime);
    var id, c := SensorId(st.rows, request.token), request.clientId;
    assert st'.c2s == st.c2s[c := id] && st'.s2c == st.s2c[id := c];
    if c in st.s2c.Values {
      var other :| other in st.s2c && st.s2c[other] == c;
      assert st'.s2c[other] == c && st'.c2s[c] == id;
    } else {
      assert forall other :: other in st.s2c ==> st.s2c[other] in st.s2c.Values;
    }
  }

  /** An admin kill keeps the maps inverse exactly when the sensor was not registered: it takes
      the sensor out of one map only, and the client's disconnection has yet to be processed. */
  lemma AdminKillKeepsInverseIff(st: State, id: int32, rows: Rows, reason: int32)
    requires Inverse(st)
    ensures Inverse(AdminKill(st, id, rows, reason)) <==> id !in st.s2c || id !in st.rows
  {
    var st' := AdminKill(st, id, rows, reason);
    if id in st.s2c && id in st.rows {
      var c := st.s2c[id];
      assert st'.c2s == st.c2s && st'.s2c == st.s2c - {id};
      assert c in st'.c2s && st'.c2s[c] == id;
    }
  }
}
