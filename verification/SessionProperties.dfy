/** What holds of the sensor session protocol in every run. */
module SessionProperties {
  import opened Wire
  import opened Session
  import opened SessionInvariants

  // ---- whose measurement is it ----

  /** Measurement k was received as log entry i, after k stored ones, on the connection that had
      sent, as log entry j, the token of the sensor it is stored under. */
  ghost predicate StoredFrom(st: State, k: nat, i: nat, j: nat) {
    && k < |st.stored| && j < i < |st.verdicts| <= |st.log|
    && st.log[i].request.Measured?
    && st.stored[k].value == st.log[i].request.value
    && st.stored[k].timestamp == Int32(st.log[i].request.timestamp)
    && |Attributed(st.log[..i], st.verdicts[..i])| == k
    && st.log[j].conn == st.log[i].conn
    && st.log[j].request.Connected?
    && st.verdicts[j] == Some(st.stored[k].sensorId)
    && Names(st.rows, st.log[j].request.token, st.stored[k].sensorId)
  }

  /** The accepted init that a registration comes from, with no goodbye since. */
  lemma {:induction false} RegistrationSource(done: seq<Entry>, verdicts: seq<Option<int32>>, c: int) returns (j: nat)
    requires |done| == |verdicts| && Registration(done, verdicts, c) != None
    ensures j < |done| && done[j].request.clientId == c && verdicts[j] == Registration(done, verdicts, c)
    ensures forall k :: j <= k < |done| && done[k].request.clientId == c ==> !IsGoodbye(done[k])
  {
    var n := |done| - 1;
    if done[n].request.clientId == c && verdicts[n] != None {
      j := n;
    } else {
      j := RegistrationSource(done[..n], verdicts[..n], c);
      forall k | j <= k < |done| && done[k].request.clientId == c
        ensures !IsGoodbye(done[k])
      {
        assert k < n ==> done[..n][k] == done[k];
      }
    }
  }

  lemma {:induction false} RegistrationPresent(done: seq<Entry>, verdicts: seq<Option<int32>>, c: int, j: nat)
    requires |done| == |verdicts| && j < |done| && done[j].request.clientId == c && verdicts[j] != None
    requires forall k :: j <= k < |done| && done[k].request.clientId == c ==> !IsGoodbye(done[k])
    ensures Registration(done, verdicts, c) != None
  {
    var n := |done| - 1;
    if j < n {
      forall k | j <= k < n && done[..n][k].request.clientId == c
        ensures !IsGoodbye(done[..n][k])
      {
        assert done[..n][k] == done[k];
      }
      RegistrationPresent(done[..n], verdicts[..n], c, j);
    }
  }

  /** What the measurement request at i stores. */
  function Record(done: seq<Entry>, verdicts: seq<Option<int32>>, i: nat): Stored
    requires i < |done| == |verdicts| && done[i].request.Measured?
    requires Registration(done[..i], verdicts[..i], done[i].request.clientId) != None
  {
    Stored(Registration(done[..i], verdicts[..i], done[i].request.clientId).value,
           done[i].request.value, Int32(done[i].request.timestamp))
  }

  lemma {:induction false} AttributedSource(done: seq<Entry>, verdicts: seq<Option<int32>>, k: nat) returns (i: nat)
    requires |done| == |verdicts| && k < |Attributed(done, verdicts)|
    ensures i < |done| && done[i].request.Measured?
    ensures Registration(done[..i], verdicts[..i], done[i].request.clientId) != None
    ensures |Attributed(done[..i], verdicts[..i])| == k
    ensures Attributed(done, verdicts)[k] == Record(done, verdicts, i)
  {
    var n := |done| - 1;
    if k < |Attributed(done[..n], verdicts[..n])| {
      i := AttributedSource(done[..n], verdicts[..n], k);
      assert done[..n][..i] == done[..i] && verdicts[..n][..i] == verdicts[..i];
    } else {
      i := n;
    }
  }

  lemma {:induction false} AttributedPresent(done: seq<Entry>, verdicts: seq<Option<int32>>, i: nat)
    requires i < |done| == |verdicts| && done[i].request.Measured?
    requires Registration(done[..i], verdicts[..i], done[i].request.clientId) != None
    ensures var k := |Attributed(done[..i], verdicts[..i])|;
      k < |Attributed(done, verdicts)| && Attributed(done, verdicts)[k] == Record(done, verdicts, i)
  {
    var n := |done| - 1;
    if i < n {
      assert done[..n][..i] == done[..i] && verdicts[..n][..i] == verdicts[..i];
      AttributedPresent(done[..n], verdicts[..n], i);
    }
  }

  /** The registration in force when entry i is processed is of entry i's own connection. */
  lemma RegistrationOfOwnConnection(st: State, i: nat) returns (j: nat)
    requires Inv(st) && i < |st.verdicts|
    requires Registration(st.log[..i], st.verdicts[..i], st.log[i].request.clientId) != None
    ensures j < i && st.log[j].conn == st.log[i].conn && st.log[j].request.Connected?
    ensures st.verdicts[j] == Registration(st.log[..i], st.verdicts[..i], st.log[i].request.clientId)
    ensures Names(st.rows, st.log[j].request.token, st.verdicts[j].value)
  {
    hide ScanInv, DbInv, SlotsInv;
    var done, c := st.log[..i], st.log[i].request.clientId;
    j := RegistrationSource(done, st.verdicts[..i], c);
    assert EntryInv(st.conns, st.log, j) && EntryInv(st.conns, st.log, i) && Separated(st.conns, st.log, j, i);
    forall k | j <= k < i && st.log[k].request.clientId == c
      ensures !IsGoodbye(st.log[k])
    {
      assert done[k] == st.log[k];
    }
  }

  ghost predicate HasSource(st: State, k: nat) {
    exists i: nat, j: nat :: StoredFrom(st, k, i, j)
  }

  ghost predicate IsKept(st: State, i: nat) {
    exists k: nat, j: nat :: StoredFrom(st, k, i, j)
  }

  /** An init of the same connection, earlier in the log, was accepted. */
  ghost predicate AcceptedBefore(st: State, i: nat)
    requires i < |st.verdicts| <= |st.log|
  {
    exists j: nat :: j < i && st.verdicts[j] != None && st.log[j].conn == st.log[i].conn
  }

  /** In every run, however slots are reused and requests delayed: every stored measurement came in
      on a connection whose own earlier init token named its sensor.  A run stands for what the code
      does as long as its actions are Plain (see Statements): tokens here are values, and the
      statements take a token for its value exactly when it has no apostrophe. */
  lemma EveryMeasurementIsItsSenders(start: State, actions: seq<Action>)
    requires Initial(start)
    ensures var st := Run(start, actions);
      forall k: nat :: k < |st.stored| ==> HasSource(st, k)
  {
    var st := Run(start, actions);
    InitialInv(start);
    RunKeepsInv(start, actions);
    forall k: nat | k < |st.stored|
      ensures HasSource(st, k)
    {
      var i, j := SourceOfMeasurement(st, k);
    }
  }

  lemma SourceOfMeasurement(st: State, k: nat) returns (i: nat, j: nat)
    requires Inv(st) && k < |st.stored|
    ensures StoredFrom(st, k, i, j)
  {
    hide ConnInv, ScanInv, DbInv, VerdictInv;
    var n := |st.verdicts|;
    i := AttributedSource(st.log[..n], st.verdicts, k);
    assert st.log[..n][..i] == st.log[..i];
    j := RegistrationOfOwnConnection(st, i);
  }

  /** A processed measurement is stored exactly when an earlier init of its connection had been
      accepted; later kills, revocations and reconnections play no part. */
  lemma MeasurementIsKeptIff(start: State, actions: seq<Action>, i: nat)
    requires Initial(start)
    requires var st := Run(start, actions); i < |st.verdicts| <= |st.log| && st.log[i].request.Measured?
    ensures IsKept(Run(start, actions), i) <==> AcceptedBefore(Run(start, actions), i)
  {
    hide Step, Run, Inv;
    var st := Run(start, actions);
    InitialInv(start);
    RunKeepsInv(start, actions);
    if IsKept(st, i) {
      var k: nat, j: nat :| StoredFrom(st, k, i, j);
      assert st.verdicts[j] != None;
    }
    if AcceptedBefore(st, i) {
      var j: nat :| j < i && st.verdicts[j] != None && st.log[j].conn == st.log[i].conn;
      KeptAfterAcceptance(st, i, j);
    }
  }

  lemma KeptAfterAcceptance(st: State, i: nat, j: nat)
    requires Inv(st) && j < i < |st.verdicts| && st.log[i].request.Measured?
    requires st.verdicts[j] != None && st.log[j].conn == st.log[i].conn
    ensures IsKept(st, i)
  {
    hide ScanInv, DbInv, SlotsInv, Registration, Attributed;
    var n, c := |st.verdicts|, st.log[i].request.clientId;
    NoGoodbyeBetween(st, i, j);
    RegistrationPresent(st.log[..i], st.verdicts[..i], c, j);
    assert st.log[..n][..i] == st.log[..i];
    AttributedPresent(st.log[..n], st.verdicts, i);
    var k := |Attributed(st.log[..i], st.verdicts[..i])|;
    var j' := RegistrationOfOwnConnection(st, i);
    assert StoredFrom(st, k, i, j');
  }

  lemma NoGoodbyeBetween(st: State, i: nat, j: nat)
    requires Inv(st) && j < i < |st.verdicts| && st.log[j].conn == st.log[i].conn && !IsGoodbye(st.log[i])
    ensures st.log[j].request.clientId == st.log[i].request.clientId
    ensures forall k :: j <= k < i && st.log[..i][k].request.clientId == st.log[i].request.clientId ==>
      !IsGoodbye(st.log[..i][k])
  {
    hide ScanInv, DbInv, ReplayInv, VerdictInv;
    VerdictsWithinLog(st);
    assert EntryInv(st.conns, st.log, i) && EntryInv(st.conns, st.log, j);
    forall k | j <= k < i && st.log[..i][k].request.clientId == st.log[i].request.clientId
      ensures !IsGoodbye(st.log[..i][k])
    {
      assert EntryInv(st.conns, st.log, k);
      if k > j {
        assert Separated(st.conns, st.log, j, k);
      }
    }
  }

  // ---- slots ----

  /** The life of a connection: it is open exactly while its slot is live with it; otherwise it
      has queued exactly one disconnection, behind all its other requests.  Before the slot is given
      to a later connection it has been closed, and its disconnection stands before every request of
      that connection. */
  ghost predicate LivedOnce(st: State, e: nat)
    requires e < |st.conns|
  {
    var conn := st.conns[e];
    && (conn.closedAt == None <==> IsLive(st.slots, conn.slot) && st.slots[conn.slot].conn == e)
    && (forall k :: 0 <= k < |st.log| && st.log[k].conn == e ==> st.log[k].request.clientId == conn.slot)
    && (conn.closedAt == None ==> forall k :: 0 <= k < |st.log| && st.log[k].conn == e ==> !IsGoodbye(st.log[k]))
    && (conn.closedAt != None ==>
          var m := conn.closedAt.value;
          && m < |st.log|
          && (forall k :: 0 <= k < |st.log| && st.log[k].conn == e ==> k <= m && (IsGoodbye(st.log[k]) <==> k == m))
          && st.log[m].conn == e)
    && (forall f :: e < f < |st.conns| && st.conns[f].slot == conn.slot ==>
          conn.closedAt != None
          && forall k :: 0 <= k < |st.log| && st.log[k].conn == f ==> conn.closedAt.value < k)
  }

  lemma OneGoodbyePerConnection(start: State, actions: seq<Action>)
    requires Initial(start)
    ensures var st := Run(start, actions); forall e :: 0 <= e < |st.conns| ==> LivedOnce(st, e)
  {
    InitialInv(start);
    RunKeepsInv(start, actions);
    var st := Run(start, actions);
    forall e | 0 <= e < |st.conns|
      ensures LivedOnce(st, e)
    {
      ConnectionLivedOnce(st, e);
    }
  }

  lemma ConnectionLivedOnce(st: State, e: nat)
    requires Inv(st) && e < |st.conns|
    ensures LivedOnce(st, e)
  {
    hide ScanInv, DbInv, ReplayInv, VerdictInv;
    forall k | 0 <= k < |st.log| && st.log[k].conn == e
      ensures EntryInv(st.conns, st.log, k)
    {
    }
    forall f | e < f < |st.conns| && st.conns[f].slot == st.conns[e].slot
      ensures st.conns[e].closedAt != None
      ensures forall k :: 0 <= k < |st.log| && st.log[k].conn == f ==> st.conns[e].closedAt.value < k
    {
      assert InTurn(st.conns, st.log, e, f);
    }
  }

  /** A connection is never bound over a live one, and its client id is its slot's index. */
  lemma BindsAFreeSlot(start: State, actions: seq<Action>, ip: Text, port: int32)
    requires Initial(start) && Run(start, actions).armed
    ensures var st := Run(start, actions);
      var st' := Step(st, AcceptConnection(ip, port));
      && 0 <= st.freeHandler < |st.slots| && st.slots[st.freeHandler].Free?
      && st'.slots == st.slots[st.freeHandler := Live(|st.conns|, ip, port)]
      && st'.conns == st.conns + [Conn(st.freeHandler, ip, port, None)]
  {
    InitialInv(start);
    RunKeepsInv(start, actions);
  }

  /** The slot it is bound to is the lowest free one exactly when no lower slot has closed since
      the loop chose it; a kill by another thread during select can free a lower slot. */
  lemma BindsLowestIff(start: State, actions: seq<Action>)
    requires Initial(start) && Run(start, actions).armed
    ensures var st := Run(start, actions);
      FirstFree(st.slots, 0) == st.freeHandler <==> forall c :: 0 <= c < st.freeHandler ==> !ClosedSince(st, c)
  {
    InitialInv(start);
    RunKeepsInv(start, actions);
    var st := Run(start, actions);
    var f := FirstFree(st.slots, 0);
    assert 0 <= f <= st.freeHandler;
    if f < st.freeHandler {
      assert ClosedSince(st, f);
    }
  }

  // ---- active sensors ----

  /** A sensor's row is active exactly when the sensor has a registered connection, and tokens
      of distinct rows are distinct, so the row that addSensor activates is the one that
      getSensorId finds. */
  lemma ActiveIffRegistered(start: State, actions: seq<Action>)
    requires Initial(start)
    ensures var st := Run(start, actions);
      && (forall id :: id in st.rows && st.rows[id].status == Active <==> id in st.s2c)
      && (forall a, b :: a in st.rows && b in st.rows && st.rows[a].token == st.rows[b].token ==> a == b)
  {
    InitialInv(start);
    RunKeepsInv(start, actions);
    var st := Run(start, actions);
    forall a, b | a in st.rows && b in st.rows && st.rows[a].token == st.rows[b].token
      ensures a == b
    {
      assert Names(st.rows, st.rows[a].token, a) && Names(st.rows, st.rows[a].token, b);
    }
  }

  // ---- revoked sensors ----

  /** The clients that still count for a sensor. */
  ghost predicate RepresentedBy(st: State, id: int32, c: int) {
    c in st.c2s && st.c2s[c] == id
  }

  ghost predicate IsRevoked(st: State, id: int32) {
    id in st.rows && st.rows[id].status == Revoked
  }

  lemma AdminKillLeavesClients(st: State, id: int32, rows: Rows, reason: int32)
    ensures var st' := AdminKill(st, id, rows, reason);
      st'.c2s == st.c2s && st'.rows == if id in st.rows then rows else st.rows
  {
  }

  lemma RevokedStaysInStep(st: State, a: Action, id: int32)
    requires Inv(st) && IsRevoked(st, id)
    ensures var st' := Step(st, a);
      && IsRevoked(st', id) && id !in st'.s2c
      && forall c :: RepresentedBy(st', id, c) ==> RepresentedBy(st, id, c)
  {
    hide ConnInv, ScanInv, ReplayInv, VerdictInv, AdminKill;
    StepKeepsInv(st, a);
    match a {
      case ExecuteNext(serverTime) => RevokedStaysInExecution(st, serverTime, id);
      case RevokeSensor(other) => AdminKillLeavesClients(st, other, Revoke(st.rows, other), KILL_SENSOR_REVOKED);
      case DisconnectSensor(other) => AdminKillLeavesClients(st, other, Deactivate(st.rows, other),
        KILL_SENSOR_DISCONNECTED);
      case RenameSensor(_, _) =>
      case GenerateToken(_, _) =>
      case _ => NetworkKeepsInv(st, a);
    }
  }

  lemma RevokedStaysInExecution(st: State, serverTime: int64, id: int32)
    requires DbInv(st) && IsRevoked(st, id)
    ensures var st' := Execute(st, serverTime);
      && IsRevoked(st', id)
      && forall c :: RepresentedBy(st', id, c) ==> RepresentedBy(st, id, c)
  {
    if |st.verdicts| < |st.log| {
      match st.log[|st.verdicts|].request
      case Measured(_, _, _) =>
      case Disconnected(_) =>
      case Connected(c, ip, port, token) =>
        if TokenExists(st.rows, token) {
          var other := SensorId(st.rows, token);
          if st.rows[other].status != Revoked && other !in st.s2c {
            ActivateOne(st.rows, ip, port, token, other);
          }
        }
    }
  }

  /** Revocation is for ever, in every run from every state: the status stays, the sensor never
      re-enters the map, and no client comes to count for it. */
  lemma {:induction false} RevokedIsAbsorbing(st: State, actions: seq<Action>, id: int32)
    requires Inv(st) && IsRevoked(st, id)
    ensures var st' := Run(st, actions);
      && IsRevoked(st', id) && id !in st'.s2c
      && forall c :: RepresentedBy(st', id, c) ==> RepresentedBy(st, id, c)
    decreases |actions|
  {
    hide ConnInv, ScanInv, ReplayInv, VerdictInv, Step;
    if actions != [] {
      StepKeepsInv(st, actions[0]);
      RevokedStaysInStep(st, actions[0], id);
      RevokedIsAbsorbing(Step(st, actions[0]), actions[1..], id);
    }
  }
}
