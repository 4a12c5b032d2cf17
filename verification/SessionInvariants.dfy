/** What every step of the session protocol keeps. */
module SessionInvariants {
  import opened Wire
  import opened Session

  // ---- connections and the log ----

  /** Slots and connections know each other: a slot is live with a connection exactly as long
      as that connection has queued no disconnection. */
  ghost predicate SlotsInv(slots: seq<Slot>, conns: seq<Conn>) {
    && (forall c :: 0 <= c < |slots| && slots[c].Live? ==>
          slots[c].conn < |conns| && conns[slots[c].conn] == Conn(c, slots[c].ip, slots[c].port, None))
    && (forall e :: 0 <= e < |conns| ==> 0 <= conns[e].slot < |slots|)
    && (forall e :: 0 <= e < |conns| && conns[e].closedAt == None ==>
          slots[conns[e].slot].Live? && slots[conns[e].slot].conn == e)
  }

  predicate IsGoodbye(entry: Entry) {
    entry.request.Disconnected?
  }

  predicate FromAddress(request: Request, ip: Text, port: int32) {
    request.Connected? ==> request.ip == ip && request.port == port
  }

  /** Entry k is consistent with its connection: on that connection's slot and from its address, and
      the connection's goodbye is its last entry. */
  ghost predicate EntryInv(conns: seq<Conn>, log: seq<Entry>, k: int)
    requires 0 <= k < |log|
  {
    var e := log[k].conn;
    && e < |conns| && log[k].request.clientId == conns[e].slot
    && FromAddress(log[k].request, conns[e].ip, conns[e].port)
    && (IsGoodbye(log[k]) ==> conns[e].closedAt == Some(k))
    && (conns[e].closedAt != None ==> k <= conns[e].closedAt.value)
  }

  /** Between entries of two connections of one slot lies the first one's goodbye. */
  ghost predicate Separated(conns: seq<Conn>, log: seq<Entry>, i: int, j: int)
    requires 0 <= i < j < |log|
  {
    log[i].request.clientId == log[j].request.clientId && log[i].conn != log[j].conn ==>
      log[i].conn < |conns| &&
      var closed := conns[log[i].conn].closedAt; closed != None && closed.value < j
  }

  ghost predicate LogInv(conns: seq<Conn>, log: seq<Entry>) {
    && (forall k :: 0 <= k < |log| ==> EntryInv(conns, log, k))
    && (forall e :: 0 <= e < |conns| && conns[e].closedAt != None ==>
          conns[e].closedAt.value < |log|
          && log[conns[e].closedAt.value] == Entry(Disconnected(conns[e].slot), e))
    && (forall i, j :: 0 <= i < j < |log| ==> Separated(conns, log, i, j))
  }

  /** Of two connections of one slot, the one accepted first has said goodbye, and before every
      request of the other. */
  ghost predicate InTurn(conns: seq<Conn>, log: seq<Entry>, e: int, f: int)
    requires 0 <= e < f < |conns|
  {
    conns[e].slot == conns[f].slot ==>
      && conns[e].closedAt != None
      && forall k :: 0 <= k < |log| && log[k].conn == f ==> conns[e].closedAt.value < k
  }

  ghost predicate TurnsInv(conns: seq<Conn>, log: seq<Entry>) {
    forall e, f :: 0 <= e < f < |conns| ==> InTurn(conns, log, e, f)
  }

  ghost predicate ConnInv(st: State) {
    SlotsInv(st.slots, st.conns) && LogInv(st.conns, st.log) && TurnsInv(st.conns, st.log)
  }

  lemma PushKeepsTurns(st: State, c: int, request: Request)
    requires ConnInv(st) && IsLive(st.slots, c)
    ensures TurnsInv(Push(st, c, request).conns, Push(st, c, request).log)
  {
    var st' := Push(st, c, request);
    forall e, f | 0 <= e < f < |st'.conns|
      ensures InTurn(st'.conns, st'.log, e, f)
    {
      assert InTurn(st.conns, st.log, e, f);
    }
  }

  lemma CloseKeepsTurns(st: State, c: int)
    requires ConnInv(st) && IsLive(st.slots, c)
    ensures TurnsInv(Close(st, c).conns, Close(st, c).log)
  {
    var st', g := Close(st, c), st.slots[c].conn;
    forall e, f | 0 <= e < f < |st'.conns|
      ensures InTurn(st'.conns, st'.log, e, f)
    {
      assert InTurn(st.conns, st.log, e, f);
      assert e == g ==> st.conns[f].slot != c;
    }
  }

  lemma AcceptKeepsTurns(st: State, ip: Text, port: int32)
    requires ConnInv(st) && (st.armed ==> 0 <= st.freeHandler < |st.slots| && st.slots[st.freeHandler].Free?)
    ensures TurnsInv(Accept(st, ip, port).conns, Accept(st, ip, port).log)
  {
    var st', n := Accept(st, ip, port), |st.conns|;
    forall e, f | 0 <= e < f < |st'.conns|
      ensures InTurn(st'.conns, st'.log, e, f)
    {
      if f < n {
        assert InTurn(st.conns, st.log, e, f);
      } else {
        forall k | 0 <= k < |st.log| ensures st.log[k].conn < n {
          assert EntryInv(st.conns, st.log, k);
        }
      }
    }
  }

  lemma PushKeepsConnInv(st: State, c: int, request: Request)
    requires ConnInv(st) && IsLive(st.slots, c) && request.clientId == c && !request.Disconnected?
    requires FromAddress(request, st.slots[c].ip, st.slots[c].port)
    ensures ConnInv(Push(st, c, request))
  {
    hide TurnsInv;
    PushKeepsTurns(st, c, request);
    var st', n := Push(st, c, request), |st.log|;
    forall k | 0 <= k < |st'.log|
      ensures EntryInv(st'.conns, st'.log, k)
    {
      assert k < n ==> EntryInv(st.conns, st.log, k) && st'.log[k] == st.log[k];
    }
    forall i, j | 0 <= i < j < |st'.log|
      ensures Separated(st'.conns, st'.log, i, j)
    {
      assert EntryInv(st.conns, st.log, i);
      assert j < n ==> Separated(st.conns, st.log, i, j);
    }
  }

  lemma CloseKeepsConnInv(st: State, c: int)
    requires ConnInv(st) && IsLive(st.slots, c)
    ensures ConnInv(Close(st, c))
  {
    hide TurnsInv;
    CloseKeepsTurns(st, c);
    var st', n, e := Close(st, c), |st.log|, st.slots[c].conn;
    forall k | 0 <= k < |st'.log|
      ensures EntryInv(st'.conns, st'.log, k)
    {
      assert k < n ==> EntryInv(st.conns, st.log, k) && st'.log[k] == st.log[k];
    }
    forall i, j | 0 <= i < j < |st'.log|
      ensures Separated(st'.conns, st'.log, i, j)
    {
      assert EntryInv(st.conns, st.log, i);
      assert j < n ==> Separated(st.conns, st.log, i, j);
    }
    forall f | 0 <= f < |st'.conns| && st'.conns[f].closedAt != None
      ensures st'.conns[f].closedAt.value < |st'.log|
        && st'.log[st'.conns[f].closedAt.value] == Entry(Disconnected(st'.conns[f].slot), f)
    {
      assert f != e ==> st'.conns[f] == st.conns[f];
    }
  }

  lemma AcceptKeepsConnInv(st: State, ip: Text, port: int32)
    requires ConnInv(st) && (st.armed ==> 0 <= st.freeHandler < |st.slots| && st.slots[st.freeHandler].Free?)
    ensures ConnInv(Accept(st, ip, port))
  {
    hide TurnsInv;
    AcceptKeepsTurns(st, ip, port);
    if st.armed {
      var st' := Accept(st, ip, port);
      forall k | 0 <= k < |st'.log|
        ensures EntryInv(st'.conns, st'.log, k)
      {
        assert EntryInv(st.conns, st.log, k);
      }
      forall i, j | 0 <= i < j < |st'.log|
        ensures Separated(st'.conns, st'.log, i, j)
      {
        assert EntryInv(st.conns, st.log, i) && Separated(st.conns, st.log, i, j);
      }
    }
  }

  // ---- the slot waiting for the next connection ----

  predicate ClosedSince(st: State, c: int) {
    exists k :: st.scannedAt <= k < |st.log| && st.log[k].request == Disconnected(c)
  }

  /** The slot chosen before select is still free, and below it only slots that closed since
      are free. */
  ghost predicate ScanInv(st: State) {
    st.armed ==>
      && 0 <= st.freeHandler < |st.slots| && st.slots[st.freeHandler].Free?
      && forall c :: 0 <= c < st.freeHandler ==> (st.slots[c].Free? <==> ClosedSince(st, c))
  }

  lemma ScanKeepsScanInv(st: State)
    ensures ScanInv(Scan(st))
  {
  }

  /** Steps that leave slots alone and queue no goodbye, or free one slot and queue its goodbye. */
  lemma LogGrowthKeepsScanInv(st: State, st': State, entry: Entry)
    requires ScanInv(st) && st'.log == st.log + [entry]
    requires st'.armed == st.armed && st'.freeHandler == st.freeHandler && st'.scannedAt == st.scannedAt
    requires !IsGoodbye(entry) ==> st'.slots == st.slots
    requires IsGoodbye(entry) ==>
      0 <= entry.request.clientId < |st.slots| && st'.slots == st.slots[entry.request.clientId := Free]
    requires st.scannedAt <= |st.log|
    ensures ScanInv(st')
  {
    if st.armed {
      forall c | 0 <= c < st.freeHandler
        ensures st'.slots[c].Free? <==> ClosedSince(st', c)
      {
        if ClosedSince(st, c) {
          var k :| st.scannedAt <= k < |st.log| && st.log[k].request == Disconnected(c);
          assert st'.log[k] == st.log[k];
        }
        assert st'.log[|st.log|] == entry;
      }
    }
  }

  // ---- the maps and the measurements, replayed from the log ----

  function Lookup<K, V>(m: map<K, V>, k: K): Option<V> {
    if k in m then Some(m[k]) else None
  }

  ghost predicate ReplayInv(st: State) {
    && |st.verdicts| <= |st.log|
    && var done := st.log[..|st.verdicts|];
      && (forall c :: Lookup(st.c2s, c) == Registration(done, st.verdicts, c))
      && st.stored == Attributed(done, st.verdicts)
  }

  /** A registration is of the sensor that the token names. */
  ghost predicate VerdictInv(st: State) {
    && |st.verdicts| <= |st.log|
    && forall k :: 0 <= k < |st.verdicts| && st.verdicts[k] != None ==>
        st.log[k].request.Connected? && Names(st.rows, st.log[k].request.token, st.verdicts[k].value)
  }

  ghost predicate TokensKept(rows: Rows, rows': Rows) {
    forall id <- rows :: id in rows' && rows'[id].token == rows[id].token
  }

  /** More requests in the queue change nothing about the processed ones. */
  lemma QueueGrowthKeepsReplay(st: State, st': State)
    requires ReplayInv(st) && VerdictInv(st) && st.log <= st'.log && TokensKept(st.rows, st'.rows)
    requires st'.verdicts == st.verdicts && st'.c2s == st.c2s && st'.stored == st.stored
    ensures ReplayInv(st') && VerdictInv(st')
  {
    assert st'.log[..|st.verdicts|] == st.log[..|st.verdicts|];
    forall k | 0 <= k < |st.verdicts| && st.verdicts[k] != None
      ensures Names(st'.rows, st'.log[k].request.token, st.verdicts[k].value)
    {
      assert st'.log[k] == st.log[k];
    }
  }

  lemma RegistrationOfNext(done: seq<Entry>, verdicts: seq<Option<int32>>, entry: Entry, verdict: Option<int32>, c: int)
    requires |done| == |verdicts|
    ensures Registration(done + [entry], verdicts + [verdict], c) ==
      if entry.request.clientId != c then Registration(done, verdicts, c)
      else if entry.request.Disconnected? then None
      else if verdict != None then verdict
      else Registration(done, verdicts, c)
  {
    assert (done + [entry])[..|done|] == done && (verdicts + [verdict])[..|done|] == verdicts;
  }

  lemma AttributedOfNext(done: seq<Entry>, verdicts: seq<Option<int32>>, entry: Entry, verdict: Option<int32>)
    requires |done| == |verdicts|
    ensures var r, request := Registration(done, verdicts, entry.request.clientId), entry.request;
      Attributed(done + [entry], verdicts + [verdict]) == Attributed(done, verdicts) +
        if request.Measured? && r != None then [Stored(r.value, request.value, Int32(request.timestamp))] else []
  {
    assert (done + [entry])[..|done|] == done && (verdicts + [verdict])[..|done|] == verdicts;
    assert Attributed(done, verdicts) + [] == Attributed(done, verdicts);
  }

  /** Processing one request as the replay says. */
  lemma ProcessingKeepsReplay(st: State, st': State, verdict: Option<int32>)
    requires ReplayInv(st) && VerdictInv(st) && |st.verdicts| < |st.log|
    requires st.log <= st'.log && TokensKept(st.rows, st'.rows) && st'.verdicts == st.verdicts + [verdict]
    requires var request := st.log[|st.verdicts|].request;
      && st'.stored == st.stored + (if request.Measured? && request.clientId in st.c2s
                        then [Stored(st.c2s[request.clientId], request.value, Int32(request.timestamp))] else [])
      && st'.c2s == (if request.Disconnected? then st.c2s - {request.clientId}
                     else if verdict != None then st.c2s[request.clientId := verdict.value] else st.c2s)
      && (verdict != None ==> request.Connected? && Names(st'.rows, request.token, verdict.value))
    ensures ReplayInv(st') && VerdictInv(st')
  {
    hide Registration, Attributed;
    var n := |st.verdicts|;
    var done, entry := st.log[..n], st.log[n];
    assert st'.log[..n + 1] == done + [entry];
    AttributedOfNext(done, st.verdicts, entry, verdict);
    assert Lookup(st.c2s, entry.request.clientId) == Registration(done, st.verdicts, entry.request.clientId);
    forall c
      ensures Lookup(st'.c2s, c) == Registration(done + [entry], st'.verdicts, c)
    {
      RegistrationOfNext(done, st.verdicts, entry, verdict, c);
      assert Lookup(st.c2s, c) == Registration(done, st.verdicts, c);
    }
    forall k | 0 <= k < n + 1 && st'.verdicts[k] != None
      ensures st'.log[k].request.Connected? && Names(st'.rows, st'.log[k].request.token, st'.verdicts[k].value)
    {
      assert st'.log[k] == st.log[k];
    }
  }

  // ---- the database ----

  ghost predicate ActiveInv(rows: Rows, s2c: map<int32, int>) {
    forall id :: id in s2c <==> id in rows && rows[id].status == Active
  }

  ghost predicate DbInv(st: State) {
    TokensDistinct(st.rows) && ActiveInv(st.rows, st.s2c)
  }

  lemma ActivateOne(rows: Rows, ip: Text, port: int32, token: Text, id: int32)
    requires TokensDistinct(rows) && Names(rows, token, id) && rows[id].status != Revoked
    ensures Activate(rows, ip, port, token) == rows[id := rows[id].(ip := ip, port := port, status := Active)]
  {
    forall a | a in rows && a != id
      ensures rows[a].token != token
    {
      assert Names(rows, rows[a].token, a);
    }
  }

  lemma SameTokensStayDistinct(rows: Rows, rows': Rows)
    requires TokensDistinct(rows) && TokensKept(rows, rows') && rows'.Keys == rows.Keys
    ensures TokensDistinct(rows')
  {
    forall a, b, token | Names(rows', token, a) && Names(rows', token, b)
      ensures a == b
    {
      assert Names(rows, token, a) && Names(rows, token, b);
    }
  }

  lemma FreshTokenStaysDistinct(rows: Rows, token: Text, id: int32, row: Row)
    requires TokensDistinct(rows) && !TokenExists(rows, token) && id !in rows && row.token == token
    ensures TokensDistinct(rows[id := row])
  {
    var rows' := rows[id := row];
    forall a, b, t | Names(rows', t, a) && Names(rows', t, b)
      ensures a == b
    {
      assert a != id ==> Names(rows, t, a);
      assert b != id ==> Names(rows, t, b);
    }
  }

  // ---- all together ----

  ghost predicate Inv(st: State) {
    && ConnInv(st)
    && ScanInv(st) && st.scannedAt <= |st.log|
    && ReplayInv(st) && VerdictInv(st)
    && DbInv(st)
  }

  /** What a step of the network thread, or a kill, leaves alone. */
  ghost predicate OnlyNetwork(st: State, st': State) {
    && st'.rows == st.rows && st'.s2c == st.s2c && st'.c2s == st.c2s && st'.stored == st.stored
    && st'.verdicts == st.verdicts && st'.adminKills == st.adminKills && st.log <= st'.log
  }

  lemma ClosingKeepsNetwork(st: State, c: int)
    requires ConnInv(st) && ScanInv(st) && st.scannedAt <= |st.log|
    ensures var st' := DisconnectClient(st, c);
      ConnInv(st') && ScanInv(st') && st'.scannedAt <= |st'.log| && OnlyNetwork(st, st')
  {
    if IsLive(st.slots, c) {
      CloseKeepsConnInv(st, c);
      LogGrowthKeepsScanInv(st, Close(st, c), Entry(Disconnected(c), st.slots[c].conn));
    }
  }

  lemma PushingKeepsNetwork(st: State, c: int, request: Request)
    requires ConnInv(st) && ScanInv(st) && st.scannedAt <= |st.log|
    requires IsLive(st.slots, c) && request.clientId == c && !request.Disconnected?
    requires FromAddress(request, st.slots[c].ip, st.slots[c].port)
    ensures var st' := Push(st, c, request);
      ConnInv(st') && ScanInv(st') && st'.scannedAt <= |st'.log| && OnlyNetwork(st, st')
  {
    PushKeepsConnInv(st, c, request);
    LogGrowthKeepsScanInv(st, Push(st, c, request), Entry(request, st.slots[c].conn));
  }

  lemma NetworkKeepsInv(st: State, a: Action)
    requires Inv(st) && (a.ScanSlots? || a.AcceptConnection? || a.ReceiveFrame? || a.PeerCloses?)
    ensures Inv(Step(st, a)) && OnlyNetwork(st, Step(st, a))
  {
    hide ConnInv, ScanInv, ReplayInv, VerdictInv, DbInv, TokensDistinct;
    match a {
      case ScanSlots =>
        ScanKeepsConn(st);
        ScanKeepsScanInv(st);
      case AcceptConnection(ip, port) =>
        AcceptKeepsNetwork(st, ip, port);
      case ReceiveFrame(c, frame) =>
        if IsLive(st.slots, c) {
          match frame
          case InitFrame(token) =>
            PushingKeepsNetwork(st, c, Connected(c, st.slots[c].ip, st.slots[c].port, token));
          case MeasureFrame(timestamp, value) =>
            SendKeepsNetwork(st, c, Confirmed(timestamp));
            PushingKeepsNetwork(Send(st, c, Confirmed(timestamp)), c, Measured(c, value, Seconds(timestamp)));
          case UnknownFrame =>
            ClosingKeepsNetwork(st, c);
        }
      case PeerCloses(c) =>
        ClosingKeepsNetwork(st, c);
    }
    QueueGrowthKeepsReplay(st, Step(st, a));
    SameDb(st, Step(st, a));
  }

  lemma SameDb(st: State, st': State)
    requires DbInv(st) && st'.rows == st.rows && st'.s2c == st.s2c
    ensures DbInv(st')
  {
  }

  lemma ScanKeepsConn(st: State)
    requires ConnInv(st)
    ensures ConnInv(Scan(st))
  {
  }

  lemma AcceptKeepsNetwork(st: State, ip: Text, port: int32)
    requires ConnInv(st) && ScanInv(st) && st.scannedAt <= |st.log|
    ensures var st' := Accept(st, ip, port);
      ConnInv(st') && ScanInv(st') && st'.scannedAt <= |st'.log| && OnlyNetwork(st, st')
  {
    AcceptKeepsConnInv(st, ip, port);
  }

  lemma SendKeepsNetwork(st: State, c: int, reply: Reply)
    requires ConnInv(st) && ScanInv(st)
    ensures ConnInv(Send(st, c, reply)) && ScanInv(Send(st, c, reply)) && OnlyNetwork(st, Send(st, c, reply))
  {
    var st' := Send(st, c, reply);
    assert forall k :: ClosedSince(st', k) <==> ClosedSince(st, k);
  }

  /** A kill changes only the network side. */
  lemma KillKeepsNetwork(st: State, c: int, reason: int32)
    requires ConnInv(st) && ScanInv(st) && st.scannedAt <= |st.log|
    ensures var st' := KillSensor(st, c, reason);
      ConnInv(st') && ScanInv(st') && st'.scannedAt <= |st'.log| && OnlyNetwork(st, st')
  {
    hide ConnInv, ScanInv;
    SendKeepsNetwork(st, c, Rejected(reason));
    ClosingKeepsNetwork(Send(st, c, Rejected(reason)), c);
  }

  /** Fields that the network invariants do not mention. */
  lemma SameNetwork(st: State, st': State)
    requires ConnInv(st) && ScanInv(st)
    requires st'.slots == st.slots && st'.conns == st.conns && st'.log == st.log
    requires st'.armed == st.armed && st'.freeHandler == st.freeHandler && st'.scannedAt == st.scannedAt
    ensures ConnInv(st') && ScanInv(st')
  {
    assert forall k :: ClosedSince(st', k) <==> ClosedSince(st, k);
  }

  /** A request that changes only the map entry, the row or the measurements it is about. */
  lemma QuietExecutionKeepsInv(st: State, st': State)
    requires Inv(st) && |st.verdicts| < |st.log|
    requires st' == Judge(st, None).(rows := st'.rows, s2c := st'.s2c, c2s := st'.c2s, stored := st'.stored)
    requires var request := st.log[|st.verdicts|].request;
      && st'.stored == st.stored + (if request.Measured? && request.clientId in st.c2s
                        then [Stored(st.c2s[request.clientId], request.value, Int32(request.timestamp))] else [])
      && st'.c2s == (if request.Disconnected? then st.c2s - {request.clientId} else st.c2s)
    requires TokensKept(st.rows, st'.rows) && DbInv(st')
    ensures Inv(st')
  {
    hide ConnInv, ScanInv, DbInv, TokensKept;
    SameNetwork(st, st');
    ProcessingKeepsReplay(st, st', None);
  }

  lemma DeactivationKeepsDb(st: State, id: int32)
    requires DbInv(st)
    ensures DbInv(st.(rows := Deactivate(st.rows, id), s2c := st.s2c - {id}))
    ensures TokensKept(st.rows, Deactivate(st.rows, id))
  {
    SameTokensStayDistinct(st.rows, Deactivate(st.rows, id));
  }

  lemma GoodbyeKeepsInv(st: State, serverTime: int64)
    requires Inv(st) && |st.verdicts| < |st.log| && st.log[|st.verdicts|].request.Disconnected?
    ensures Inv(Execute(st, serverTime))
  {
    hide ConnInv, ScanInv, DbInv, ReplayInv, VerdictInv, TokensKept;
    var c, st' := st.log[|st.verdicts|].request.clientId, Execute(st, serverTime);
    assert st.stored + [] == st.stored;
    if c in st.c2s {
      DeactivationKeepsDb(st, st.c2s[c]);
      SameDb(st.(rows := Deactivate(st.rows, st.c2s[c]), s2c := st.s2c - {st.c2s[c]}), st');
    } else {
      assert st.c2s - {c} == st.c2s;
      SameRows(st, st');
    }
    QuietExecutionKeepsInv(st, st');
  }

  lemma SameRows(st: State, st': State)
    requires DbInv(st) && st'.rows == st.rows && st'.s2c == st.s2c
    ensures DbInv(st') && TokensKept(st.rows, st'.rows)
  {
  }

  lemma MeasurementKeepsInv(st: State, serverTime: int64)
    requires Inv(st) && |st.verdicts| < |st.log|
    requires var request := st.log[|st.verdicts|].request;
      request.Measured? || (request.Connected? && !TokenExists(st.rows, request.token))
    ensures Inv(Execute(st, serverTime))
  {
    hide ConnInv, ScanInv, DbInv, ReplayInv, VerdictInv, TokensKept;
    assert st.stored + [] == st.stored;
    SameRows(st, Execute(st, serverTime));
    QuietExecutionKeepsInv(st, Execute(st, serverTime));
  }

  /** A rejected init: the kill, and nothing else. */
  lemma RejectionKeepsInv(st: State, c: int, reason: int32)
    requires Inv(st) && |st.verdicts| < |st.log| && st.log[|st.verdicts|].request.Connected?
    ensures Inv(Judge(KillSensor(st, c, reason), None))
  {
    hide ConnInv, ScanInv, TokensDistinct, ActiveInv;
    var killed := KillSensor(st, c, reason);
    var st' := Judge(killed, None);
    KillKeepsNetwork(st, c, reason);
    SameNetwork(killed, st');
    assert st.stored + [] == st.stored;
    ProcessingKeepsReplay(st, st', None);
  }

  /** An accepted init: the row becomes active and the sensor enters the map together. */
  lemma AcceptanceKeepsInv(st: State, serverTime: int64)
    requires Inv(st) && |st.verdicts| < |st.log| && st.log[|st.verdicts|].request.Connected?
    requires var token := st.log[|st.verdicts|].request.token;
      && TokenExists(st.rows, token)
      && var id := SensorId(st.rows, token); st.rows[id].status != Revoked && id !in st.s2c
    ensures Inv(Execute(st, serverTime))
  {
    hide ConnInv, ScanInv;
    var request := st.log[|st.verdicts|].request;
    var id, c := SensorId(st.rows, request.token), request.clientId;
    var registered := Judge(st, Some(id)).(
      rows := Activate(st.rows, request.ip, request.port, request.token),
      c2s := st.c2s[c := id],
      s2c := st.s2c[id := c]);
    var st' := Execute(st, serverTime);
    assert st' == Send(registered, c, Accepted(serverTime));
    SameNetwork(st, registered);
    SendKeepsNetwork(registered, c, Accepted(serverTime));
    assert st.stored + [] == st.stored;
    ProcessingKeepsReplay(st, st', Some(id));
    ActivateOne(st.rows, request.ip, request.port, request.token, id);
    SameTokensStayDistinct(st.rows, st'.rows);
  }

  lemma ExecutionKeepsInv(st: State, serverTime: int64)
    requires Inv(st)
    ensures Inv(Execute(st, serverTime))
  {
    hide ConnInv, ScanInv, ReplayInv, VerdictInv, DbInv;
    if |st.verdicts| < |st.log| {
      match st.log[|st.verdicts|].request
      case Connected(c, ip, port, token) =>
        if TokenExists(st.rows, token) {
          var id := SensorId(st.rows, token);
          if st.rows[id].status == Revoked {
            RejectionKeepsInv(st, c, KILL_SENSOR_INCORRECT_TOKEN);
          } else if id in st.s2c {
            RejectionKeepsInv(st, c, KILL_SENSOR_TOKEN_ACTIVE);
          } else {
            AcceptanceKeepsInv(st, serverTime);
          }
        } else {
          MeasurementKeepsInv(st, serverTime);
        }
      case Measured(_, _, _) =>
        MeasurementKeepsInv(st, serverTime);
      case Disconnected(_) =>
        GoodbyeKeepsInv(st, serverTime);
    } else {
      VerdictsWithinLog(st);
    }
  }

  lemma VerdictsWithinLog(st: State)
    requires ReplayInv(st)
    ensures |st.verdicts| <= |st.log|
  {
  }

  /** Revoking or disconnecting: the row loses its active status and the sensor leaves the map
      together, whichever client is killed. */
  lemma AdminKillKeepsInv(st: State, id: int32, rows: Rows, reason: int32)
    requires Inv(st) && (rows == Revoke(st.rows, id) || rows == Deactivate(st.rows, id))
    ensures Inv(AdminKill(st, id, rows, reason))
  {
    hide ConnInv, ScanInv, ReplayInv, VerdictInv;
    if id in st.rows {
      var updated, c := st.(rows := rows), RegisteredClient(st, id);
      var killed, st' := KillSensor(updated, c, reason), AdminKill(st, id, rows, reason);
      SameNetwork(st, updated);
      KillKeepsNetwork(updated, c, reason);
      SameNetwork(killed, st');
      QueueGrowthKeepsReplay(st, st');
      SameTokensStayDistinct(st.rows, rows);
    }
  }

  lemma TableKeepsInv(st: State, rows: Rows)
    requires Inv(st) && TokensKept(st.rows, rows) && TokensDistinct(rows) && ActiveInv(rows, st.s2c)
    ensures Inv(st.(rows := rows))
  {
    hide ConnInv, ScanInv;
    SameNetwork(st, st.(rows := rows));
    QueueGrowthKeepsReplay(st, st.(rows := rows));
  }

  lemma StepKeepsInv(st: State, a: Action)
    requires Inv(st)
    ensures Inv(Step(st, a))
  {
    match a
    case ExecuteNext(serverTime) =>
      ExecutionKeepsInv(st, serverTime);
    case RevokeSensor(id) =>
      AdminKillKeepsInv(st, id, Revoke(st.rows, id), KILL_SENSOR_REVOKED);
    case DisconnectSensor(id) =>
      AdminKillKeepsInv(st, id, Deactivate(st.rows, id), KILL_SENSOR_DISCONNECTED);
    case RenameSensor(id, name) =>
      SameTokensStayDistinct(st.rows, Rename(st.rows, id, name));
      TableKeepsInv(st, Rename(st.rows, id, name));
    case GenerateToken(token, id) =>
      if !TokenExists(st.rows, token) && id !in st.rows {
        var row := Row([], token, Fresh, [], 0);
        FreshTokenStaysDistinct(st.rows, token, id, row);
        TableKeepsInv(st, st.rows[id := row]);
      }
    case _ =>
      NetworkKeepsInv(st, a);
  }

  // ---- runs ----

  lemma {:induction false} RunOfOneMore(st: State, actions: seq<Action>, a: Action)
    ensures Run(st, actions + [a]) == Step(Run(st, actions), a)
    decreases |actions|
  {
    hide Step;
    if actions == [] {
      assert actions + [a] == [a] && [a][1..] == [];
    } else {
      assert (actions + [a])[1..] == actions[1..] + [a];
      RunOfOneMore(Step(st, actions[0]), actions[1..], a);
    }
  }

  lemma {:induction false} RunOfRuns(st: State, actions: seq<Action>, more: seq<Action>)
    ensures Run(Run(st, actions), more) == Run(st, actions + more)
    decreases |actions|
  {
    hide Step;
    if actions == [] {
      assert actions + more == more;
    } else {
      assert (actions + more)[1..] == actions[1..] + more;
      RunOfRuns(Step(st, actions[0]), actions[1..], more);
    }
  }

  lemma StepOfRun(st: State, actions: seq<Action>, k: nat)
    requires k < |actions|
    ensures Run(st, actions[..k + 1]) == Step(Run(st, actions[..k]), actions[k])
  {
    hide Run, Step;
    assert actions[..k + 1] == actions[..k] + [actions[k]];
    RunOfOneMore(st, actions[..k], actions[k]);
  }

  lemma InitialInv(st: State)
    requires Initial(st)
    ensures Inv(st)
  {
    assert st.log[..0] == [];
  }

  lemma {:induction false} RunKeepsInv(st: State, actions: seq<Action>)
    requires Inv(st)
    ensures Inv(Run(st, actions))
    decreases |actions|
  {
    hide Inv, Step;
    if actions != [] {
      StepKeepsInv(st, actions[0]);
      RunKeepsInv(Step(st, actions[0]), actions[1..]);
    }
  }
}
