/** Runs from an initial state that reach the failing side of each exact condition. */
module SessionWitnesses {
  import opened Wire
  import opened Session
  import opened SessionInvariants
  import opened SessionLinks
  import opened SessionAddresses
  import opened SessionKills

  const TOKEN: Text := [65]
  const OTHER_TOKEN: Text := [66]

  function Start(slots: nat, rows: Rows): State {
    State(seq(slots, _ => Free), -1, false, map[], map[], rows, [], [], [], [], [], 0, 0)
  }

  /** Sensor 7 is in the table, with this status. */
  function Seven(status: Status): Rows {
    map[7 := Row([], TOKEN, status, [], 0)]
  }

  function SevenAndEight(): Rows {
    map[7 := Row([], TOKEN, Fresh, [], 0), 8 := Row([], OTHER_TOKEN, Fresh, [], 0)]
  }

  lemma SevenStarts(slots: nat, status: Status)
    requires status != Active
    ensures Initial(Start(slots, Seven(status)))
    ensures Names(Seven(status), TOKEN, 7) && TokenExists(Seven(status), TOKEN) && SensorId(Seven(status), TOKEN) == 7
  {
    assert Names(Seven(status), TOKEN, 7);
  }

  lemma SevenAndEightStart()
    ensures Initial(Start(1, SevenAndEight())) && Names(SevenAndEight(), TOKEN, 7)
    ensures TokensDistinct(Registered(1, SevenAndEight()).rows)
  {
    assert Names(SevenAndEight(), TOKEN, 7);
  }

  // ---- one connection comes and names sensor 7 ----

  const ARRIVES := [ScanSlots, AcceptConnection([], 1)]

  lemma AfterArrival(slots: nat, rows: Rows)
    requires slots > 0
    ensures Run(Start(slots, rows), ARRIVES) ==
      Start(slots, rows).(
        slots := Start(slots, rows).slots[0 := Live(0, [], 1)], freeHandler := 0, conns := [Conn(0, [], 1, None)])
  {
    StepOfRun(Start(slots, rows), ARRIVES, 0);
    StepOfRun(Start(slots, rows), ARRIVES, 1);
    assert ARRIVES[..0] == [] && ARRIVES[..2] == ARRIVES;
  }

  const REGISTERS := ARRIVES + [ReceiveFrame(0, InitFrame(TOKEN)), ExecuteNext(0)]

  function Registered(slots: nat, rows: Rows): State
    requires 7 in rows && slots > 0
  {
    var start := Start(slots, rows[7 := rows[7].(ip := [], port := 1, status := Active)]);
    start.(
      slots := start.slots[0 := Live(0, [], 1)], freeHandler := 0, conns := [Conn(0, [], 1, None)],
      c2s := map[0 := 7], s2c := map[7 := 0],
      log := [Entry(Connected(0, [], 1, TOKEN), 0)], verdicts := [Some(7)], sent := [Sent(0, Accepted(0))])
  }

  lemma AfterRegistration(slots: nat, rows: Rows)
    requires slots > 0 && Initial(Start(slots, rows)) && Names(rows, TOKEN, 7) && rows[7].status == Fresh
    ensures Run(Start(slots, rows), REGISTERS) == Registered(slots, rows)
  {
    hide Run, SensorId, Activate;
    var start := Start(slots, rows);
    AfterArrival(slots, rows);
    assert REGISTERS[..2] == ARRIVES && REGISTERS[..4] == REGISTERS;
    StepOfRun(start, REGISTERS, 2);
    StepOfRun(start, REGISTERS, 3);
    var before := Run(start, REGISTERS[..3]);
    assert before.log == [Entry(Connected(0, [], 1, TOKEN), 0)];
    assert NextAccepted(before, 7);
    AcceptanceRegisters(before, 0, 7);
  }

  // ---- the lowest free slot ----

  const MISSES := ARRIVES + [ScanSlots, RevokeSensor(7)]

  /** While slot 1 waits for a connection, revoking the unregistered sensor 7 frees slot 0. */
  lemma LowestSlotCanBeMissed()
    ensures Initial(Start(2, Seven(Fresh)))
    ensures var st := Run(Start(2, Seven(Fresh)), MISSES);
      st.armed && st.freeHandler == 1 && FirstFree(st.slots, 0) == 0
  {
    hide Run;
    var start := Start(2, Seven(Fresh));
    SevenStarts(2, Fresh);
    AfterArrival(2, Seven(Fresh));
    assert MISSES[..2] == ARRIVES && MISSES[..4] == MISSES;
    StepOfRun(start, MISSES, 2);
    StepOfRun(start, MISSES, 3);
    var slots := Run(start, MISSES[..2]).slots;
    assert FirstFree(slots, 1) == 1 && FirstFree(slots, 0) == 1;
  }

  // ---- kills that hit a stranger ----

  /** The unregistered sensor 7 reads as client 0. */
  lemma UnregisteredKillHitsSlotZero()
    ensures Initial(Start(1, Seven(Fresh)))
    ensures var st := Run(Start(1, Seven(Fresh)), ARRIVES);
      7 !in st.s2c && st.conns[0].closedAt == None && Step(st, RevokeSensor(7)).conns[0].closedAt != None
  {
    hide Run;
    SevenStarts(1, Fresh);
    AfterArrival(1, Seven(Fresh));
  }

  const REPLACED := [PeerCloses(0), ScanSlots, AcceptConnection([], 2)]

  /** Connection 0 closes and connection 1 gets its slot. */
  function Replacement(st: State): State {
    st.(slots := [Live(1, [], 2)], conns := [Conn(0, [], 1, Some(|st.log|)), Conn(0, [], 2, None)],
        freeHandler := 0, armed := false, log := st.log + [Entry(Disconnected(0), 0)], scannedAt := |st.log| + 1)
  }

  lemma AfterReplacement(st: State)
    requires st.slots == [Live(0, [], 1)] && st.conns == [Conn(0, [], 1, None)]
    ensures Run(st, REPLACED) == Replacement(st)
  {
    hide Run;
    assert REPLACED[..0] == [] && REPLACED[..3] == REPLACED;
    RunOfNothing(st);
    StepOfRun(st, REPLACED, 0);
    StepOfRun(st, REPLACED, 1);
    StepOfRun(st, REPLACED, 2);
  }

  lemma RunOfNothing(st: State)
    ensures Run(st, []) == st
  {
  }

  /** Connection 0 registers sensor 7 and closes; connection 1 gets its slot; the goodbye is still
      queued.  Revoking sensor 7 closes connection 1. */
  lemma RegisteredKillHitsTheNextConnection()
    ensures Initial(Start(1, Seven(Fresh)))
    ensures var st := Run(Start(1, Seven(Fresh)), REGISTERS + REPLACED);
      && 7 in st.s2c && SensorsConnection(st, 7) == {0} && |st.conns| == 2
      && st.conns[1].closedAt == None && Step(st, RevokeSensor(7)).conns[1].closedAt != None
  {
    hide Run;
    var start, st := Start(1, Seven(Fresh)), Registered(1, Seven(Fresh));
    SevenStarts(1, Fresh);
    AfterRegistration(1, Seven(Fresh));
    AfterReplacement(st);
    RunOfRuns(start, REGISTERS, REPLACED);
  }

  const SENDS_TOKEN := ARRIVES + [ReceiveFrame(0, InitFrame(TOKEN))]

  /** Connection 0 sends a revoked token and closes; connection 1 gets its slot, the rejection and
      the kill. */
  lemma RejectionHitsTheNextConnection()
    ensures Initial(Start(1, Seven(Revoked)))
    ensures var st := Run(Start(1, Seven(Revoked)), SENDS_TOKEN + REPLACED);
      && NextRejected(st, 7) && st.log[0].conn == 0 && |st.conns| == 2
      && st.conns[1].closedAt == None && Step(st, ExecuteNext(0)).conns[1].closedAt != None
      && Step(st, ExecuteNext(0)).sent == [Sent(1, Rejected(KILL_SENSOR_INCORRECT_TOKEN))]
  {
    hide Run, SensorId;
    var start := Start(1, Seven(Revoked));
    SevenStarts(1, Revoked);
    AfterArrival(1, Seven(Revoked));
    assert SENDS_TOKEN[..2] == ARRIVES && SENDS_TOKEN[..3] == SENDS_TOKEN;
    StepOfRun(start, SENDS_TOKEN, 2);
    AfterReplacement(Run(start, SENDS_TOKEN));
    RunOfRuns(start, SENDS_TOKEN, REPLACED);
  }

  // ---- a goodbye that erases a stranger's registration ----

  const TAKES_OVER :=
    [ScanSlots, AcceptConnection([], 2), ReceiveFrame(1, InitFrame(TOKEN)), DisconnectSensor(7), ExecuteNext(0)]

  /** Connection 1 has queued an init for sensor 7, which connection 0 holds. */
  function Rival(st: State): State {
    st.(slots := [Live(0, [], 1), Live(1, [], 2)], conns := [Conn(0, [], 1, None), Conn(1, [], 2, None)],
        freeHandler := 1, armed := false, log := st.log + [Entry(Connected(1, [], 2, TOKEN), 1)], scannedAt := |st.log|)
  }

  lemma AfterRival(st: State)
    requires st.slots == [Live(0, [], 1), Free] && st.conns == [Conn(0, [], 1, None)]
    ensures Run(st, TAKES_OVER[..3]) == Rival(st)
  {
    hide Run;
    RunOfNothing(st);
    assert TAKES_OVER[..0] == [];
    StepOfRun(st, TAKES_OVER, 0);
    StepOfRun(st, TAKES_OVER, 1);
    StepOfRun(st, TAKES_OVER, 2);
    assert FirstFree(st.slots, 1) == 1;
  }

  /** Sensor 7 is disconnected, and with it connection 0. */
  function Disowned(st: State): State {
    st.(slots := [Free, Live(1, [], 2)], conns := [Conn(0, [], 1, Some(|st.log|)), Conn(1, [], 2, None)],
        log := st.log + [Entry(Disconnected(0), 0)], rows := Deactivate(st.rows, 7), s2c := map[],
        sent := st.sent + [Sent(0, Rejected(KILL_SENSOR_DISCONNECTED))], adminKills := st.adminKills + 1)
  }

  lemma AfterDisowning(st: State)
    requires st.slots == [Live(0, [], 1), Live(1, [], 2)] && st.conns == [Conn(0, [], 1, None), Conn(1, [], 2, None)]
    requires 7 in st.rows && st.s2c == map[7 := 0]
    ensures Step(st, DisconnectSensor(7)) == Disowned(st)
  {
  }

  /** Connection 1 registers the sensor before the goodbye is processed. */
  lemma AfterTakeover(st: State)
    requires st.slots == [Free, Live(1, [], 2)]
    requires st.rows == map[7 := Row([], TOKEN, Inactive, [], 1)] && st.s2c == map[]
    requires st.c2s == map[0 := 7] && st.verdicts == [Some(7)]
    requires |st.log| == 3 && st.log[1] == Entry(Connected(1, [], 2, TOKEN), 1)
    ensures var st' := Step(st, ExecuteNext(0));
      && st'.conns == st.conns && st'.log == st.log && st'.verdicts == [Some(7), Some(7)]
      && st'.c2s == map[0 := 7, 1 := 7] && st'.s2c == map[7 := 1] && st'.rows == map[7 := Row([], TOKEN, Active, [], 2)]
  {
    hide SensorId, Activate;
    assert Names(st.rows, TOKEN, 7);
    assert NextAccepted(st, 7);
    AcceptanceRegisters(st, 0, 7);
  }

  lemma AfterTakingOver()
    ensures var st := Run(Registered(2, Seven(Fresh)), TAKES_OVER);
      && st.conns == [Conn(0, [], 1, Some(2)), Conn(1, [], 2, None)]
      && st.c2s == map[0 := 7, 1 := 7] && st.s2c == map[7 := 1] && st.rows == map[7 := Row([], TOKEN, Active, [], 2)]
      && st.verdicts == [Some(7), Some(7)] && |st.log| == 3
      && st.log[1] == Entry(Connected(1, [], 2, TOKEN), 1) && st.log[2] == Entry(Disconnected(0), 0)
  {
    hide Run, Step;
    var start := Registered(2, Seven(Fresh));
    AfterRival(start);
    StepOfRun(start, TAKES_OVER, 3);
    StepOfRun(start, TAKES_OVER, 4);
    assert TAKES_OVER[..5] == TAKES_OVER;
    AfterDisowning(Rival(start));
    AfterTakeover(Disowned(Rival(start)));
  }

  /** The goodbye of connection 0 then takes sensor 7, which connection 1 registered, out of the map
      and makes its row inactive, while connection 1 stays open. */
  lemma GoodbyeErasesTheNextRegistration()
    ensures Initial(Start(2, Seven(Fresh)))
    ensures var st := Run(Start(2, Seven(Fresh)), REGISTERS + TAKES_OVER); var st' := Step(st, ExecuteNext(0));
      && NextIsGoodbye(st) && |st.log| == 3 && st.log[2].conn == 0 && SensorsConnection(st, 7) == {1}
      && !LosesOnlyItsOwn(st, st', 0)
      && |st'.conns| == 2 && st'.conns[1].closedAt == None
      && st'.c2s == map[1 := 7] && st'.s2c == map[] && st'.rows == map[7 := Row([], TOKEN, Inactive, [], 2)]
  {
    hide Run, Registered;
    var start := Start(2, Seven(Fresh));
    SevenStarts(2, Fresh);
    AfterRegistration(2, Seven(Fresh));
    RunOfRuns(start, REGISTERS, TAKES_OVER);
    AfterTakingOver();
    var st := Run(start, REGISTERS + TAKES_OVER);
    assert Registrar(st.verdicts, 7) == Some(1);
    assert SensorsConnection(st, 7) == {1};
    assert 7 in st.s2c;
  }

  // ---- maps that part ----

  const SENDS_TWO := REGISTERS + [ReceiveFrame(0, InitFrame(OTHER_TOKEN))]

  /** The second init of connection 0 leaves sensor 7 with a client that stands for sensor 8. */
  lemma SecondInitBreaksTheLink()
    ensures Initial(Start(1, SevenAndEight()))
    ensures var st := Run(Start(1, SevenAndEight()), SENDS_TWO);
      Linked(st) && NextAccepted(st, 8) && !Linked(Step(st, ExecuteNext(0)))
  {
    hide Run, SensorId, Activate, KillSensor, AdminKill, FirstFree, Initial, TokensDistinct;
    var start := Start(1, SevenAndEight());
    SevenAndEightStart();
    AfterRegistration(1, SevenAndEight());
    assert SENDS_TWO[..4] == REGISTERS && SENDS_TWO[..5] == SENDS_TWO;
    StepOfRun(start, SENDS_TWO, 4);
    var st := Run(start, SENDS_TWO);
    assert Names(st.rows, OTHER_TOKEN, 8);
    assert NextAccepted(st, 8);
    AcceptanceRegisters(st, 0, 8);
    assert Step(st, ExecuteNext(0)).s2c[7] == 0 && Step(st, ExecuteNext(0)).c2s[0] == 8;
  }

  /** Revoking the registered sensor 7 takes it out of one map only. */
  lemma AdminKillPartsTheMaps()
    ensures Initial(Start(1, Seven(Fresh)))
    ensures var st := Run(Start(1, Seven(Fresh)), REGISTERS);
      Inverse(st) && !Inverse(Step(st, RevokeSensor(7)))
  {
    hide Run;
    SevenStarts(1, Fresh);
    AfterRegistration(1, Seven(Fresh));
    var st' := Step(Registered(1, Seven(Fresh)), RevokeSensor(7));
    assert 0 in st'.c2s && st'.c2s[0] == 7 && 7 !in st'.s2c;
  }
}
