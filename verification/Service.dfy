/** A server from its construction on: its threads take turns in any order. */
module Service {
  import opened Wire
  import opened Session
  import opened SessionInvariants
  import opened SessionProperties
  import opened Database
  import opened Framing
  import opened Rounds
  import opened Traces
  import opened Replies
  import opened Transport
  import opened Server
  import opened AdminServer
  import Handler
  import AdminProtocol

  /** What a thread does next: the network thread a whole round or a part of one, the sensor executor
      a request, the administrators' threads a message, a command or a response. */
  datatype Task =
    | Round(arrival: Option<Arrival>, readable: map<nat, Incoming>, writable: map<nat, int>)
    | Choosing
    | Accepting(comer: Arrival)
    | Receiving(slot: nat, data: Incoming)
    | Sending(slot: nat, room: int)
    | Executing(serverTime: int64, room: int)
    | Asking(slot: nat, conn: nat, msg: seq<byte>)
    | Administering(rand: nat -> nat, key: int32, some: nat, room: int)
    | Responding
  {
    predicate Valid() {
      && (Round? ==> forall c <- readable :: readable[c].Valid())
      && (Receiving? ==> data.Valid())
    }
  }

  /** A slot that waits for a connection goes on waiting whatever other threads, or other parts of
      the round, do. */
  lemma StaysArmed(st: State, a: Action)
    requires st.armed && !a.ScanSlots? && !a.AcceptConnection?
    ensures Step(st, a).armed
  {
    hide KillSensor, Activate;
    if a.ExecuteNext? && |st.verdicts| < |st.log| {
      KillStaysArmed(st, st.log[|st.verdicts|].request.clientId, KILL_SENSOR_INCORRECT_TOKEN);
      KillStaysArmed(st, st.log[|st.verdicts|].request.clientId, KILL_SENSOR_TOKEN_ACTIVE);
    }
    if a.RevokeSensor? {
      KillStaysArmed(st.(rows := Revoke(st.rows, a.id)), RegisteredClient(st, a.id), KILL_SENSOR_REVOKED);
    }
    if a.DisconnectSensor? {
      KillStaysArmed(st.(rows := Deactivate(st.rows, a.id)), RegisteredClient(st, a.id), KILL_SENSOR_DISCONNECTED);
    }
  }

  lemma KillStaysArmed(st: State, c: int, reason: int32)
    ensures KillSensor(st, c, reason).armed == st.armed
  {
  }

  lemma ExecutionIsStep(st: State, serverTime: int64)
    ensures Step(st, ExecuteNext(serverTime)) == Execute(st, serverTime)
  {
    hide Execute;
  }

  lemma RunOfOne(st: State, a: Action)
    ensures Run(st, [a]) == Step(st, a)
  {
    hide Step;
    RunOfOneMore(st, [], a);
    assert [] + [a] == [a];
  }

  /** All threads of one server. */
  class Threads {
    const server: ServerModel
    const administrators: AdministratorExecutor
    var running: bool              // the network thread has not ended with an exception
    var waiting: bool              // the slot chosen last still waits for a connection
    ghost var start: State
    ghost var actions: seq<Action> // all steps of all threads so far

    /** The server is where these steps lead to. */
    ghost predicate Valid()
      reads this, server, server.handler, server.handler.clients, server.sensorRequestsQueue, server.table
      reads administrators, administrators.requestsQueue, administrators.responsesQueue
    {
      && server.Valid()
      && administrators.Valid() && administrators.model == server
      && (running <==> !server.handler.stopped)
      && (waiting ==> server.View().armed)
      && Initial(start) && server.View() == Run(start, actions)
    }

    constructor (maxClients: nat, table: SensorTable)
      requires table.Valid()
      requires forall id <- table.rows :: table.rows[id].status != Active
      ensures Valid() && running && actions == [] && server.table == table
      ensures fresh(server) && fresh(server.handler) && fresh(server.handler.clients)
      ensures fresh(server.sensorRequestsQueue)
      ensures fresh(administrators) && fresh(administrators.requestsQueue) && fresh(administrators.responsesQueue)
    {
      hide ServerModel.Valid, AdministratorExecutor.Valid, Initial, With, TokensDistinct;
      var model := new ServerModel(maxClients, table);
      server := model;
      administrators := new AdministratorExecutor(model);
      running, waiting := true, false;
      new;
      start, actions := server.View(), [];
    }

    method PerformRound(arrival: Option<Arrival>, readable: map<nat, Incoming>, writable: map<nat, int>)
      requires Valid() && forall c <- readable :: readable[c].Valid()
      modifies this`running, this`waiting, this`actions
      modifies server, server.handler, server.handler.clients, server.sensorRequestsQueue, server.table
      ensures Valid() && start == old(start) && old(actions) <= actions
      ensures if old(running)
        then IsRound(old(server.View()), old(server.handler.Histories()), old(server.handler.OutBuffers()),
                     arrival, readable, writable, actions[|old(actions)|..])
        else actions == old(actions)
    {
      hide ServerModel.Valid, AdministratorExecutor.Valid, Initial, Step, Run, With, TokensDistinct,
        Receptions, Closings, Replied, Acceptance;
      if running {
        var thrown;
        ghost var accepted, received, closed;
        thrown, accepted, received, closed := server.HandlingRound(arrival, readable, writable);
        running, waiting := thrown == None, false;
        RunOfRuns(start, actions, accepted);
        RunOfRuns(start, actions + accepted, received);
        RunOfRuns(start, actions + accepted + received, closed);
        ghost var before := actions;
        actions := before + accepted + received + closed;
        assert actions[|before|..] == accepted + received + closed;
      }
    }

    method PerformChoice()
      requires Valid()
      modifies this`running, this`waiting, this`actions
      modifies server, server.handler, server.handler.clients, server.sensorRequestsQueue, server.table
      ensures Valid() && start == old(start)
      ensures actions == old(actions) + if old(running) then [ScanSlots] else []
    {
      hide ServerModel.Valid, AdministratorExecutor.Valid, Initial, Step, Run, With, TokensDistinct;
      if running {
        ghost var before := server.View();
        server.Choose();
        server.ViewIsOfNet();
        waiting := server.handler.freeHandler >= 0;
        RunOfOne(before, ScanSlots);
        RunOfRuns(start, actions, [ScanSlots]);
        actions := actions + [ScanSlots];
      }
    }

    method PerformAcceptance(arrival: Arrival)
      requires Valid()
      modifies this`running, this`waiting, this`actions
      modifies server, server.handler, server.handler.clients, server.sensorRequestsQueue, server.table
      ensures Valid() && start == old(start)
      ensures actions == old(actions) +
        if old(running && waiting) then [AcceptConnection(arrival.ip, arrival.port)] else []
    {
      hide ServerModel.Valid, AdministratorExecutor.Valid, Initial, Step, Run, With, TokensDistinct;
      if running && waiting {
        ghost var before, a := server.View(), AcceptConnection(arrival.ip, arrival.port);
        server.ViewIsOfNet();
        server.AcceptOne(arrival);
        waiting := false;
        RunOfOne(before, a);
        RunOfRuns(start, actions, [a]);
        actions := actions + [a];
      }
    }

    method PerformReception(slot: nat, data: Incoming)
      requires Valid() && data.Valid()
      modifies this`running, this`waiting, this`actions
      modifies server, server.handler, server.handler.clients, server.sensorRequestsQueue, server.table
      ensures Valid() && start == old(start) && old(actions) <= actions
      ensures actions[|old(actions)|..] ==
        if old(running && slot < |server.handler.clients| && server.handler.clients[slot].Connected())
        then Reception(Handler.TurnOf(old(server.handler.clients[slot].history), data.available, data.limit),
                       slot, data.beyond)
        else []
    {
      hide ServerModel.Valid, AdministratorExecutor.Valid, Initial, Step, Run, With, TokensDistinct,
        Reception, Handler.TurnOf, Handler.BufferAfter, OthersKept;
      if running && slot < |server.handler.clients| && server.handler.clients[slot].socket >= 0 {
        server.Connectedness(slot);
        ghost var before := server.View();
        ghost var more;
        var turn;
        turn, more := server.ReceiveFrom(slot, data);
        running := turn.thrown == None;
        ReceptionIsATurn(turn, slot, data.beyond);
        ArmedAfter(before, more);
        RunOfRuns(start, actions, more);
        actions := actions + more;
      }
    }

    method PerformSending(slot: nat, room: int)
      requires Valid()
      modifies this`running, this`waiting, this`actions
      modifies server, server.handler, server.handler.clients, server.sensorRequestsQueue, server.table
      ensures Valid() && start == old(start)
      ensures actions == old(actions) +
        if old(running && slot < |server.handler.clients| && server.handler.clients[slot].Connected())
          && (room <= 0 || old(server.handler.clients[slot].outBuffer) == [])
        then [PeerCloses(slot)] else []
    {
      hide ServerModel.Valid, AdministratorExecutor.Valid, Initial, Step, Run, With, TokensDistinct,
        OthersKept;
      if running && slot < |server.handler.clients| && server.handler.clients[slot].socket >= 0 {
        server.Connectedness(slot);
        ghost var before := server.View();
        ghost var more := server.SendTo(slot, room);
        ArmedAfter(before, more);
        RunOfRuns(start, actions, more);
        actions := actions + more;
      }
    }

    method PerformExecution(serverTime: int64, room: int)
      requires Valid()
      modifies this`running, this`waiting, this`actions
      modifies server, server.handler, server.handler.clients, server.sensorRequestsQueue, server.table
      ensures Valid() && start == old(start)
      ensures actions == old(actions) +
        if old(server.sensorRequestsQueue.items) != [] then [ExecuteNext(serverTime)] else []
    {
      hide ServerModel.Valid, AdministratorExecutor.Valid, Initial, Step, Run, With, TokensDistinct;
      if |server.sensorRequestsQueue.items| > 0 {
        ghost var before := server.View();
        server.ExecuteSensorRequest(serverTime, room);
        ExecutionIsStep(before, serverTime);
        RunOfOne(before, ExecuteNext(serverTime));
        Performed(before, [ExecuteNext(serverTime)]);
        actions := actions + [ExecuteNext(serverTime)];
      }
    }

    /** An administrator's message arrives; see AdminServer for those that are no requests. */
    method PerformAsking(slot: nat, conn: nat, msg: seq<byte>)
      requires Valid()
      modifies administrators.requestsQueue
      ensures Valid()
      ensures administrators.requestsQueue.pushed == old(administrators.requestsQueue.pushed) +
        if AdminProtocol.AnalyzeMessage(msg).Request?
        then [AdminRequest(slot, conn, AdminProtocol.AnalyzeMessage(msg).command)] else []
    {
      hide Inv, Initial, Run, Traced, With, Sends, Receives, Survivors, AllMatch, AdminProtocol.AnalyzeMessage;
      if AdminProtocol.AnalyzeMessage(msg).Request? {
        administrators.OnGotRequest(slot, conn, msg);
      } else {
        assert administrators.requestsQueue.pushed + [] == administrators.requestsQueue.pushed;
      }
    }

    /** A request waits, and if it needs a new token, one can be drawn and stored. */
    ghost predicate CanAdminister(rand: nat -> nat, key: int32, some: nat)
      reads this, server, server.table, administrators, administrators.requestsQueue
    {
      && administrators.requestsQueue.items != []
      && (administrators.requestsQueue.items[0].command.GenerateToken? ==>
            key !in server.table.rows && !TokenExists(server.table.rows, TokenAt(rand, some * 15)))
    }

    /** The administrator executor takes a request, if the database can give a new token when it needs one. */
    method PerformAdministration(rand: nat -> nat, key: int32, some: nat, room: int)
      returns (response: Option<Response>)
      requires Valid()
      modifies this`running, this`waiting, this`actions
      modifies server, server.handler, server.handler.clients, server.sensorRequestsQueue, server.table
      modifies administrators, administrators.requestsQueue, administrators.responsesQueue
      ensures Valid() && start == old(start) && old(actions) <= actions
      ensures if old(CanAdminister(rand, key, some)) then
          && Effect(old(server.View()), server.View(), old(administrators.requestsQueue.items[0]).command, response)
          && administrators.requestsQueue.popped ==
               old(administrators.requestsQueue.popped) + [old(administrators.requestsQueue.items[0])]
        else
          actions == old(actions) && server.View() == old(server.View()) && response == None
    {
      response := None;
      hide Inv, Initial, Run, Traced, With, Sends, Receives, TokensDistinct, TokenExists, Survivors, AllMatch, Effect;
      if |administrators.requestsQueue.items| > 0 {
        var command := administrators.requestsQueue.items[0].command;
        var exists' := server.table.CheckIfTokenExists(TokenAt(rand, some * 15));
        if !command.GenerateToken? || (!exists' && key !in server.table.rows) {
          ghost var before := server.View();
          response := administrators.ExecuteOne(rand, key, some, room);
          ghost var more := EffectIsAction(before, server.View(), command, response);
          Performed(before, more);
          actions := actions + more;
        }
      }
    }

    /** The sender takes a response, for whoever has the slot of its client id; see Recipients. */
    method PerformResponding()
      requires Valid()
      modifies administrators, administrators.responsesQueue
      ensures Valid()
      ensures administrators.handed == old(administrators.handed) +
        if old(administrators.responsesQueue.items) == [] then [] else [old(administrators.responsesQueue.items[0])]
    {
      hide Inv, Initial, Run, Traced, With, Sends, Receives, Survivors, AllMatch;
      hide AdminProtocol.SerializeResponseMessage;
      if |administrators.responsesQueue.items| > 0 {
        var clientId, toSend := administrators.SendOne();
      }
    }

    /** A step of an executor. */
    lemma Performed(before: State, more: seq<Action>)
      requires before == Run(start, actions) && server.View() == Run(before, more)
      requires |more| <= 1 && forall a <- more :: !a.ScanSlots? && !a.AcceptConnection?
      ensures server.View() == Run(start, actions + more) && (before.armed ==> server.View().armed)
    {
      RunOfRuns(start, actions, more);
      ArmedAfter(before, more);
    }

    /** What a task of the network thread or of the sensor executor adds, but for a whole round. */
    ghost function ActionsOf(task: Task): seq<Action>
      requires task.Valid()
      reads this, server, server.handler, server.handler.clients, server.sensorRequestsQueue
    {
      match task
      case Choosing => if running then [ScanSlots] else []
      case Accepting(comer) => if running && waiting then [AcceptConnection(comer.ip, comer.port)] else []
      case Receiving(slot, data) =>
        if running && slot < |server.handler.clients| && server.handler.clients[slot].Connected()
        then Reception(Handler.TurnOf(server.handler.clients[slot].history, data.available, data.limit),
                       slot, data.beyond)
        else []
      case Sending(slot, room) =>
        if running && slot < |server.handler.clients| && server.handler.clients[slot].Connected()
          && (room <= 0 || server.handler.clients[slot].outBuffer == [])
        then [PeerCloses(slot)] else []
      case Executing(serverTime, _) => if server.sensorRequestsQueue.items != [] then [ExecuteNext(serverTime)] else []
      case _ => []
    }

    method Perform(task: Task)
      requires Valid() && task.Valid()
      modifies this`running, this`waiting, this`actions
      modifies server, server.handler, server.handler.clients, server.sensorRequestsQueue, server.table
      modifies administrators, administrators.requestsQueue, administrators.responsesQueue
      ensures Valid() && start == old(start) && old(actions) <= actions
      ensures task.Round? && old(running) ==>
        IsRound(old(server.View()), old(server.handler.Histories()), old(server.handler.OutBuffers()),
                task.arrival, task.readable, task.writable, actions[|old(actions)|..])
      ensures task.Administering? && old(CanAdminister(task.rand, task.key, task.some)) ==>
        exists response ::
          Effect(old(server.View()), server.View(), old(administrators.requestsQueue.items[0]).command, response)
      ensures !task.Round? && !task.Administering? ==> actions[|old(actions)|..] == old(ActionsOf(task))
    {
      hide ServerModel.Valid, AdministratorExecutor.Valid, Threads.Valid, IsRound, Effect, Reception, Handler.TurnOf,
        CanAdminister;
      match task
      case Round(arrival, readable, writable) => PerformRound(arrival, readable, writable);
      case Choosing => PerformChoice();
      case Accepting(comer) => PerformAcceptance(comer);
      case Receiving(slot, data) => PerformReception(slot, data);
      case Sending(slot, room) => PerformSending(slot, room);
      case Executing(serverTime, room) => PerformExecution(serverTime, room);
      case Asking(slot, conn, msg) => PerformAsking(slot, conn, msg);
      case Administering(rand, key, some, room) =>
        var response := PerformAdministration(rand, key, some, room);
      case Responding => PerformResponding();
    }

    /** What all runs promise holds of the objects at every moment. */
    lemma Promises()
      requires Valid()
      ensures forall k: nat :: k < |server.View().stored| ==> HasSource(server.View(), k)
      ensures forall e :: 0 <= e < |server.View().conns| ==> LivedOnce(server.View(), e)
      ensures forall id ::
        id in server.table.rows && server.table.rows[id].status == Active <==> id in server.sensorToClientId
      ensures forall k: nat :: k < |server.View().stored| ==> HasBytes(k)
      ensures |server.handler.wires| == |server.View().conns|
      ensures forall e: nat :: e < |server.handler.wires| ==> ReadsItsReplies(e)
    {
      hide Inv, Initial, Run, Traced, LivedOnce, HasSource, Decode, Sends, Receives;
      var st := server.View();
      assert st == Run(start, actions);
      RunsPromise(start, actions, st);
      forall k: nat | k < |server.View().stored|
        ensures HasBytes(k)
      {
        var e, n, m := server.MeasurementsComeFromBytes(k);
      }
      forall e: nat | e < |server.handler.wires|
        ensures ReadsItsReplies(e)
      {
        EveryConnectionReadsItsReplies(e);
      }
      server.WiresAreOfConnections();
    }

    /** The sensor of connection e reads, of whatever has reached it, the first of its own replies. */
    ghost predicate ReadsItsReplies(e: nat)
      requires e < |server.handler.wires|
      reads this, server, server.handler, server.table
    {
      forall arrived, beyond: seq<byte> :: arrived <= server.handler.wires[e] && |beyond| >= 8 ==>
        ReadsAs(Decode(arrived).msgs, RepliesTo(server.View().sent, e), beyond)
    }

    lemma EveryConnectionReadsItsReplies(e: nat)
      requires Valid() && e < |server.handler.wires|
      ensures ReadsItsReplies(e)
    {
      hide ServerModel.Valid, Decode, ReadsAs, RepliesTo;
      forall arrived, beyond: seq<byte> | arrived <= server.handler.wires[e] && |beyond| >= 8
        ensures ReadsAs(Decode(arrived).msgs, RepliesTo(server.View().sent, e), beyond)
      {
        server.SensorReadsReplies(e, arrived, beyond);
      }
    }

    /** Stored measurement k goes back to the bytes of one connection. */
    ghost predicate HasBytes(k: nat)
      requires k < |server.View().stored|
      reads this, server, server.handler, server.table
    {
      exists e: nat, n: nat, m: nat :: e < |server.handler.streams|
        && ComesFrom(server.View(), server.View().stored[k], Decode(server.handler.streams[e]).msgs, n, m)
    }
  }

  lemma RunsPromise(start: State, actions: seq<Action>, st: State)
    requires Initial(start) && st == Run(start, actions)
    ensures forall k: nat :: k < |st.stored| ==> HasSource(st, k)
    ensures forall e :: 0 <= e < |st.conns| ==> LivedOnce(st, e)
    ensures forall id :: id in st.rows && st.rows[id].status == Active <==> id in st.s2c
  {
    hide Initial, Run, LivedOnce, HasSource;
    EveryMeasurementIsItsSenders(start, actions);
    OneGoodbyePerConnection(start, actions);
    ActiveIffRegistered(start, actions);
  }

  lemma ReceptionIsATurn(turn: Handler.Turn, slot: nat, beyond: seq<byte>)
    requires |beyond| >= 12 && (turn.got != None ==> |turn.got.value| > 0)
    ensures var actions := Reception(turn, slot, beyond);
      |actions| <= 1 && forall a <- actions :: a.ReceiveFrame? || a.PeerCloses?
  {
  }

  lemma ArmedAfter(st: State, actions: seq<Action>)
    requires |actions| <= 1 && forall a <- actions :: !a.ScanSlots? && !a.AcceptConnection?
    ensures st.armed ==> Run(st, actions).armed
  {
    hide Step;
    if actions != [] && st.armed {
      RunOfOne(st, actions[0]);
      assert actions == [actions[0]] && actions[0] in actions;
      StaysArmed(st, actions[0]);
    }
  }

  /** What a command does is one step or none. */
  lemma EffectIsAction(before: State, after: State, command: Command, response: Option<Response>)
    returns (more: seq<Action>)
    requires Effect(before, after, command, response)
    ensures after == Run(before, more)
    ensures |more| <= 1 && forall a <- more :: !a.ScanSlots? && !a.AcceptConnection?
  {
    hide Step, Lists, TokenExists;
    match command
    case GetAllSensors =>
      more := [];
    case UpdateSensorName(id, name) =>
      RunOfOne(before, RenameSensor(id, name));
      more := [RenameSensor(id, name)];
    case RevokeSensor(id) =>
      RunOfOne(before, Session.RevokeSensor(id));
      more := [Session.RevokeSensor(id)];
    case DisconnectSensor(id) =>
      RunOfOne(before, Session.DisconnectSensor(id));
      more := [Session.DisconnectSensor(id)];
    case GenerateToken(_) =>
      var key :| key !in before.rows && after == Step(before, Session.GenerateToken(response.value.token, key));
      RunOfOne(before, Session.GenerateToken(response.value.token, key));
      more := [Session.GenerateToken(response.value.token, key)];
  }

  /** A server that is built and runs through any tasks in any order. */
  method Serve(maxClients: nat, table: SensorTable, tasks: seq<Task>) returns (threads: Threads)
    requires table.Valid() && forall task <- tasks :: task.Valid()
    requires forall id <- table.rows :: table.rows[id].status != Active
    modifies table
    ensures threads.Valid() && threads.server.table == table
    ensures forall k: nat :: k < |threads.server.View().stored| ==> threads.HasBytes(k)
    ensures forall e: nat :: e < |threads.server.handler.wires| ==> threads.ReadsItsReplies(e)
  {
    hide Inv, Initial, Run, Traced, With, Sends, Receives, TokensDistinct;
    threads := new Threads(maxClients, table);
    for i := 0 to |tasks|
      invariant threads.Valid() && threads.server.table == table
      invariant fresh(threads) && fresh(threads.server) && fresh(threads.server.handler)
      invariant fresh(threads.server.handler.clients) && fresh(threads.server.sensorRequestsQueue)
      invariant fresh(threads.administrators) && fresh(threads.administrators.requestsQueue)
      invariant fresh(threads.administrators.responsesQueue)
    {
      threads.Perform(tasks[i]);
    }
    threads.Promises();
  }
}
