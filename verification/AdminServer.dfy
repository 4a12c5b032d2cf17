/** The administrator's executor and response sender: requests that the listener analyzed are
    executed on the model one by one, and each response is serialized for its client. */
module AdminServer {
  import opened Wire
  import opened Queues
  import Session
  import SessionInvariants
  import SessionSteps
  import Database
  import Server
  import AdminProtocol
  import Fields

  type Command = AdminProtocol.Command<Session.Text>
  type Response = AdminProtocol.Response<Session.Text>

  /** Client ids are slot numbers, so the sender's test for -1 never fails.  `conn` is the connection
      that asked, which the source does not keep. */
  datatype AdminRequest = AdminRequest(clientId: nat, conn: nat, command: Command)
  datatype AdminResponse = AdminResponse(clientId: nat, conn: nat, response: Response)

  /** The response is for the request's client and of the request's kind. */
  predicate Matches(request: AdminRequest, answer: AdminResponse) {
    && answer.clientId == request.clientId && answer.conn == request.conn
    && match (request.command, answer.response)
       case (GetAllSensors, AllSensors(_)) => true
       case (UpdateSensorName(id, _), NameUpdated(id')) => id == id'
       case (RevokeSensor(id), Revoked(id')) => id == id'
       case (DisconnectSensor(id), Disconnected(id')) => id == id'
       case (GenerateToken(_), Token(_)) => true
       case _ => false
  }

  function ResponseTo(request: AdminRequest, response: Response): AdminResponse {
    AdminResponse(request.clientId, request.conn, response)
  }

  /** The step of the session that a command makes, if any. */
  ghost predicate Effect(before: Session.State, after: Session.State, command: Command, response: Option<Response>) {
    match command
    case GetAllSensors =>
      && after == before && response.Some? && response.value.AllSensors?
      && exists sensors ::
          Database.Lists(before.rows, sensors) && response.value.sensors == Fields.Viewed(ToSensor, sensors)
    case UpdateSensorName(id, name) =>
      after == Session.Step(before, Session.RenameSensor(id, name))
      && response == if id in before.rows then Some(AdminProtocol.NameUpdated(id)) else None
    case RevokeSensor(id) =>
      after == Session.Step(before, Session.RevokeSensor(id))
      && response == if id in before.rows then Some(AdminProtocol.Revoked(id)) else None
    case DisconnectSensor(id) =>
      after == Session.Step(before, Session.DisconnectSensor(id))
      && response == if id in before.rows then Some(AdminProtocol.Disconnected(id)) else None
    case GenerateToken(_) =>
      && response.Some? && response.value.Token?
      && !Session.TokenExists(before.rows, response.value.token)
      && exists key ::
          key !in before.rows && after == Session.Step(before, Session.GenerateToken(response.value.token, key))
  }

  /** One row is new: with this token, no name, no status that the server gave it, and no address. */
  ghost predicate HasNewRow(before: Session.State, after: Session.State, token: Session.Text) {
    exists key: int32 ::
      key !in before.rows && after == before.(rows := before.rows[key := Session.Row([], token, Session.Fresh, [], 0)])
  }

  /** Command by command, what a successful execution writes and what it answers. */
  lemma EachCommandTakesEffect(
    before: Session.State, after: Session.State, command: Command, response: Option<Response>)
    requires Effect(before, after, command, response)
    ensures match command
      case GetAllSensors => after == before && response.Some? && response.value.AllSensors?
      case UpdateSensorName(id, name) => (
        if id !in before.rows then
          after == before && response == None
        else
          && after == before.(rows := before.rows[id := before.rows[id].(name := name)])
          && response == Some(AdminProtocol.NameUpdated(id)))
      case RevokeSensor(id) => (
        if id !in before.rows then
          after == before && response == None
        else
          && after.rows == before.rows[id := before.rows[id].(status := Session.Status.Revoked)]
          && SessionSteps.Kills(before, after, if id in before.s2c then before.s2c[id] else 0, 1)
          && response == Some(AdminProtocol.Revoked(id)))
      case DisconnectSensor(id) => (
        if id !in before.rows then
          after == before && response == None
        else
          && after.rows == before.rows[id := before.rows[id].(
               status := if before.rows[id].status == Session.Status.Revoked then Session.Status.Revoked
                         else Session.Inactive)]
          && SessionSteps.Kills(before, after, if id in before.s2c then before.s2c[id] else 0, 2)
          && response == Some(AdminProtocol.Disconnected(id)))
      case GenerateToken(_) =>
        response.Some? && response.value.Token? && HasNewRow(before, after, response.value.token)
  {
    hide Session.Step, Database.Lists, SessionSteps.Kills;
    match command
    case GetAllSensors =>
    case UpdateSensorName(id, name) => SessionSteps.RenamingWrites(before, id, name);
    case RevokeSensor(id) => SessionSteps.RevocationWrites(before, id);
    case DisconnectSensor(id) => SessionSteps.DisconnectionWrites(before, id);
    case GenerateToken(_) =>
      var token := response.value.token;
      var key: int32 :| key !in before.rows && after == Session.Step(before, Session.GenerateToken(token, key));
      forall other | other in before.rows
        ensures before.rows[other].token != token
      {
        assert !Session.Names(before.rows, token, other);
      }
      SessionSteps.GenerationWrites(before, token, key);
  }

  function ToSensor(s: Database.Listed): AdminProtocol.Sensor<Session.Text> {
    AdminProtocol.Sensor(s.id, s.name, s.ip, s.port, s.connected)
  }

  /** The requests whose execution did not throw. */
  function Survivors(requests: seq<AdminRequest>, survived: seq<bool>): (r: seq<AdminRequest>)
    requires |requests| == |survived|
    ensures |r| <= |requests|
  {
    if requests == [] then []
    else
      var n := |requests| - 1;
      Survivors(requests[..n], survived[..n]) + if survived[n] then [requests[n]] else []
  }

  lemma SurvivorsOfNext(requests: seq<AdminRequest>, survived: seq<bool>, request: AdminRequest, survives: bool)
    requires |requests| == |survived|
    ensures Survivors(requests + [request], survived + [survives]) ==
      Survivors(requests, survived) + if survives then [request] else []
  {
    assert (requests + [request])[..|requests|] == requests && (survived + [survives])[..|requests|] == survived;
  }

  ghost predicate AllMatch(requests: seq<AdminRequest>, answers: seq<AdminResponse>) {
    |requests| == |answers| && forall i :: 0 <= i < |requests| ==> Matches(requests[i], answers[i])
  }

  class AdministratorExecutor {
    const model: Server.ServerModel
    const requestsQueue: Queue<AdminRequest>
    const responsesQueue: Queue<AdminResponse>
    ghost var survived: seq<bool>           // per executed request: no call threw
    ghost var handed: seq<AdminResponse>    // responses given to the connection

    /** Responses answer the surviving requests one by one and in order, and are handed over in
        that order. */
    ghost predicate Valid()
      reads this, requestsQueue, responsesQueue
    {
      && requestsQueue.Valid() && responsesQueue.Valid()
      && |survived| == |requestsQueue.popped|
      && AllMatch(Survivors(requestsQueue.popped, survived), responsesQueue.pushed)
      && handed == responsesQueue.popped
    }

    constructor (model: Server.ServerModel)
      ensures Valid() && this.model == model && handed == []
      ensures fresh(requestsQueue) && fresh(responsesQueue)
    {
      this.model := model;
      requestsQueue := new Queue<AdminRequest>();
      responsesQueue := new Queue<AdminResponse>();
      survived, handed := [], [];
    }

    /** AdministratorListener::onGotRequest, for a message that is a request. */
    method OnGotRequest(clientId: nat, conn: nat, msg: seq<byte>)
      requires Valid() && AdminProtocol.AnalyzeMessage(msg).Request?
      modifies requestsQueue
      ensures Valid()
      ensures requestsQueue.pushed ==
        old(requestsQueue.pushed) + [AdminRequest(clientId, conn, AdminProtocol.AnalyzeMessage(msg).command)]
    {
      var _ := requestsQueue.Push(AdminRequest(clientId, conn, AdminProtocol.AnalyzeMessage(msg).command));
    }

    /** One round of executeAdministratorRequests.  No response: a database call threw. */
    method ExecuteOne(rand: nat -> nat, key: int32, ghost some: nat, room: int) returns (response: Option<Response>)
      requires Valid() && model.Valid() && requestsQueue.items != []
      requires requestsQueue.items[0].command.GenerateToken? ==>
        key !in model.table.rows && !Session.TokenExists(model.table.rows, Database.TokenAt(rand, some * 15))
      modifies this`survived, requestsQueue, responsesQueue, model`sensorToClientId, model`adminKills
      modifies model.handler`net, model.handler`wires, model.handler.clients, model.sensorRequestsQueue, model.table
      ensures Valid() && model.Valid()
      ensures Effect(old(model.View()), model.View(), old(requestsQueue.items[0]).command, response)
      ensures requestsQueue.popped == old(requestsQueue.popped) + [old(requestsQueue.items[0])]
      ensures survived == old(survived) + [response != None]
      ensures responsesQueue.pushed == old(responsesQueue.pushed) +
        if response == None then [] else [ResponseTo(old(requestsQueue.items[0]), response.value)]
    {
      hide Effect, Matches, Survivors, AllMatch, Session.TokenExists, SessionInvariants.Inv;
      var request := requestsQueue.Pop(_ => [], 0);
      response := Execute(request.command, rand, key, some, room);
      Respond(request, response);
    }

    /** Queues the response for the request that has just been popped and executed. */
    method Respond(request: AdminRequest, response: Option<Response>)
      requires requestsQueue.Valid() && responsesQueue.Valid() && requestsQueue.popped != []
      requires request == requestsQueue.popped[|requestsQueue.popped| - 1]
      requires |survived| == |requestsQueue.popped| - 1 && handed == responsesQueue.popped
      requires AllMatch(Survivors(requestsQueue.popped[..|survived|], survived), responsesQueue.pushed)
      requires response != None ==> Matches(request, ResponseTo(request, response.value))
      modifies this`survived, responsesQueue
      ensures Valid() && survived == old(survived) + [response != None]
      ensures responsesQueue.pushed == old(responsesQueue.pushed) +
        if response == None then [] else [ResponseTo(request, response.value)]
    {
      hide Matches, Survivors;
      ghost var before := requestsQueue.popped[..|survived|];
      assert requestsQueue.popped == before + [request];
      SurvivorsOfNext(before, survived, request, response != None);
      survived := survived + [response != None];
      if response != None {
        var _ := responsesQueue.Push(ResponseTo(request, response.value));
      } else {
        assert responsesQueue.pushed + [] == responsesQueue.pushed;
      }
    }

    /** The switch over the command types. */
    method Execute(command: Command, rand: nat -> nat, key: int32, ghost some: nat, room: int)
      returns (response: Option<Response>)
      requires model.Valid()
      requires command.GenerateToken? ==>
        key !in model.table.rows && !Session.TokenExists(model.table.rows, Database.TokenAt(rand, some * 15))
      modifies model`sensorToClientId, model`adminKills
      modifies model.handler`net, model.handler`wires, model.handler.clients, model.sensorRequestsQueue, model.table
      ensures model.Valid() && Effect(old(model.View()), model.View(), command, response)
      ensures response != None ==> forall c, e ::
        Matches(AdminRequest(c, e, command), AdminResponse(c, e, response.value))
    {
      hide Session.Step, Session.TokenExists, Database.Lists, SessionInvariants.Inv;
      match command
      case GetAllSensors =>
        var sensors := model.ExecuteGetAllSensors();
        response := Some(AdminProtocol.AllSensors(Fields.Viewed(ToSensor, sensors)));
      case UpdateSensorName(id, name) =>
        var done := model.ExecuteUpdateSensorName(id, name);
        response := if done then Some(AdminProtocol.NameUpdated(id)) else None;
      case RevokeSensor(id) =>
        var done := model.ExecuteRevokeSensor(id, room);
        response := if done then Some(AdminProtocol.Revoked(id)) else None;
      case DisconnectSensor(id) =>
        var done := model.ExecuteDisconnectSensor(id, room);
        response := if done then Some(AdminProtocol.Disconnected(id)) else None;
      case GenerateToken(_) =>
        var token := model.ExecuteGenerateToken(rand, key, some);
        response := Some(AdminProtocol.Token(token));
    }

    /** One round of sendAdministratorResponse: the bytes for the client's connection. */
    method SendOne() returns (clientId: nat, toSend: seq<byte>)
      requires Valid() && responsesQueue.items != []
      modifies this`handed, responsesQueue
      ensures Valid() && handed == old(handed) + [old(responsesQueue.items[0])]
      ensures clientId == old(responsesQueue.items[0]).clientId
      ensures !old(responsesQueue.items[0]).response.NotRecognized?
      ensures toSend == AdminProtocol.SerializeResponseMessage(old(responsesQueue.items[0]).response)
    {
      hide Survivors;
      ghost var k := |responsesQueue.popped|;
      assert responsesQueue.pushed[k] == responsesQueue.items[0];
      assert Matches(Survivors(requestsQueue.popped, survived)[k], responsesQueue.pushed[k]);
      var answer := responsesQueue.Pop(_ => [], 0);
      clientId := answer.clientId;
      toSend := AdminProtocol.SerializeResponseMessage(answer.response);
      handed := handed + [answer];
    }

    /** At every moment what was handed over answers a prefix of the surviving requests, and those
        are all executed requests if none threw. */
    lemma HandedInOrder()
      requires Valid()
      ensures |handed| <= |Survivors(requestsQueue.popped, survived)|
      ensures AllMatch(Survivors(requestsQueue.popped, survived)[..|handed|], handed)
      ensures (forall b <- survived :: b) ==> Survivors(requestsQueue.popped, survived) == requestsQueue.popped
    {
      if forall b <- survived :: b {
        AllSurvive(requestsQueue.popped, survived);
      }
    }
  }

  lemma {:induction false} AllSurvive(requests: seq<AdminRequest>, survived: seq<bool>)
    requires |requests| == |survived| && forall b <- survived :: b
    ensures Survivors(requests, survived) == requests
  {
    if requests != [] {
      var n := |requests| - 1;
      assert survived[n] in survived;
      assert forall b <- survived[..n] :: b in survived;
      AllSurvive(requests[..n], survived[..n]);
      assert requests[..n] + [requests[n]] == requests;
    }
  }
}
