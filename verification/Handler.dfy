/** ClientsHandler on the sensor side, with SensorListener behind it: slots are bound, read,
    written and freed, and the listener's requests go to the model's queue. */
module Handler {
  import opened Wire
  import opened Framing
  import opened Transport
  import opened Queues
  import opened Session
  import opened SensorProtocol
  import opened Replies

  function Requests(log: seq<Entry>): (r: seq<Request>)
    ensures |r| == |log|
    ensures forall i :: 0 <= i < |log| ==> r[i] == log[i].request
  {
    seq(|log|, i requires 0 <= i < |log| => log[i].request)
  }

  lemma RequestsOfAppend(log: seq<Entry>, entry: Entry)
    ensures Requests(log + [entry]) == Requests(log) + [entry.request]
  {
  }

  /** A slot's turn in tryRecv: the bytes taken, the message they complete, or the illegal length
      that they end with. */
  datatype Turn = Turn(taken: nat, got: Option<seq<byte>>, thrown: Option<int32>)

  /** The turn by what all bytes of the connection decode to: the message is the first that has
      not been delivered. */
  ghost function TurnOf(h: History, available: seq<byte>, limit: nat): (turn: Turn)
    ensures turn.got != None ==> |turn.got.value| > 0
  {
    var taken := Taken(h, available, limit);
    var d := Decode(h.bytes + available[..taken]);
    Turn(taken, if |d.msgs| > |h.delivered| then Some(d.msgs[|h.delivered|]) else None, d.illegal)
  }

  function WithMessage(msgs: seq<seq<byte>>, got: Option<seq<byte>>): seq<seq<byte>> {
    msgs + if got == None then [] else [got.value]
  }

  /** A turn on connection e adds what it took to that connection's stream, and with it the message
      that it completes, if it does. */
  ghost predicate StreamsAfter(
    streams: seq<seq<byte>>, streams': seq<seq<byte>>, e: nat, available: seq<byte>, turn: Turn)
  {
    && e < |streams| && turn.taken <= |available|
    && streams' == streams[e := streams[e] + available[..turn.taken]]
    && Decode(streams'[e]).msgs == WithMessage(Decode(streams[e]).msgs, turn.got)
  }

  /** A send buffer after a message was added and the socket took some of it. */
  function Queued(buffer: seq<byte>, msg: seq<byte>, room: int): seq<byte> {
    var all := buffer + Framing.Frame(msg);
    all[Min(Max(room, 0), |all|)..]
  }

  /** A slot's send buffer after its turn in tryRecv: a measurement is confirmed at once. */
  function BufferAfter(buffer: seq<byte>, got: Option<seq<byte>>, beyond: seq<byte>, room: int): seq<byte>
    requires |beyond| >= 12 && (got != None ==> |got.value| > 0)
  {
    if got != None && ParseFrame(got.value, beyond).MeasureFrame? then
      Queued(buffer, ReplyBytes(Confirmed(ParseFrame(got.value, beyond).timestamp)), room)
    else buffer
  }

  lemma NothingGot(buffer: seq<byte>, beyond: seq<byte>, room: int)
    requires |beyond| >= 12
    ensures BufferAfter(buffer, None, beyond, room) == buffer
  {
  }

  lemma TurnIs(h: History, available: seq<byte>, limit: nat, turn: Turn)
    requires turn.taken == Taken(h, available, limit)
    requires var d := Decode(h.bytes + available[..turn.taken]);
      d.illegal == turn.thrown && d.msgs == h.delivered + if turn.got == None then [] else [turn.got.value]
    ensures turn == TurnOf(h, available, limit)
  {
    hide Decode, Taken;
  }

  /** recvData on one connection, as a turn. */
  method RecvTurn(client: Client, available: seq<byte>, limit: nat) returns (turn: Turn)
    requires client.Valid() && client.Connected() && client.history.broken == None
    modifies client`inBuffer, client`remainingIn, client`remainingInLen, client`history
    ensures client.Valid() && turn == TurnOf(old(client.history), available, limit)
    ensures client.history.broken == turn.thrown
    ensures turn.thrown != None ==> turn.got == None && turn.taken > 0
    ensures turn.taken == 0 <==> available == [] || limit == 0
    ensures turn.taken <= |available| && client.history.bytes == old(client.history.bytes) + available[..turn.taken]
    ensures Decode(client.history.bytes).msgs == WithMessage(Decode(old(client.history.bytes)).msgs, turn.got)
    ensures client.history.accepted == old(client.history.accepted) && client.history.wire == old(client.history.wire)
  {
    hide Decode, Sends, Receives, Taken, TurnOf;
    ReceivedDecodes(client.history, client.remainingIn, client.remainingInLen, client.inBuffer);
    var r, got, taken := client.RecvData(available, limit);
    ReceivedDecodes(client.history, client.remainingIn, client.remainingInLen, client.inBuffer);
    turn := Turn(taken, got, if r.DataLength? then Some(r.length) else None);
    TurnIs(old(client.history), available, limit, turn);
  }

  /** addOutMsg on a slot, of a reply. */
  method AddReply(client: Client, reply: Reply, room: int)
    requires client.Valid() && client.isServer
    modifies client`outBuffer, client`history
    ensures client.Valid()
    ensures client.history == old(client.history).(accepted := client.history.accepted, wire := client.history.wire)
    ensures client.Connected() ==>
      && client.history.accepted == old(client.history.accepted) + [ReplyBytes(reply)]
      && client.history.wire <= Frames(client.history.accepted)
      && client.outBuffer == Queued(old(client.outBuffer), ReplyBytes(reply), room)
    ensures !client.Connected() ==> client.history == old(client.history) && client.outBuffer == old(client.outBuffer)
  {
    hide Sends, Receives, Framing.Frame, ReplyBytes, Frames;
    ghost var all := client.outBuffer + Framing.Frame(ReplyBytes(reply));
    var result, put := client.AddOutMsg(ReplyBytes(reply), room);
    if client.Connected() {
      assert put == all[..|put|] && client.outBuffer == all[|put|..];
      WireOfSends(client.history, client.outBuffer);
    }
  }

  /** sendData on a slot. */
  method WriteSome(client: Client, room: int) returns (sent: int)
    requires client.Valid() && client.Connected()
    modifies client`outBuffer, client`history
    ensures client.Valid() && client.history == old(client.history).(wire := client.history.wire)
    ensures client.history.wire <= Frames(client.history.accepted)
    ensures sent <= 0 <==> room <= 0 || old(client.outBuffer) == []
  {
    hide Sends, Receives, Frames;
    var put;
    sent, put := client.SendData(room);
    WireOfSends(client.history, client.outBuffer);
  }

  class ClientsHandler {
    const clients: seq<Client>
    const queue: Queue<Request>
    var freeHandler: int
    /** The network part of the session state; its other fields are not the handler's. */
    ghost var net: State
    /** A read threw: the loop has ended, and with it the network thread. */
    ghost var stopped: bool
    /** Per connection, in the order of acceptance: all bytes taken from its socket. */
    ghost var streams: seq<seq<byte>>
    /** Likewise, all bytes handed to its socket. */
    ghost var wires: seq<seq<byte>>

    /** A Client object and the slot it implements. */
    static ghost predicate Implements(client: Client, slot: Slot, index: int, stopped: bool)
      reads client
    {
      && client.isServer && client.Valid()
      && (!stopped ==> client.history.broken == None)
      && (client.Connected() <==> slot.Live?)
      && (slot.Live? ==> client.clientId == index && client.ip == slot.ip && client.port == slot.port)
    }

    /** A live slot's connection and its stream. */
    static ghost predicate OnStream(client: Client, slot: Slot, index: int, conns: seq<Conn>, streams: seq<seq<byte>>)
      reads client
    {
      slot.Live? ==>
        && slot.conn < |conns| == |streams| && conns[slot.conn].slot == index
        && streams[slot.conn] == client.history.bytes
    }

    /** A live slot's connection has been told its replies, and nothing else. */
    static ghost predicate OnWire(client: Client, slot: Slot, sent: seq<Sent>, wires: seq<seq<byte>>)
      reads client
    {
      slot.Live? ==>
        && slot.conn < |wires| && wires[slot.conn] == client.history.wire
        && client.history.accepted == Told(sent, slot.conn)
    }

    ghost predicate Valid()
      reads this, clients, queue
    {
      && (forall i, j :: 0 <= i < j < |clients| ==> clients[i] != clients[j])
      && |net.slots| == |clients|
      && (forall i :: 0 <= i < |clients| ==> Implements(clients[i], net.slots[i], i, stopped))
      && |streams| == |net.conns|
      && (forall i :: 0 <= i < |clients| ==> OnStream(clients[i], net.slots[i], i, net.conns, streams))
      && Wired(net, wires)
      && (forall i :: 0 <= i < |clients| ==> OnWire(clients[i], net.slots[i], net.sent, wires))
      && freeHandler == net.freeHandler
      && queue.Valid() && queue.pushed == Requests(net.log)
    }

    constructor (maxClients: nat, queue: Queue<Request>)
      requires queue.Valid() && queue.pushed == []
      ensures Valid() && this.queue == queue && |clients| == maxClients
      ensures Initial(net) && net.rows == map[] && !stopped && streams == [] && wires == []
      ensures fresh(clients)
    {
      hide Sends, Receives, Frames;
      var created: seq<Client> := [];
      for i := 0 to maxClients
        invariant |created| == i
        invariant fresh(created)
        invariant forall k :: 0 <= k < i ==> created[k].isServer && created[k].Valid() && !created[k].Connected()
        invariant forall k :: 0 <= k < i ==> created[k].history.broken == None
        invariant forall j, k :: 0 <= j < k < i ==> created[j] != created[k]
      {
        var client := new Client(true);
        created := created + [client];
      }
      clients, freeHandler, stopped, streams, wires := created, -1, false, [], [];
      this.queue := queue;
      net := State(seq(maxClients, _ => Free), -1, false, map[], map[], map[], [], [], [], [], [], 0, 0);
    }

    ghost function Histories(): (r: seq<History>)
      reads clients
      ensures |r| == |clients|
    {
      seq(|clients|, i requires 0 <= i < |clients| reads clients => clients[i].history)
    }

    ghost function OutBuffers(): (r: seq<seq<byte>>)
      reads clients
      ensures |r| == |clients|
    {
      seq(|clients|, i requires 0 <= i < |clients| reads clients => clients[i].outBuffer)
    }

    /** The Client object behind a client id, if there is one. */
    ghost function At(clientId: int): (r: set<Client>)
      ensures forall client <- r :: client in clients
    {
      if 0 <= clientId < |clients| then {clients[clientId]} else {}
    }

    /** ClientsHandler::getFreeHandler */
    method GetFreeHandler() returns (free: int)
      requires Valid()
      ensures free == FirstFree(net.slots, 0)
    {
      for i := 0 to |clients|
        invariant FirstFree(net.slots, 0) == FirstFree(net.slots, i)
      {
        assert Implements(clients[i], net.slots[i], i, stopped);
        if clients[i].socket < 0 {
          return i;
        }
      }
      return -1;
    }

    /** The handling loop, before select. */
    method ChooseFreeHandler()
      requires Valid()
      modifies this`freeHandler, this`net
      ensures Valid() && net == Scan(old(net))
    {
      hide Wired, FirstFree, Implements, OnStream, OnWire;
      freeHandler := GetFreeHandler();
      ScanKeepsWired(net, wires);
      net := Scan(net);
    }

    /** tryAccept and bindHandler: the loop comes here at most once after it chose a slot, and
        only if it found one. */
    method BindHandler(socket: int, ip: Text, port: int32)
      requires Valid() && socket >= 0
      requires net.armed && 0 <= freeHandler < |clients| && net.slots[freeHandler].Free?
      modifies this`net, this`streams, this`wires, At(freeHandler)
      ensures Valid() && net == Accept(old(net), ip, port)
      ensures clients[freeHandler].history == old(clients[freeHandler].history)
      ensures clients[freeHandler].outBuffer == old(clients[freeHandler].outBuffer)
      ensures streams == old(streams) + [[]] && wires == old(wires) + [[]]
    {
      hide Sends, Receives, Wired, Told;
      ghost var before, slots, conns, put := streams, net.slots, net.conns, wires;
      AcceptKeepsWired(net, ip, port, wires);
      WiresOfConns(net, wires);
      assert Implements(clients[freeHandler], slots[freeHandler], freeHandler, stopped);
      assert [] + clients[freeHandler].outBuffer == clients[freeHandler].outBuffer;
      clients[freeHandler].Connect(socket, freeHandler, ip, port, []);
      net, streams, wires := Accept(net, ip, port), streams + [[]], wires + [[]];
      forall i | 0 <= i < |clients| && i != freeHandler
        ensures Implements(clients[i], net.slots[i], i, stopped)
        ensures OnStream(clients[i], net.slots[i], i, net.conns, streams)
        ensures OnWire(clients[i], net.slots[i], net.sent, wires)
      {
        assert clients[i] !in At(freeHandler);
        assert Implements(clients[i], slots[i], i, stopped) && OnStream(clients[i], slots[i], i, conns, before);
        assert OnWire(clients[i], slots[i], net.sent, put);
      }
    }

    /** disconnectHandler, and the listener's onClientDisconnected. */
    method DisconnectHandler(slot: nat)
      requires Valid() && IsLive(net.slots, slot)
      modifies this`net, At(slot), queue
      ensures Valid() && net == Close(old(net), slot)
      ensures queue.popped == old(queue.popped)
    {
      hide Sends, Receives, Wired, Told;
      CloseKeepsWired(net, slot, wires);
      var client := clients[slot];
      assert Implements(client, net.slots[slot], slot, stopped);
      var clientId := client.clientId;
      client.Reset();
      RequestsOfAppend(net.log, Entry(Disconnected(slot), net.slots[slot].conn));
      var _ := queue.Push(Disconnected(clientId));
      net := Close(net, slot);
    }

    method DisconnectClient(clientId: int)
      requires Valid()
      modifies this`net, At(clientId), queue
      ensures Valid() && net == Session.DisconnectClient(old(net), clientId)
      ensures queue.popped == old(queue.popped)
    {
      if clientId < 0 || clientId >= |clients| {
        return;
      }
      assert Implements(clients[clientId], net.slots[clientId], clientId, stopped);
      if clients[clientId].socket > -1 {
        DisconnectHandler(clientId);
      }
    }

    /** send, of a reply: it is queued for whatever connection has the slot, if any. */
    method SendReply(clientId: int, reply: Reply, room: int)
      requires Valid()
      modifies this`net, this`wires, At(clientId)
      ensures Valid() && net == Send(old(net), clientId, reply)
      ensures IsLive(net.slots, clientId) ==>
        clients[clientId].history.accepted == old(clients[clientId].history.accepted) + [ReplyBytes(reply)]
      ensures IsLive(net.slots, clientId) ==>
        clients[clientId].outBuffer == Queued(old(clients[clientId].outBuffer), ReplyBytes(reply), room)
    {
      hide Implements, OnStream, OnWire, ReplyBytes, Queued, Wired, Told, Frames;
      if clientId < 0 || clientId >= |clients| {
        return;
      }
      var client := clients[clientId];
      ghost var slot, before := net.slots[clientId], wires;
      assert forall i :: 0 <= i < |clients| && i != clientId ==> clients[i] !in At(clientId);
      ReplyOnSlot(client, slot, clientId, stopped, net.conns, streams, net.sent, wires, reply, room);
      if slot.Live? {
        ConnOfSlot(clientId);
        SendKeepsWired(net, clientId, reply, wires, client.history.wire);
        ToldByNext(net.sent, Sent(slot.conn, reply));
        wires := wires[slot.conn := client.history.wire];
        OthersStayOnWire(clientId, slot.conn, net.sent + [Sent(slot.conn, reply)], before);
      }
      net := Send(net, clientId, reply);
    }

    /** addOutMsg on a slot, which its connection, if it has one, is then told. */
    static method ReplyOnSlot(
      client: Client, ghost slot: Slot, ghost index: int, ghost stopped: bool, ghost conns: seq<Conn>,
      ghost streams: seq<seq<byte>>, ghost sent: seq<Sent>, ghost wires: seq<seq<byte>>, reply: Reply, room: int)
      requires Implements(client, slot, index, stopped)
      requires OnStream(client, slot, index, conns, streams) && OnWire(client, slot, sent, wires)
      modifies client`outBuffer, client`history
      ensures Implements(client, slot, index, stopped) && OnStream(client, slot, index, conns, streams)
      ensures !slot.Live? ==> OnWire(client, slot, sent, wires)
      ensures slot.Live? ==>
        && slot.conn < |wires|
        && client.history.accepted == old(client.history.accepted) + [ReplyBytes(reply)]
        && client.history.wire <= Frames(Told(sent, slot.conn) + [ReplyBytes(reply)])
        && OnWire(client, slot, sent + [Sent(slot.conn, reply)], wires[slot.conn := client.history.wire])
        && client.outBuffer == Queued(old(client.outBuffer), ReplyBytes(reply), room)
    {
      hide Sends, Receives, ReplyBytes, Queued, Told, Frames;
      AddReply(client, reply, room);
      if client.Connected() {
        ToldByNext(sent, Sent(slot.conn, reply));
      }
    }

    /** What one slot's connection is told, and what its socket takes, is nothing to the others. */
    lemma OthersStayOnWire(slot: nat, e: nat, sent: seq<Sent>, before: seq<seq<byte>>)
      requires slot < |clients| == |net.slots| && net.slots[slot].Live? && net.slots[slot].conn == e
      requires forall i :: 0 <= i < |clients| ==> OnStream(clients[i], net.slots[i], i, net.conns, streams)
      requires |before| == |wires| && forall f :: 0 <= f < |wires| && f != e ==> wires[f] == before[f]
      requires forall f: nat :: f != e ==> Told(sent, f) == Told(net.sent, f)
      requires forall i :: 0 <= i < |clients| && i != slot ==> OnWire(clients[i], net.slots[i], net.sent, before)
      ensures forall i :: 0 <= i < |clients| && i != slot ==> OnWire(clients[i], net.slots[i], sent, wires)
    {
      hide Told;
      forall i | 0 <= i < |clients| && i != slot
        ensures OnWire(clients[i], net.slots[i], sent, wires)
      {
        assert OnStream(clients[i], net.slots[i], i, net.conns, streams);
        assert OnStream(clients[slot], net.slots[slot], slot, net.conns, streams);
        assert OnWire(clients[i], net.slots[i], net.sent, before);
      }
    }

    /** Nor are the bytes that one slot's connection sends. */
    lemma OthersStayOnStream(slot: nat, e: nat, before: seq<seq<byte>>)
      requires slot < |clients| == |net.slots| && net.slots[slot].Live? && net.slots[slot].conn == e
      requires |before| == |streams| && forall f :: 0 <= f < |streams| && f != e ==> streams[f] == before[f]
      requires e < |net.conns| && net.conns[e].slot == slot
      requires forall i :: 0 <= i < |clients| && i != slot ==>
        OnStream(clients[i], net.slots[i], i, net.conns, before)
      ensures forall i :: 0 <= i < |clients| && i != slot ==>
        OnStream(clients[i], net.slots[i], i, net.conns, streams)
    {
      forall i | 0 <= i < |clients| && i != slot
        ensures OnStream(clients[i], net.slots[i], i, net.conns, streams)
      {
        assert OnStream(clients[i], net.slots[i], i, net.conns, before);
      }
    }

    /** Client::gotMsg and SensorListener::onGotRequest. */
    method OnGotRequest(clientId: nat, msg: seq<byte>, beyond: seq<byte>, room: int)
      requires Valid() && IsLive(net.slots, clientId) && |msg| > 0 && |beyond| >= 12
      modifies this`net, this`wires, At(clientId), queue
      ensures Valid() && net == Receive(old(net), clientId, ParseFrame(msg, beyond))
      ensures queue.popped == old(queue.popped)
      ensures net.slots[clientId].Live? ==>
        clients[clientId].outBuffer == BufferAfter(old(clients[clientId].outBuffer), Some(msg), beyond, room)
    {
      hide Parse32, Parse64, Sends, Receives, ReplyBytes, Queued, Wired, Told;
      assert Implements(clients[clientId], net.slots[clientId], clientId, stopped);
      var kind, ip, port := msg[0], clients[clientId].ip, clients[clientId].port;
      if kind == 109 {
        var memory := msg + beyond;
        var timestamp64 := Parse64(memory, 1);
        var value := Parse32(memory, 9);
        SendReply(clientId, Confirmed(timestamp64), room);
        PushRequest(clientId, Measured(clientId, value, Seconds(timestamp64)));
      } else if kind == 105 {
        PushRequest(clientId, Connected(clientId, ip, port, msg[1..]));
      } else {
        DisconnectClient(clientId);
      }
    }

    /** addSensorRequestToExecute, on behalf of a live connection. */
    method PushRequest(clientId: nat, request: Request)
      requires Valid() && IsLive(net.slots, clientId)
      modifies this`net, queue
      ensures Valid() && net == Push(old(net), clientId, request)
      ensures queue.popped == old(queue.popped)
    {
      hide Wired, Told, Sends, Receives;
      PushKeepsWired(net, clientId, request, wires);
      RequestsOfAppend(net.log, Entry(request, net.slots[clientId].conn));
      var _ := queue.Push(request);
      net := Push(net, clientId, request);
    }

    /** recvData for a ready slot, up to the message that it completes. */
    method Read(slot: nat, available: seq<byte>, limit: nat) returns (turn: Turn)
      requires Valid() && IsLive(net.slots, slot) && !stopped
      modifies this`stopped, this`streams, At(slot)
      ensures Valid() && clients[slot].outBuffer == old(clients[slot].outBuffer)
      ensures turn == TurnOf(old(clients[slot].history), available, limit)
      ensures stopped <==> turn.thrown != None
      ensures turn.thrown != None ==> turn.got == None && turn.taken > 0
      ensures turn.taken == 0 <==> available == [] || limit == 0
      ensures StreamsAfter(old(streams), streams, net.slots[slot].conn, available, turn)
    {
      hide Decode, TurnOf, StreamsAfter, Implements, OnStream, OnWire, Wired;
      ghost var e, before := net.slots[slot].conn, streams;
      ConnOfSlot(slot);
      assert forall i :: 0 <= i < |clients| && i != slot ==> clients[i] !in At(slot);
      turn := ReadSlot(clients[slot], net.slots[slot], slot, net.conns, streams, net.sent, wires, available, limit);
      stopped := turn.thrown != None;
      streams := streams[e := streams[e] + available[..turn.taken]];
      OthersStillImplement(slot);
      OthersStayOnStream(slot, e, before);
    }

    lemma ConnOfSlot(slot: nat)
      requires IsLive(net.slots, slot) && slot < |clients|
      requires OnStream(clients[slot], net.slots[slot], slot, net.conns, streams)
      ensures net.slots[slot].conn < |net.conns| == |streams| && net.conns[net.slots[slot].conn].slot == slot
    {
    }

    lemma OthersStillImplement(slot: nat)
      requires |clients| == |net.slots|
      requires forall i :: 0 <= i < |clients| && i != slot ==> Implements(clients[i], net.slots[i], i, false)
      ensures forall i :: 0 <= i < |clients| && i != slot ==> Implements(clients[i], net.slots[i], i, stopped)
    {
      hide Sends, Receives;
      forall i | 0 <= i < |clients| && i != slot
        ensures Implements(clients[i], net.slots[i], i, stopped)
      {
        assert Implements(clients[i], net.slots[i], i, false);
      }
    }

    /** recvData on a live slot, as a turn that the slot's connection and stream follow. */
    static method ReadSlot(
      client: Client, ghost slot: Slot, ghost index: int, ghost conns: seq<Conn>, ghost streams: seq<seq<byte>>,
      ghost sent: seq<Sent>, ghost wires: seq<seq<byte>>, available: seq<byte>, limit: nat) returns (turn: Turn)
      requires slot.Live? && Implements(client, slot, index, false)
      requires OnStream(client, slot, index, conns, streams) && OnWire(client, slot, sent, wires)
      modifies client`inBuffer, client`remainingIn, client`remainingInLen, client`history
      ensures Implements(client, slot, index, turn.thrown != None)
      ensures turn.taken <= |available| && slot.conn < |streams|
      ensures var streams' := streams[slot.conn := streams[slot.conn] + available[..turn.taken]];
        OnStream(client, slot, index, conns, streams') && StreamsAfter(streams, streams', slot.conn, available, turn)
      ensures OnWire(client, slot, sent, wires)
      ensures turn == TurnOf(old(client.history), available, limit)
      ensures turn.thrown != None ==> turn.got == None && turn.taken > 0
      ensures turn.taken == 0 <==> available == [] || limit == 0
    {
      hide Decode, Sends, Receives, TurnOf, WithMessage, Told;
      turn := RecvTurn(client, available, limit);
    }

    /** One round of tryRecv for a ready slot.  If the read threw, the loop, and the thread, end. */
    method TryRecv(slot: nat, available: seq<byte>, limit: nat, beyond: seq<byte>, room: int)
      returns (turn: Turn)
      requires Valid() && IsLive(net.slots, slot) && |beyond| >= 12 && !stopped
      modifies this`net, this`stopped, this`streams, this`wires, At(slot), queue
      ensures Valid() && queue.popped == old(queue.popped)
      ensures turn == TurnOf(old(clients[slot].history), available, limit)
      ensures stopped <==> turn.thrown != None
      ensures turn.taken == 0 <==> available == [] || limit == 0
      ensures net == if turn.got != None then Receive(old(net), slot, ParseFrame(turn.got.value, beyond))
        else if turn.taken == 0 then Close(old(net), slot) else old(net)
      ensures StreamsAfter(old(streams), streams, old(net.slots[slot].conn), available, turn)
      ensures net.slots[slot].Live? ==>
        clients[slot].outBuffer == BufferAfter(old(clients[slot].outBuffer), turn.got, beyond, room)
    {
      hide TurnOf, BufferAfter, ParseFrame, Receive, Implements, OnStream, OnWire, Wired, StreamsAfter;
      NothingGot(clients[slot].outBuffer, beyond, room);
      turn := Read(slot, available, limit);
      if turn.got != None {
        OnGotRequest(slot, turn.got.value, beyond, room);
      } else if turn.thrown == None && turn.taken == 0 {
        DisconnectHandler(slot);
      }
    }

    /** One round of trySend for a ready slot. */
    method TrySend(slot: nat, room: int)
      requires Valid() && IsLive(net.slots, slot)
      modifies this`net, this`wires, At(slot), queue
      ensures Valid() && queue.popped == old(queue.popped)
      ensures net == if room <= 0 || old(clients[slot].outBuffer) == [] then Close(old(net), slot) else old(net)
    {
      hide Implements, OnStream, OnWire, Wired, Sends, Receives;
      var sent := Write(slot, room);
      if sent <= 0 {
        DisconnectHandler(slot);
      }
    }

    /** sendData for a ready slot. */
    method Write(slot: nat, room: int) returns (sent: int)
      requires Valid() && IsLive(net.slots, slot)
      modifies this`wires, At(slot)
      ensures Valid() && (sent <= 0 <==> room <= 0 || old(clients[slot].outBuffer) == [])
    {
      hide Sends, Receives, Wired, Told, Frames;
      var client := clients[slot];
      ghost var e, before := net.slots[slot].conn, wires;
      assert Implements(client, net.slots[slot], slot, stopped);
      assert OnStream(client, net.slots[slot], slot, net.conns, streams);
      assert OnWire(client, net.slots[slot], net.sent, wires);
      sent := WriteSome(client, room);
      WriteKeepsWired(net, wires, e, client.history.wire);
      wires := wires[e := client.history.wire];
      OthersStayOnWire(slot, e, net.sent, before);
    }
  }
}
