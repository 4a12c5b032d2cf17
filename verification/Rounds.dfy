/** What one round of the handling loop amounts to, as actions of the session state machine. */
module Rounds {
  import opened Wire
  import opened Framing
  import opened Transport
  import opened Session
  import opened SessionInvariants
  import opened SensorProtocol
  import opened Traces
  import Handler

  /** A connection at the listening socket, and data at a slot's socket. */
  datatype Arrival = Arrival(socket: nat, ip: Text, port: int32)
  datatype Incoming = Incoming(available: seq<byte>, limit: nat, beyond: seq<byte>, room: int) {
    predicate Valid() {
      |beyond| >= 12
    }
  }

  function Acceptance(slots: seq<Slot>, arrival: Option<Arrival>): seq<Action> {
    [ScanSlots] + if arrival != None && FirstFree(slots, 0) >= 0
      then [AcceptConnection(arrival.value.ip, arrival.value.port)] else []
  }

  function Reception(turn: Handler.Turn, slot: nat, beyond: seq<byte>): seq<Action>
    requires |beyond| >= 12 && (turn.got != None ==> |turn.got.value| > 0)
  {
    if turn.got != None then [ReceiveFrame(slot, ParseFrame(turn.got.value, beyond))]
    else if turn.taken == 0 then [PeerCloses(slot)]
    else []
  }

  /** Among the first n slots, every live and readable one has its turn, in order, until a read
      throws. */
  ghost function Receptions(histories: seq<History>, slots: seq<Slot>, readable: map<nat, Incoming>, n: nat)
    : (seq<Action>, Option<int32>)
    requires n <= |histories| && n <= |slots|
    requires forall slot <- readable :: readable[slot].Valid()
  {
    if n == 0 then ([], None)
    else
      var (actions, thrown) := Receptions(histories, slots, readable, n - 1);
      if thrown != None || n - 1 !in readable || slots[n - 1].Free? then
        (actions, thrown)
      else
        var data := readable[n - 1];
        var turn := Handler.TurnOf(histories[n - 1], data.available, data.limit);
        (actions + Reception(turn, n - 1, data.beyond), turn.thrown)
  }

  lemma {:induction false} ThrownEndsReception(
      histories: seq<History>, slots: seq<Slot>, readable: map<nat, Incoming>, k: nat, n: nat)
    requires k <= n <= |histories| && n <= |slots|
    requires forall slot <- readable :: readable[slot].Valid()
    requires Receptions(histories, slots, readable, k).1 != None
    ensures Receptions(histories, slots, readable, n) == Receptions(histories, slots, readable, k)
  {
    if k < n {
      ThrownEndsReception(histories, slots, readable, k, n - 1);
    }
  }

  /** Those of these actions that are about slot c. */
  function OfSlot(actions: seq<Action>, c: nat): seq<Action> {
    if actions == [] then []
    else
      var n := |actions| - 1;
      var a := actions[n];
      OfSlot(actions[..n], c) + if (a.ReceiveFrame? || a.PeerCloses?) && a.clientId == c then [a] else []
  }

  lemma OfSlotOfReception(actions: seq<Action>, turn: Handler.Turn, slot: nat, beyond: seq<byte>, c: nat)
    requires |beyond| >= 12 && (turn.got != None ==> |turn.got.value| > 0)
    ensures OfSlot(actions + Reception(turn, slot, beyond), c) ==
      OfSlot(actions, c) + if c == slot then Reception(turn, slot, beyond) else []
  {
    hide ParseFrame;
    var more := Reception(turn, slot, beyond);
    if more == [] {
      assert actions + more == actions;
    } else {
      assert (actions + more)[..|actions|] == actions;
    }
    assert OfSlot(actions, c) + [] == OfSlot(actions, c);
  }

  /** If no read throws, every live and readable slot has its one turn, and no other slot has any. */
  lemma {:induction false} EveryReadableSlotHasItsTurn(
      histories: seq<History>, slots: seq<Slot>, readable: map<nat, Incoming>, n: nat, c: nat)
    requires n <= |histories| && n <= |slots|
    requires forall slot <- readable :: readable[slot].Valid()
    requires Receptions(histories, slots, readable, n).1 == None
    ensures OfSlot(Receptions(histories, slots, readable, n).0, c) ==
      if c < n && c in readable && slots[c].Live? then
        Reception(Handler.TurnOf(histories[c], readable[c].available, readable[c].limit), c, readable[c].beyond)
      else []
  {
    hide Handler.TurnOf, Reception, OfSlot;
    if n == 0 {
      NothingOfSlot(c);
    } else {
      ReceptionsGoOn(histories, slots, readable, n);
      EveryReadableSlotHasItsTurn(histories, slots, readable, n - 1, c);
      if n - 1 in readable && slots[n - 1].Live? {
        var data := readable[n - 1];
        var turn := Handler.TurnOf(histories[n - 1], data.available, data.limit);
        OfSlotOfReception(Receptions(histories, slots, readable, n - 1).0, turn, n - 1, data.beyond, c);
      }
    }
  }

  lemma NothingOfSlot(c: nat)
    ensures OfSlot([], c) == []
  {
  }

  lemma ReceptionsGoOn(histories: seq<History>, slots: seq<Slot>, readable: map<nat, Incoming>, n: nat)
    requires 0 < n <= |histories| && n <= |slots|
    requires forall slot <- readable :: readable[slot].Valid()
    requires Receptions(histories, slots, readable, n).1 == None
    ensures Receptions(histories, slots, readable, n - 1).1 == None
  {
  }

  /** A readable slot whose peer is gone is closed. */
  lemma GonePeerIsClosed(h: History, limit: nat, slot: nat, beyond: seq<byte>)
    requires Decode(h.bytes).msgs == h.delivered && |beyond| >= 12
    ensures Reception(Handler.TurnOf(h, [], limit), slot, beyond) == [PeerCloses(slot)]
  {
    hide Decode;
    assert h.bytes + [] == h.bytes;
    assert Taken(h, [], limit) == 0;
  }

  /** A round begins with the choice of a slot; it accepts the connection that is there exactly if some
      slot is free, and no other. */
  lemma AcceptedIff(slots: seq<Slot>, arrival: Option<Arrival>, ip: Text, port: int32)
    ensures Acceptance(slots, arrival)[0] == ScanSlots && |Acceptance(slots, arrival)| <= 2
    ensures AcceptConnection(ip, port) in Acceptance(slots, arrival) <==>
      && arrival != None && arrival.value.ip == ip && arrival.value.port == port
      && exists c :: 0 <= c < |slots| && slots[c].Free?
  {
    var f := FirstFree(slots, 0);
    if f >= 0 {
      assert slots[f].Free?;
    }
  }

  /** These actions are one undisturbed round from this state: an acceptance, the readable slots' turns,
      and, unless a read threw, the closings of the writable slots that send nothing. */
  ghost predicate IsRound(
      st: State, histories: seq<History>, buffers: seq<seq<byte>>, arrival: Option<Arrival>,
      readable: map<nat, Incoming>, writable: map<nat, int>, actions: seq<Action>)
    requires forall slot <- readable :: readable[slot].Valid()
  {
    var accepted := Acceptance(st.slots, arrival);
    var slots := Run(st, accepted).slots;
    && |slots| == |histories| == |buffers|
    && var (received, thrown) := Receptions(histories, slots, readable, |slots|);
      var slots' := Run(Run(st, accepted), received).slots;
      && |slots'| == |slots|
      && actions == accepted + received +
           if thrown != None then []
           else Closings(Replied(histories, buffers, slots, readable), slots', writable, |slots'|)
  }

  lemma PartsMakeRound(
      st: State, histories: seq<History>, buffers: seq<seq<byte>>, arrival: Option<Arrival>,
      readable: map<nat, Incoming>, writable: map<nat, int>,
      received: seq<Action>, thrown: Option<int32>, closed: seq<Action>)
    requires forall slot <- readable :: readable[slot].Valid()
    requires var accepted := Acceptance(st.slots, arrival); var slots := Run(st, accepted).slots;
      && |slots| == |histories| == |buffers|
      && (received, thrown) == Receptions(histories, slots, readable, |slots|)
      && var slots' := Run(Run(st, accepted), received).slots;
        && |slots'| == |slots|
        && closed == if thrown != None then []
             else Closings(Replied(histories, buffers, slots, readable), slots', writable, |slots'|)
    ensures IsRound(st, histories, buffers, arrival, readable, writable,
                    Acceptance(st.slots, arrival) + received + closed)
  {
    hide Acceptance, Receptions, Closings, Replied, Run;
  }

  /** The send buffers after these turns: measurements have been confirmed. */
  ghost function Replied(histories: seq<History>, buffers: seq<seq<byte>>, slots: seq<Slot>,
                         readable: map<nat, Incoming>)
    : (r: seq<seq<byte>>)
    requires |histories| == |buffers| == |slots|
    requires forall slot <- readable :: readable[slot].Valid()
    ensures |r| == |buffers|
  {
    seq(|buffers|, c requires 0 <= c < |buffers| => RepliedAt(histories, buffers, slots, readable, c))
  }

  ghost function RepliedAt(histories: seq<History>, buffers: seq<seq<byte>>, slots: seq<Slot>,
                           readable: map<nat, Incoming>, c: nat): seq<byte>
    requires c < |histories| == |buffers| == |slots|
    requires forall slot <- readable :: readable[slot].Valid()
  {
    if c in readable && slots[c].Live? then
      var data := readable[c];
      assert data.Valid();
      var got := Handler.TurnOf(histories[c], data.available, data.limit).got;
      Handler.BufferAfter(buffers[c], got, data.beyond, data.room)
    else
      buffers[c]
  }

  /** Among the first n slots, the live and writable ones that send nothing are closed: the
      socket failed or took nothing, or there was nothing to send. */
  function Closings(buffers: seq<seq<byte>>, slots: seq<Slot>, writable: map<nat, int>, n: nat): seq<Action>
    requires n <= |buffers| && n <= |slots|
  {
    if n == 0 then []
    else
      Closings(buffers, slots, writable, n - 1)
      + if n - 1 in writable && slots[n - 1].Live? && (writable[n - 1] <= 0 || buffers[n - 1] == [])
        then [PeerCloses(n - 1)] else []
  }

  lemma {:induction false} ClosedIff(buffers: seq<seq<byte>>, slots: seq<Slot>, writable: map<nat, int>, n: nat, c: int)
    requires n <= |buffers| && n <= |slots|
    ensures PeerCloses(c) in Closings(buffers, slots, writable, n) <==>
      0 <= c < n && c in writable && slots[c].Live? && (writable[c] <= 0 || buffers[c] == [])
    ensures forall a <- Closings(buffers, slots, writable, n) :: a.PeerCloses?
  {
    if n > 0 {
      ClosedIff(buffers, slots, writable, n - 1, c);
    }
  }

  lemma {:induction false} ClosingsOfSame(
      buffers: seq<seq<byte>>, buffers': seq<seq<byte>>, slots: seq<Slot>, writable: map<nat, int>, n: nat)
    requires n <= |buffers| == |buffers'| == |slots|
    requires forall c :: 0 <= c < n && slots[c].Live? ==> buffers'[c] == buffers[c]
    ensures Closings(buffers', slots, writable, n) == Closings(buffers, slots, writable, n)
  {
    if n > 0 {
      ClosingsOfSame(buffers, buffers', slots, writable, n - 1);
    }
  }

  /** A turn leaves the log in step with the bytes taken. */
  lemma TurnKeepsTraced(st: State, turn: Handler.Turn, slot: nat, beyond: seq<byte>, available: seq<byte>,
                        streams: seq<seq<byte>>, streams': seq<seq<byte>>)
    requires Traced(st, streams) && Inv(st) && IsLive(st.slots, slot)
    requires |beyond| >= 12 && (turn.got != None ==> |turn.got.value| > 0)
    requires Handler.StreamsAfter(streams, streams', st.slots[slot].conn, available, turn)
    ensures Traced(Run(st, Reception(turn, slot, beyond)), streams')
  {
    hide Inv, Traced, Decode, ParseFrame, Receive, DisconnectClient;
    var actions, e := Reception(turn, slot, beyond), st.slots[slot].conn;
    InvHasConnInv(st);
    if actions != [] {
      RunOfOneMore(st, [], actions[0]);
      assert [] + [actions[0]] == actions;
    }
    if turn.got != None {
      ReceiveKeepsTraced(st, slot, turn.got.value, beyond, streams, streams'[e]);
    } else {
      assert Decode(streams[e]).msgs + [] == Decode(streams[e]).msgs;
      BytesKeepTraced(st, slot, streams, streams'[e]);
      CloseKeepsTraced(st, slot, streams');
    }
  }

  lemma InvHasConnInv(st: State)
    requires Inv(st)
    ensures ConnInv(st)
  {
  }

  /** Nothing happened to the slots but one. */
  predicate OthersKept(slots: seq<Slot>, slots': seq<Slot>, c: int) {
    |slots'| == |slots| && forall k :: 0 <= k < |slots| && k != c ==> slots'[k] == slots[k]
  }

  lemma OthersKeptByNothing(slots: seq<Slot>, c: int)
    ensures OthersKept(slots, slots, c)
  {
  }

  lemma TurnLeavesOtherSlots(st: State, a: Action)
    requires a.ReceiveFrame? || a.PeerCloses?
    ensures OthersKept(st.slots, Step(st, a).slots, a.clientId)
  {
  }
}
