/** Whom the responses of an executor reach: administrators and monitoring clients have slots too,
    a response copies its request's client id, and that id names whatever connection has the slot
    when the response is handed over. */
module Recipients {
  import opened Wire
  import opened Pipeline

  /** A connection's slot, and whether it is open still. */
  datatype Peer = Peer(slot: nat, open: bool)

  /** A response in a connection's output buffer. */
  datatype Delivery = Delivery(to: nat, key: Key)

  /** Connections are numbered in the order of acceptance. */
  datatype State = State(slots: seq<Option<nat>>, peers: seq<Peer>, p: Pipeline, delivered: seq<Delivery>)

  /** `Work` is a step of the executor or of the sender. */
  datatype Turn =
    | Arrive(slot: nat)
    | Leave(slot: nat)
    | Ask(slot: nat, commandType: int32, succeeds: bool)
    | Work(a: Action)

  predicate IsLive(slots: seq<Option<nat>>, c: int) {
    0 <= c < |slots| && slots[c] != None
  }

  /** ClientsHandler::send: to whoever has the slot. */
  function Send(slots: seq<Option<nat>>, key: Key): seq<Delivery> {
    if IsLive(slots, key.clientId) then [Delivery(slots[key.clientId].value, key)] else []
  }

  function TakeTurn(e: Executor, st: State, turn: Turn): State {
    match turn
    case Arrive(c) =>
      if c < |st.slots| && st.slots[c] == None then
        st.(slots := st.slots[c := Some(|st.peers|)], peers := st.peers + [Peer(c, true)])
      else st
    case Leave(c) =>
      if !IsLive(st.slots, c) then st
      else
        var f := st.slots[c].value;
        st.(slots := st.slots[c := None],
            peers := if f < |st.peers| then st.peers[f := st.peers[f].(open := false)] else st.peers)
    case Ask(c, commandType, succeeds) =>
      if IsLive(st.slots, c) then
        st.(p := Step(e, st.p, Submit(Key(c, commandType, succeeds, st.slots[c].value))))
      else st
    case Work(a) =>
      if a.Submit? then st
      else
        var p' := Step(e, st.p, a);
        if a.HandOver? && st.p.sending != None then
          st.(p := p', delivered := st.delivered + Send(st.slots, st.p.sending.value))
        else st.(p := p')
  }

  function TakeTurns(e: Executor, st: State, turns: seq<Turn>): State
    decreases |turns|
  {
    if turns == [] then st else TakeTurns(e, TakeTurn(e, st, turns[0]), turns[1..])
  }

  function Opening(slots: nat): State {
    State(seq(slots, _ => None), [], START, [])
  }

  // ---- slots ----

  ghost predicate SlotsInv(slots: seq<Option<nat>>, peers: seq<Peer>) {
    && (forall c :: 0 <= c < |slots| && slots[c] != None ==>
          slots[c].value < |peers| && peers[slots[c].value] == Peer(c, true))
    && (forall f :: 0 <= f < |peers| ==> peers[f].slot < |slots|)
    && (forall f :: 0 <= f < |peers| && peers[f].open ==> slots[peers[f].slot] == Some(f))
    && (forall f, g :: 0 <= f < g < |peers| && peers[f].slot == peers[g].slot ==> !peers[f].open)
  }

  /** The key names a connection and its slot. */
  predicate Own(peers: seq<Peer>, key: Key) {
    key.conn < |peers| && peers[key.conn].slot == key.clientId
  }

  function Keys(p: Pipeline): seq<Key> {
    p.handed + InTransit(p)
  }

  ghost predicate KeysInv(st: State) {
    forall key <- Keys(st.p) :: Own(st.peers, key)
  }

  // ---- what each connection receives of its own ----

  function OwnKeys(keys: seq<Key>, f: nat): seq<Key> {
    if keys == [] then []
    else
      var n := |keys| - 1;
      OwnKeys(keys[..n], f) + if keys[n].conn == f then [keys[n]] else []
  }

  /** The responses to its own requests that connection f received. */
  function Received(delivered: seq<Delivery>, f: nat): seq<Key> {
    if delivered == [] then []
    else
      var n := |delivered| - 1;
      Received(delivered[..n], f) + if delivered[n].to == f == delivered[n].key.conn then [delivered[n].key] else []
  }

  lemma OwnKeysOfNext(keys: seq<Key>, next: Key, f: nat)
    ensures OwnKeys(keys + [next], f) == OwnKeys(keys, f) + if next.conn == f then [next] else []
  {
    assert (keys + [next])[..|keys|] == keys;
  }

  lemma ReceivedOfNext(delivered: seq<Delivery>, next: Delivery, f: nat)
    ensures Received(delivered + [next], f) ==
      Received(delivered, f) + if next.to == f == next.key.conn then [next.key] else []
  {
    assert (delivered + [next])[..|delivered|] == delivered;
  }

  lemma {:induction false} OwnKeysOfPrefix(keys: seq<Key>, n: nat, f: nat)
    requires n <= |keys|
    ensures OwnKeys(keys[..n], f) <= OwnKeys(keys, f)
  {
    if n < |keys| {
      var m := |keys| - 1;
      OwnKeysOfPrefix(keys[..m], n, f);
      assert keys[..m][..n] == keys[..n];
    } else {
      assert keys[..n] == keys;
    }
  }

  ghost predicate ReceivedInv(st: State) {
    && (forall f :: 0 <= f < |st.peers| ==> Received(st.delivered, f) <= OwnKeys(st.p.handed, f))
    && (forall f :: 0 <= f < |st.peers| && st.peers[f].open ==> Received(st.delivered, f) == OwnKeys(st.p.handed, f))
  }

  // ---- whom a delivery reaches ----

  /** Its asker, or, once that has left, a later connection on the asker's slot. */
  predicate Reaches(peers: seq<Peer>, d: Delivery) {
    && Own(peers, d.key)
    && d.key.conn <= d.to < |peers| && peers[d.to].slot == d.key.clientId
    && (d.to != d.key.conn ==> !peers[d.key.conn].open)
  }

  ghost predicate DeliveredInv(st: State) {
    forall d <- st.delivered :: Reaches(st.peers, d)
  }

  ghost predicate Addressed(st: State) {
    SlotsInv(st.slots, st.peers) && KeysInv(st) && ReceivedInv(st) && DeliveredInv(st)
  }

  lemma {:induction false} NothingOfNobody(keys: seq<Key>, f: nat)
    requires forall key <- keys :: key.conn != f
    ensures OwnKeys(keys, f) == []
  {
    if keys != [] {
      assert forall key <- keys[..|keys| - 1] :: key in keys;
      NothingOfNobody(keys[..|keys| - 1], f);
    }
  }

  lemma {:induction false} NobodyReceives(delivered: seq<Delivery>, f: nat)
    requires forall d <- delivered :: d.to != f
    ensures Received(delivered, f) == []
  {
    if delivered != [] {
      assert forall d <- delivered[..|delivered| - 1] :: d in delivered;
      NobodyReceives(delivered[..|delivered| - 1], f);
    }
  }

  // ---- turns ----

  lemma ArrivalKeepsAddressed(e: Executor, st: State, c: nat)
    requires Addressed(st) && c < |st.slots| && st.slots[c] == None
    ensures Addressed(TakeTurn(e, st, Arrive(c)))
  {
    hide Keys;
    var st', n := TakeTurn(e, st, Arrive(c)), |st.peers|;
    assert forall f :: 0 <= f < n ==> st'.peers[f] == st.peers[f];
    forall f | 0 <= f <= n && (f < n ==> st.peers[f].open)
      ensures Received(st.delivered, f) == OwnKeys(st.p.handed, f)
    {
      if f == n {
        NobodyReceives(st.delivered, n);
        assert forall key <- st.p.handed :: Own(st.peers, key) by {
          HandedIsThere(st.p);
        }
        NothingOfNobody(st.p.handed, n);
      }
    }
    assert forall d <- st.delivered :: Reaches(st.peers, d);
  }

  lemma HandedIsThere(p: Pipeline)
    ensures forall key <- p.handed :: key in Keys(p)
  {
  }

  lemma LeavingKeepsAddressed(e: Executor, st: State, c: nat)
    requires Addressed(st) && IsLive(st.slots, c)
    ensures Addressed(TakeTurn(e, st, Leave(c)))
  {
    hide Keys;
    var st', f := TakeTurn(e, st, Leave(c)), st.slots[c].value;
    assert forall g :: 0 <= g < |st.peers| ==>
      st'.peers[g].slot == st.peers[g].slot && (st'.peers[g].open <==> g != f && st.peers[g].open);
    assert forall d <- st.delivered :: Reaches(st.peers, d);
  }

  lemma AskingKeepsAddressed(e: Executor, st: State, c: nat, commandType: int32, succeeds: bool)
    requires Addressed(st) && IsLive(st.slots, c)
    ensures Addressed(TakeTurn(e, st, Ask(c, commandType, succeeds)))
  {
    hide Reaches;
    var key := Key(c, commandType, succeeds, st.slots[c].value);
    var p' := Step(e, st.p, Submit(key));
    assert Keys(p') == Keys(st.p) + [key];
  }

  lemma WorkMovesKeys(e: Executor, p: Pipeline, a: Action)
    requires !a.Submit?
    ensures var p' := Step(e, p, a);
      && (forall key <- Keys(p') :: key in Keys(p))
      && p'.handed == p.handed +
           if a.HandOver? && p.sending != None && p.sending.value.clientId != -1 then [p.sending.value] else []
    ensures p.sending != None ==> p.sending.value in Keys(p)
  {
    assert p.handed + [] == p.handed;
  }

  /** The response that is handed over goes to whoever has the slot. */
  lemma DeliveryKeepsAddressed(st: State, key: Key)
    requires Addressed(st) && Own(st.peers, key)
    ensures var delivered, handed := st.delivered + Send(st.slots, key), st.p.handed + [key];
      && (forall d <- delivered :: Reaches(st.peers, d))
      && (forall f :: 0 <= f < |st.peers| ==> Received(delivered, f) <= OwnKeys(handed, f))
      && (forall f :: 0 <= f < |st.peers| && st.peers[f].open ==> Received(delivered, f) == OwnKeys(handed, f))
  {
    hide Received, OwnKeys;
    var delivered, handed := st.delivered + Send(st.slots, key), st.p.handed + [key];
    WhoHasTheSlot(st, key);
    forall f | 0 <= f < |st.peers|
      ensures Received(delivered, f) <= OwnKeys(handed, f)
      ensures st.peers[f].open ==> Received(delivered, f) == OwnKeys(handed, f)
    {
      OwnKeysOfNext(st.p.handed, key, f);
      if IsLive(st.slots, key.clientId) {
        ReceivedOfNext(st.delivered, Delivery(st.slots[key.clientId].value, key), f);
      } else {
        assert delivered == st.delivered;
      }
    }
  }

  /** The response reaches nobody, or a later connection on its asker's slot. */
  predicate LaterOrNobody(peers: seq<Peer>, key: Key, deliveries: seq<Delivery>) {
    || deliveries == []
    || (|deliveries| == 1 && deliveries[0].key == key
        && key.conn < deliveries[0].to < |peers| && peers[deliveries[0].to].slot == key.clientId)
  }

  /** The asker has the slot exactly as long as it is open; a later connection may have it afterwards. */
  lemma WhoHasTheSlot(st: State, key: Key)
    requires SlotsInv(st.slots, st.peers) && Own(st.peers, key)
    ensures Send(st.slots, key) == [Delivery(key.conn, key)] <==> st.peers[key.conn].open
    ensures !st.peers[key.conn].open ==> LaterOrNobody(st.peers, key, Send(st.slots, key))
    ensures forall d <- Send(st.slots, key) :: Reaches(st.peers, d)
  {
    if IsLive(st.slots, key.clientId) {
      var f := st.slots[key.clientId].value;
      assert Send(st.slots, key) == [Delivery(f, key)];
      assert [Delivery(f, key)][0] == Delivery(f, key);
    }
  }

  lemma WorkKeepsAddressed(e: Executor, st: State, a: Action)
    requires Addressed(st) && !a.Submit?
    ensures Addressed(TakeTurn(e, st, Work(a)))
  {
    hide Step, Keys, Reaches, Received, OwnKeys, SlotsInv, Send;
    WorkMovesKeys(e, st.p, a);
    assert st.p.handed + [] == st.p.handed;
    if a.HandOver? && st.p.sending != None {
      DeliveryKeepsAddressed(st, st.p.sending.value);
    }
  }

  lemma TurnKeepsAddressed(e: Executor, st: State, turn: Turn)
    requires Inv(e, st.p) && Addressed(st)
    ensures Inv(e, TakeTurn(e, st, turn).p) && Addressed(TakeTurn(e, st, turn))
  {
    hide Inv, Addressed, Step;
    match turn
    case Arrive(c) =>
      if c < |st.slots| && st.slots[c] == None {
        ArrivalKeepsAddressed(e, st, c);
      }
    case Leave(c) =>
      if IsLive(st.slots, c) {
        LeavingKeepsAddressed(e, st, c);
      }
    case Ask(c, commandType, succeeds) =>
      if IsLive(st.slots, c) {
        AskingKeepsAddressed(e, st, c, commandType, succeeds);
        StepKeepsInv(e, st.p, Submit(Key(c, commandType, succeeds, st.slots[c].value)));
      }
    case Work(a) =>
      if !a.Submit? {
        WorkKeepsAddressed(e, st, a);
        StepKeepsInv(e, st.p, a);
      }
  }

  lemma {:induction false} TurnsKeepAddressed(e: Executor, st: State, turns: seq<Turn>)
    requires Inv(e, st.p) && Addressed(st)
    ensures Inv(e, TakeTurns(e, st, turns).p) && Addressed(TakeTurns(e, st, turns))
    decreases |turns|
  {
    if turns != [] {
      hide Inv, Addressed, TakeTurn;
      TurnKeepsAddressed(e, st, turns[0]);
      TurnsKeepAddressed(e, TakeTurn(e, st, turns[0]), turns[1..]);
    }
  }

  // ---- runs ----

  /** In every run, with the sender about to hand over a response: it reaches its asker exactly if
      the asker is still open, and otherwise a connection accepted later on the slot, or nobody. */
  lemma ResponseReachesItsAskerIff(e: Executor, slots: nat, turns: seq<Turn>)
    requires TakeTurns(e, Opening(slots), turns).p.sending != None
    ensures var st := TakeTurns(e, Opening(slots), turns); var key := st.p.sending.value;
      var delivered := TakeTurn(e, st, Work(HandOver)).delivered;
      && Own(st.peers, key)
      && (delivered == st.delivered + [Delivery(key.conn, key)] <==> st.peers[key.conn].open)
      && st.delivered <= delivered
      && (!st.peers[key.conn].open ==> LaterOrNobody(st.peers, key, delivered[|st.delivered|..]))
  {
    hide TakeTurns, Inv, ReceivedInv, DeliveredInv, Send, Step;
    var st := TakeTurns(e, Opening(slots), turns);
    OpeningIsAddressed(e, slots);
    TurnsKeepAddressed(e, Opening(slots), turns);
    var key := st.p.sending.value;
    WorkMovesKeys(e, st.p, HandOver);
    WhoHasTheSlot(st, key);
    var delivered := TakeTurn(e, st, Work(HandOver)).delivered;
    assert delivered[|st.delivered|..] == Send(st.slots, key);
    assert (st.delivered + [Delivery(key.conn, key)])[|st.delivered|..] == [Delivery(key.conn, key)];
  }

  /** In every run: no response goes to another slot, or to a connection accepted before its asker. */
  lemma DeliveriesReachNobodyEarlier(e: Executor, slots: nat, turns: seq<Turn>)
    ensures var st := TakeTurns(e, Opening(slots), turns);
      forall d <- st.delivered :: Reaches(st.peers, d)
  {
    hide TakeTurns;
    OpeningIsAddressed(e, slots);
    TurnsKeepAddressed(e, Opening(slots), turns);
  }

  /** In every run: of the responses to its own requests a connection has received the first ones, in
      order and once each; and all that are due, once the pipeline is empty, if it has stayed open. */
  lemma ReceivesItsOwn(e: Executor, slots: nat, turns: seq<Turn>, f: nat)
    requires f < |TakeTurns(e, Opening(slots), turns).peers|
    ensures var st := TakeTurns(e, Opening(slots), turns);
      && Received(st.delivered, f) <= OwnKeys(Due(e, st.p.submitted), f)
      && (st.peers[f].open && InTransit(st.p) == [] ==>
            Received(st.delivered, f) == OwnKeys(Due(e, st.p.submitted), f))
  {
    hide TakeTurns, Received, OwnKeys;
    OpeningIsAddressed(e, slots);
    TurnsKeepAddressed(e, Opening(slots), turns);
    var p := TakeTurns(e, Opening(slots), turns).p;
    assert p.handed == Due(e, p.submitted)[..|p.handed|] && p.handed + [] == p.handed;
    OwnKeysOfPrefix(Due(e, p.submitted), |p.handed|, f);
  }

  lemma OpeningIsAddressed(e: Executor, slots: nat)
    ensures Inv(e, Opening(slots).p) && Addressed(Opening(slots))
  {
  }

  // ---- a response that reaches another administrator ----

  const GENERATE_TOKEN: int32 := 4

  lemma {:induction false} TurnsOfTurns(e: Executor, st: State, turns: seq<Turn>, more: seq<Turn>)
    ensures TakeTurns(e, st, turns + more) == TakeTurns(e, TakeTurns(e, st, turns), more)
    decreases |turns|
  {
    hide TakeTurn;
    if turns == [] {
      assert turns + more == more;
    } else {
      assert (turns + more)[1..] == turns[1..] + more;
      TurnsOfTurns(e, TakeTurn(e, st, turns[0]), turns[1..], more);
    }
  }

  lemma ThreeTurns(e: Executor, st: State, a: Turn, b: Turn, c: Turn)
    ensures TakeTurns(e, st, [a, b, c]) == TakeTurn(e, TakeTurn(e, TakeTurn(e, st, a), b), c)
  {
    hide TakeTurn;
    assert [a] + [b] == [a, b] && [a, b] + [c] == [a, b, c];
    TurnsOfTurns(e, st, [a], [b]);
    TurnsOfTurns(e, st, [a, b], [c]);
    OneTurn(e, st, a);
    OneTurn(e, TakeTurn(e, st, a), b);
    OneTurn(e, TakeTurn(e, TakeTurn(e, st, a), b), c);
  }

  lemma OneTurn(e: Executor, st: State, turn: Turn)
    ensures TakeTurns(e, st, [turn]) == TakeTurn(e, st, turn)
  {
    hide TakeTurn;
    assert [turn][1..] == [];
  }

  const ASKS_AND_LEAVES := [Arrive(0), Ask(0, GENERATE_TOKEN, true), Leave(0)]
  const IS_REPLACED := [Arrive(0), Work(PopRequest), Work(PushResponse)]

  /** Connection 0 asks for a token and leaves, connection 1 gets its slot, and the token is sent to
      connection 1, which did not ask for it. */
  lemma TokenReachesTheNextAdministrator()
    ensures var st := TakeTurns(Administrator, Opening(1), ASKS_AND_LEAVES + IS_REPLACED);
      var st' := TakeTurn(Administrator, TakeTurn(Administrator, st, Work(PopResponse)), Work(HandOver));
      && st'.peers == [Peer(0, false), Peer(0, true)]
      && st'.delivered == [Delivery(1, Key(0, GENERATE_TOKEN, true, 0))]
  {
    hide TakeTurns;
    var e, token := Administrator, Key(0, GENERATE_TOKEN, true, 0);
    var asked := TakeTurns(e, Opening(1), ASKS_AND_LEAVES);
    ThreeTurns(e, Opening(1), Arrive(0), Ask(0, GENERATE_TOKEN, true), Leave(0));
    assert asked == State([None], [Peer(0, false)], Pipeline([token], [token], None, [], None, []), []);
    TurnsOfTurns(e, Opening(1), ASKS_AND_LEAVES, IS_REPLACED);
    ThreeTurns(e, asked, Arrive(0), Work(PopRequest), Work(PushResponse));
    assert TakeTurns(e, asked, IS_REPLACED) ==
      State([Some(1)], [Peer(0, false), Peer(0, true)], Pipeline([token], [], None, [token], None, []), []);
  }
}
