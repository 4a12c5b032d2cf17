/** An executor thread between a request queue and a response queue, and a sender thread behind
    the response queue, as the server has for administrators and for monitoring clients. */
module Pipeline {
  import opened Wire

  /** What a response copies from its request, and whether executing the request succeeds: if a
      database call throws, there is no response.  `conn` is the connection that asked; the source
      keeps only its client id. */
  datatype Key = Key(clientId: int, commandType: int32, succeeds: bool, conn: nat)

  /** `executing` and `sending` hold what a thread has popped and not yet passed on. */
  datatype Pipeline = Pipeline(
    submitted: seq<Key>,
    requests: seq<Key>,
    executing: Option<Key>,
    responses: seq<Key>,
    sending: Option<Key>,
    handed: seq<Key>)

  datatype Action = Submit(key: Key) | PopRequest | PushResponse | PopResponse | HandOver

  /** Which executor it is: the administrator's answers every request, the monitoring client's
      only the two commands that it knows. */
  datatype Executor = Administrator | Monitoring {
    predicate Answers(key: Key) {
      key.succeeds && (Administrator? || key.commandType == 0 || key.commandType == 1)
    }
  }

  function Held(o: Option<Key>): seq<Key> {
    if o == None then [] else [o.value]
  }

  function Step(e: Executor, p: Pipeline, a: Action): Pipeline {
    match a
    case Submit(key) =>
      p.(submitted := p.submitted + [key], requests := p.requests + [key])
    case PopRequest =>
      if p.executing == None && p.requests != [] then
        p.(executing := Some(p.requests[0]), requests := p.requests[1..])
      else p
    case PushResponse =>
      if p.executing == None then p
      else if e.Answers(p.executing.value) then
        p.(executing := None, responses := p.responses + [p.executing.value])
      else p.(executing := None)
    case PopResponse =>
      if p.sending == None && p.responses != [] then
        p.(sending := Some(p.responses[0]), responses := p.responses[1..])
      else p
    case HandOver =>
      if p.sending == None then p
      else if p.sending.value.clientId != -1 then
        p.(sending := None, handed := p.handed + [p.sending.value])
      else p.(sending := None)
  }

  function Run(e: Executor, p: Pipeline, actions: seq<Action>): Pipeline
    decreases |actions|
  {
    if actions == [] then p else Run(e, Step(e, p, actions[0]), actions[1..])
  }

  const START := Pipeline([], [], None, [], None, [])

  /** The requests that get a response, and whose response has somewhere to go. */
  function Due(e: Executor, keys: seq<Key>): seq<Key> {
    if keys == [] then []
    else (if e.Answers(keys[0]) && keys[0].clientId != -1 then [keys[0]] else []) + Due(e, keys[1..])
  }

  lemma {:induction false} DueOfAppend(e: Executor, a: seq<Key>, b: seq<Key>)
    ensures Due(e, a + b) == Due(e, a) + Due(e, b)
  {
    if a == [] {
      assert a + b == b;
    } else {
      DueOfAppend(e, a[1..], b);
      assert (a + b)[1..] == a[1..] + b;
      Associative(if e.Answers(a[0]) && a[0].clientId != -1 then [a[0]] else [], Due(e, a[1..]), Due(e, b));
    }
  }

  lemma DueOfOne(e: Executor, k: Key)
    ensures Due(e, [k]) == if e.Answers(k) && k.clientId != -1 then [k] else []
  {
    assert [k][1..] == [];
  }

  /** From the sender back to the executor, everything is somewhere, in order. */
  function InTransit(p: Pipeline): seq<Key> {
    Held(p.sending) + p.responses + Held(p.executing) + p.requests
  }

  ghost predicate Inv(e: Executor, p: Pipeline) {
    && Due(e, p.submitted) == p.handed + Due(e, InTransit(p))
    && (forall k <- Held(p.sending) + p.responses :: e.Answers(k))
  }

  lemma SubmitKeepsInv(e: Executor, p: Pipeline, key: Key)
    requires Inv(e, p)
    ensures Inv(e, Step(e, p, Submit(key)))
  {
    hide Due;
    DueOfAppend(e, p.submitted, [key]);
    DueOfAppend(e, InTransit(p), [key]);
    assert InTransit(Step(e, p, Submit(key))) == InTransit(p) + [key];
    Associative(p.handed, Due(e, InTransit(p)), Due(e, [key]));
  }

  lemma DropKeepsDue(e: Executor, front: seq<Key>, k: Key, back: seq<Key>)
    requires !e.Answers(k)
    ensures Due(e, front + ([k] + back)) == Due(e, front + back)
  {
    hide Due;
    DueOfOne(e, k);
    DueOfAppend(e, front, [k] + back);
    DueOfAppend(e, [k], back);
    DueOfAppend(e, front, back);
    assert [] + Due(e, back) == Due(e, back);
  }

  lemma PushResponseKeepsInv(e: Executor, p: Pipeline)
    requires Inv(e, p)
    ensures Inv(e, Step(e, p, PushResponse))
  {
    hide Due;
    var p' := Step(e, p, PushResponse);
    if p.executing != None {
      var k, front := p.executing.value, Held(p.sending) + p.responses;
      if e.Answers(k) {
        assert InTransit(p') == InTransit(p);
      } else {
        assert InTransit(p) == front + ([k] + p.requests) && InTransit(p') == front + p.requests;
        DropKeepsDue(e, front, k, p.requests);
      }
    }
  }

  lemma HandOverKeepsInv(e: Executor, p: Pipeline)
    requires Inv(e, p)
    ensures Inv(e, Step(e, p, HandOver))
  {
    hide Due;
    if p.sending != None {
      var k, back := p.sending.value, p.responses + Held(p.executing) + p.requests;
      assert k in Held(p.sending) + p.responses;
      DueOfOne(e, k);
      assert InTransit(p) == [k] + back && InTransit(Step(e, p, HandOver)) == back;
      DueOfAppend(e, [k], back);
      Associative(p.handed, Due(e, [k]), Due(e, back));
      assert p.handed + [] == p.handed;
    }
  }

  lemma StepKeepsInv(e: Executor, p: Pipeline, a: Action)
    requires Inv(e, p)
    ensures Inv(e, Step(e, p, a))
  {
    hide Due;
    match a
    case Submit(key) => SubmitKeepsInv(e, p, key);
    case PushResponse => PushResponseKeepsInv(e, p);
    case HandOver => HandOverKeepsInv(e, p);
    case PopRequest =>
      assert InTransit(Step(e, p, a)) == InTransit(p);
    case PopResponse =>
      var p' := Step(e, p, a);
      assert InTransit(p') == InTransit(p);
      assert forall k :: k in Held(p'.sending) + p'.responses ==> k in Held(p.sending) + p.responses;
  }

  lemma {:induction false} RunKeepsInv(e: Executor, p: Pipeline, actions: seq<Action>)
    requires Inv(e, p)
    ensures Inv(e, Run(e, p, actions))
    decreases |actions|
  {
    if actions != [] {
      StepKeepsInv(e, p, actions[0]);
      RunKeepsInv(e, Step(e, p, actions[0]), actions[1..]);
    }
  }

  /** In every run the responses handed to the connection are a prefix of the due requests, in
      the order of submission and once each, and all of them once the pipeline is empty. */
  lemma InOrder(e: Executor, actions: seq<Action>)
    ensures var p := Run(e, START, actions);
      && p.handed <= Due(e, p.submitted)
      && (p.requests == [] && p.responses == [] && p.executing == None && p.sending == None ==>
            p.handed == Due(e, p.submitted))
  {
    RunKeepsInv(e, START, actions);
  }

  /** Every request is due exactly when all come from connections and succeed, and, for the monitoring
      executor, are one of the two commands that it knows. */
  lemma {:induction false} AllDueIff(e: Executor, keys: seq<Key>)
    ensures |Due(e, keys)| <= |keys|
    ensures Due(e, keys) == keys <==> forall k <- keys ::
      k.succeeds && k.clientId != -1 && (e == Monitoring ==> k.commandType == 0 || k.commandType == 1)
  {
    if keys != [] {
      AllDueIff(e, keys[1..]);
      assert [keys[0]] + keys[1..] == keys;
      assert forall k :: k in keys <==> k == keys[0] || k in keys[1..];
    }
  }
}
