/** The texts that the server puts between apostrophes into its SQL statements: tokens, addresses
    and names.  The session model treats them as values; this says when the statements do. */
module Statements {
  import opened Wire
  import opened Session
  import opened Database

  const APOSTROPHE: byte := 39

  predicate Quotable(text: Text) {
    APOSTROPHE !in text
  }

  /** What DatabaseConnection writes for a text, and does not escape. */
  function Literal(text: Text): seq<byte> {
    [APOSTROPHE] + text + [APOSTROPHE]
  }

  /** A string literal after its opening apostrophe, as SQL reads it: two apostrophes stand for one,
      a single one ends the literal.  The value, and what follows it. */
  function ReadBody(s: seq<byte>): Option<(Text, seq<byte>)> {
    if s == [] then
      None
    else if s[0] != APOSTROPHE then
      var (value, rest) :- ReadBody(s[1..]);
      Some(([s[0]] + value, rest))
    else if |s| > 1 && s[1] == APOSTROPHE then
      var (value, rest) :- ReadBody(s[2..]);
      Some(([APOSTROPHE] + value, rest))
    else
      Some(([], s[1..]))
  }

  function ReadLiteral(statement: seq<byte>): Option<(Text, seq<byte>)> {
    if statement == [] || statement[0] != APOSTROPHE then None else ReadBody(statement[1..])
  }

  function Apostrophes(text: Text): nat {
    if text == [] then 0 else (if text[0] == APOSTROPHE then 1 else 0) + Apostrophes(text[1..])
  }

  lemma {:induction false} NoApostrophesIff(text: Text)
    ensures Apostrophes(text) == 0 <==> Quotable(text)
  {
    if text != [] {
      NoApostrophesIff(text[1..]);
      assert text == [text[0]] + text[1..];
    }
  }

  /** Every apostrophe of the value was written twice. */
  lemma {:induction false} ReadLength(s: seq<byte>)
    requires ReadBody(s) != None
    ensures var (value, rest) := ReadBody(s).value; |s| == |value| + Apostrophes(value) + 1 + |rest|
    decreases |s|
  {
    if s[0] != APOSTROPHE {
      ReadLength(s[1..]);
      assert ReadBody(s).value.0[1..] == ReadBody(s[1..]).value.0;
    } else if |s| > 1 && s[1] == APOSTROPHE {
      ReadLength(s[2..]);
      assert ReadBody(s).value.0[1..] == ReadBody(s[2..]).value.0;
    }
  }

  lemma {:induction false} QuotableReadsBack(text: Text, after: seq<byte>)
    requires Quotable(text) && (after == [] || after[0] != APOSTROPHE)
    ensures ReadBody(text + [APOSTROPHE] + after) == Some((text, after))
  {
    var s := text + [APOSTROPHE] + after;
    if text == [] {
      assert s == [APOSTROPHE] + after && s[1..] == after;
    } else {
      QuotableReadsBack(text[1..], after);
      assert s[1..] == text[1..] + [APOSTROPHE] + after;
      assert s[0] == text[0] && text[0] in text && [text[0]] + text[1..] == text;
    }
  }

  /** A statement reads a text as itself, and goes on behind it as it was written, exactly when the
      text has no apostrophe. */
  lemma LiteralReadsBackIff(text: Text, after: seq<byte>)
    requires after == [] || after[0] != APOSTROPHE
    ensures ReadLiteral(Literal(text) + after) == Some((text, after)) <==> Quotable(text)
  {
    assert (Literal(text) + after)[1..] == text + [APOSTROPHE] + after;
    if Quotable(text) {
      QuotableReadsBack(text, after);
    }
    if ReadLiteral(Literal(text) + after) == Some((text, after)) {
      ReadLength(text + [APOSTROPHE] + after);
      NoApostrophesIff(text);
    }
  }

  /** A lone apostrophe, as a name or as a token, does not read back. */
  lemma ApostropheReadsWrong()
    ensures ReadLiteral(Literal([APOSTROPHE])) != Some(([APOSTROPHE], []))
  {
    LiteralReadsBackIff([APOSTROPHE], []);
    assert Literal([APOSTROPHE]) + [] == Literal([APOSTROPHE]) && APOSTROPHE in [APOSTROPHE];
  }

  // ---- actions ----

  /** The texts that an action brings in, for statements to quote. */
  function Texts(a: Action): set<Text> {
    match a
    case AcceptConnection(ip, _) => {ip}
    case ReceiveFrame(_, InitFrame(token)) => {token}
    case RenameSensor(_, name) => {name}
    case GenerateToken(token, _) => {token}
    case _ => {}
  }

  /** No apostrophe in what comes in: the addresses come from inet_ntoa and the new tokens from the
      table of letters and digits, but the tokens and names that clients send are up to them. */
  predicate Plain(a: Action) {
    forall text <- Texts(a) :: Quotable(text)
  }

  /** The statements read the texts of an action, be it an address, a token that is sent or made, or a
      sensor's new name, as themselves exactly when the action is plain. */
  lemma StatementsReadTextsIff(a: Action, after: seq<byte>)
    requires after == [] || after[0] != APOSTROPHE
    ensures Plain(a) <==> forall text <- Texts(a) :: ReadLiteral(Literal(text) + after) == Some((text, after))
  {
    hide ReadLiteral, Literal, Texts;
    forall text
      ensures ReadLiteral(Literal(text) + after) == Some((text, after)) <==> Quotable(text)
    {
      LiteralReadsBackIff(text, after);
    }
  }

  /** A token that the server makes is plain, whatever is drawn. */
  lemma GeneratedTokenIsPlain(rand: nat -> nat, first: nat, id: int32)
    ensures Plain(GenerateToken(TokenAt(rand, first), id))
  {
    var token := TokenAt(rand, first);
    forall i | 0 <= i < |token|
      ensures token[i] != APOSTROPHE
    {
      assert token[i] == Alphanum(Draw(rand, first, i));
    }
  }

  // ---- runs ----

  predicate PlainRequest(request: Request) {
    request.Connected? ==> Quotable(request.token) && Quotable(request.ip)
  }

  ghost predicate PlainInv(st: State) {
    && (forall slot <- st.slots :: slot.Live? ==> Quotable(slot.ip))
    && (forall entry <- st.log :: PlainRequest(entry.request))
  }

  lemma PushKeepsPlain(st: State, c: int, request: Request)
    requires PlainInv(st) && IsLive(st.slots, c) && PlainRequest(request)
    ensures PlainInv(Push(st, c, request))
  {
  }

  lemma CloseKeepsPlain(st: State, c: int)
    requires PlainInv(st)
    ensures PlainInv(DisconnectClient(st, c))
  {
    if IsLive(st.slots, c) {
      PushKeepsPlain(st, c, Disconnected(c));
      assert forall slot <- st.slots[c := Free] :: slot.Live? ==> slot in st.slots;
    }
  }

  lemma KillKeepsPlain(st: State, c: int, reason: int32)
    requires PlainInv(st)
    ensures PlainInv(KillSensor(st, c, reason))
  {
    hide DisconnectClient;
    CloseKeepsPlain(Send(st, c, Rejected(reason)), c);
  }

  lemma ReceiveKeepsPlain(st: State, c: int, frame: Frame)
    requires PlainInv(st) && (frame.InitFrame? ==> Quotable(frame.token))
    ensures PlainInv(Receive(st, c, frame))
  {
    if IsLive(st.slots, c) {
      match frame
      case InitFrame(token) => PushKeepsPlain(st, c, Connected(c, st.slots[c].ip, st.slots[c].port, token));
      case MeasureFrame(timestamp, value) =>
        PushKeepsPlain(Send(st, c, Confirmed(timestamp)), c, Measured(c, value, Seconds(timestamp)));
      case UnknownFrame => CloseKeepsPlain(st, c);
    }
  }

  lemma StepKeepsPlain(st: State, a: Action)
    requires PlainInv(st) && Plain(a)
    ensures PlainInv(Step(st, a))
  {
    hide KillSensor, DisconnectClient, Receive, FirstFree, Activate;
    match a
    case ReceiveFrame(c, frame) => ReceiveKeepsPlain(st, c, frame);
    case PeerCloses(c) => CloseKeepsPlain(st, c);
    case ExecuteNext(_) =>
      if |st.verdicts| < |st.log| {
        var c := st.log[|st.verdicts|].request.clientId;
        KillKeepsPlain(st, c, KILL_SENSOR_INCORRECT_TOKEN);
        KillKeepsPlain(st, c, KILL_SENSOR_TOKEN_ACTIVE);
      }
    case RevokeSensor(id) =>
      KillKeepsPlain(st.(rows := Revoke(st.rows, id)), RegisteredClient(st, id), KILL_SENSOR_REVOKED);
    case DisconnectSensor(id) =>
      KillKeepsPlain(st.(rows := Deactivate(st.rows, id)), RegisteredClient(st, id), KILL_SENSOR_DISCONNECTED);
    case _ =>
  }

  lemma {:induction false} RunKeepsPlain(st: State, actions: seq<Action>)
    requires PlainInv(st) && forall a <- actions :: Plain(a)
    ensures PlainInv(Run(st, actions))
    decreases |actions|
  {
    hide PlainInv, Plain, Step;
    if actions != [] {
      StepKeepsPlain(st, actions[0]);
      RunKeepsPlain(Step(st, actions[0]), actions[1..]);
    }
  }

  /** In a run of plain actions the executor's statements about an init read its token and its
      address as themselves, which is what the session model takes them for. */
  lemma StatementsReadInits(start: State, actions: seq<Action>, k: nat, after: seq<byte>)
    requires Initial(start) && (forall a <- actions :: Plain(a))
    requires k < |Run(start, actions).log| && (after == [] || after[0] != APOSTROPHE)
    ensures var request := Run(start, actions).log[k].request;
      request.Connected? ==>
        && ReadLiteral(Literal(request.token) + after) == Some((request.token, after))
        && ReadLiteral(Literal(request.ip) + after) == Some((request.ip, after))
  {
    hide Run;
    assert PlainInv(start);
    RunKeepsPlain(start, actions);
    var entry := Run(start, actions).log[k];
    assert entry in Run(start, actions).log;
    if entry.request.Connected? {
      LiteralReadsBackIff(entry.request.token, after);
      LiteralReadsBackIff(entry.request.ip, after);
    }
  }
}
