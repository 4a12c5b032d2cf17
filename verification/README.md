# A verified model of the sensor measurement system

Sensors connect to a server, name themselves by a token and send measurements. Administrators list,
rename, disconnect and revoke sensors and generate tokens; monitoring clients read measurements. This
project models the server's protocol code, the sensor client's messages and the communication layer
of the two Java clients, and proves what they promise each other. To verify it:
`dafny verify dfyconfig.toml`.

| module | what it models |
|---|---|
| Wire, Framing | integer codecs of both languages; length-prefixed frames and their decoder |
| Transport, Link | `ClientsHandler::Client` with partial sends and receives; two ends and a FIFO byte channel |
| Queues, Monitors, Pipeline, Recipients | `Queue.h` as an object and as a condition-variable monitor; two chained queues; whom responses reach |
| Session | the session protocol as a state machine: slots, request log, both maps, rows, measurements |
| SessionInvariants, SessionProperties, SessionLinks, SessionAddresses, SessionKills | what every step keeps, and what follows for every run |
| SessionSteps | what each step writes, field by field; what a revocation and a rename mean for all that follows |
| SessionWitnesses | runs that reach the failing side of the exact conditions |
| Statements | when the SQL statements read tokens, addresses and names as themselves |
| SensorProtocol, Database, Replies, Handler, Rounds, Traces, Server | the messages, table, handler and server model as objects, each method proved to be a step or run of the state machine |
| AdminServer | the administrator's executor and response sender on top of the server model |
| Service | a server from its construction on, its threads' turns in any order |
| Fields, AdminProtocol, MonitoringProtocol | size-prefixed fields and nested lists; requests and responses in both directions |
| Layouts | the messages written out byte by byte |
| JavaClient, Conversations | `ClientHandler` and `CommunicationManager` of the Java clients; whole conversations as byte streams |

## How the pieces fit

`Server.ServerModel.View()` is the state of the session machine that an object represents. The
constructor gives an initial state, and each method ensures that the new view is `Step` or `Run` of
the old one. `Service.Threads` builds a server and performs any tasks of its threads in any order;
`Threads.Valid()` says that the server is where the actions so far lead from its initial state, so the
theorems about all runs (SessionProperties, SessionLinks, SessionAddresses, SessionKills) are about the
objects, and `Threads.Promises` draws the main ones. `Traces` ties every connection's requests to its
bytes, so that a stored measurement goes back to bytes; `ClientsHandler.Valid()` ties the replies of the
session machine to the bytes in every connection's buffer and socket, so that a sensor reads what the
session says it was told (`Server.ServerModel.SensorReadsReplies`).
Histories (connections, the log of everything ever queued, one verdict per processed request) are
part of the state only so that these theorems can be stated. `Transport.Client.Valid()` states
what bytes were sent, wait, were received and are unfinished; `Handler` keeps it for every slot.

## Results where the code does less than one may expect

Each has an exact condition, proved in both directions.

- The sender accepts messages of any length but 0, the receiver only 1..512: `Link.Link.DrainedIff`,
  `Framing.FramesDecodeIff`, `Framing.DecodeUpToIllegal`; a run: `Link.LongMessageIsLost`. A long name
  makes an administrator's command illegal: `Conversations.CommandFitsFrameIff`,
  `Conversations.LongNameIsIllegal`. The exception ends the network thread.
- The Java `analyzeBuffer` throws when a frame is still arriving: `JavaClient.NormalIff`,
  `JavaClient.AnalysisOfPrefix`; an input: `JavaClient.PartialFrameThrows`.
- A slot is chosen before `select`; a kill by an executor meanwhile can free a lower one:
  `SessionProperties.BindsLowestIff`; a run: `SessionWitnesses.LowestSlotCanBeMissed`.
- Revoking or disconnecting a sensor kills whoever is in the slot that `sensorToClientId` gives: client 0
  for an unregistered sensor, and for a registered one whose goodbye is still queued the slot's next
  connection: `SessionKills.AdminKillHitsOnlyItsClientIff`; runs:
  `SessionWitnesses.UnregisteredKillHitsSlotZero`, `SessionWitnesses.RegisteredKillHitsTheNextConnection`.
- A rejected init kills whoever has the slot when the request is processed:
  `SessionKills.RejectionHitsOnlyItsSenderIff`; a run: `SessionWitnesses.RejectionHitsTheNextConnection`.
  The answer goes there too: `SessionKills.AnswerReachesItsSenderIff`.
- A goodbye takes the sensor that its client stood for out of `sensorToClientId`, whoever has registered it
  since an admin kill: `SessionKills.GoodbyeErasesOnlyItsOwnIff`; a run:
  `SessionWitnesses.GoodbyeErasesTheNextRegistration`.
- A response goes to whoever has the slot of the administrator who asked:
  `Recipients.ResponseReachesItsAskerIff`; a run: `Recipients.TokenReachesTheNextAdministrator`.
- Without a channel, as after a failed connect, sending and closing throw and lose a message that waits:
  the exact conditions in `JavaClient.CommunicationManager.SendMessage` and `CloseConnection`, and
  `ServerSees`; a run: `JavaClient.FailedConnect`.
- A second init on a connection breaks the link between the maps: `SessionLinks.AcceptanceKeepsLinkIff`;
  a run: `SessionWitnesses.SecondInitBreaksTheLink`. An admin kill leaves `clientToSensorId` as it was:
  `SessionLinks.AdminKillKeepsInverseIff`; a run: `SessionWitnesses.AdminKillPartsTheMaps`.
- `Queue.h` notifies only when the size becomes 1; that suffices for one consumer, as all queues
  here have, and not for two: `Monitors.NoLostWakeupIff`; a run: `Monitors.LosingRunLoses`.
- Java widens signed bytes to characters: `Fields.TextIff`, `AdminProtocol.ShownAsMeantIff`; an input:
  `Fields.HighByteIsShownWrong`.
- Java counts characters where the server counts bytes: `AdminProtocol.UnderstoodIff`,
  `Fields.NameReadIff`; an input: `AdminProtocol.AccentedNameIsCut`.
- The statements read a text as itself only if it has no apostrophe: `Statements.LiteralReadsBackIff`,
  `Statements.StatementsReadTextsIff`; an input: `Statements.ApostropheReadsWrong`.

## Modelling decisions

- Steps. One executor request, one `disconnectHandler` (slot freed at Common/ClientsHandler.cpp:429,
  event queued at 430), one `connected()` (socket set at 53, init frame inserted at 64) and one
  slot's turn in `tryRecv` are atomic; the code holds no common lock over them.
- Database. An in-memory table. A statement on existing rows succeeds; a query that finds no row
  throws when its result is read and ends the request, so an unknown token or sensor changes nothing.
  A new row's status is not one of the three the server writes (`Fresh`); the status DISCONNECTED is
  called `Inactive`. The identifier of a new row is a parameter that no row has. The session starts
  with distinct, non-empty tokens and no active row. Measurements of an earlier start may be there.
- Texts in statements. Tokens, addresses and names are values here. The code puts them unescaped between
  apostrophes, so the model stands for it as long as they have none: `Statements.Plain` names this
  for each action. Addresses never have one, nor do generated tokens (`Statements.GeneratedTokenIsPlain`);
  what clients send is up to them.
- Numbers. `int` is 32 bits, `int64_t` and `long` are 64; a measurement's time is truncated toward
  zero by the division and narrowed to 32 bits by `addMeasurement`. Shifts and masks are written as
  arithmetic, and Java's `|` of disjoint lanes as a sum. The host is little-endian.
- Inputs. How much a socket takes or gives, what `select` reports, new connections, `rand()` and the
  server's time are parameters. `GenerateNewToken` has a ghost parameter, a time at which `rand()`
  gives a new token; without one the loop of the source would not end. `Pop` has one likewise.
- Out-of-bounds reads. `ParseFrame` and `ParseReply` read a parameter, `beyond`, where a message is
  too short; the analyzers of administrator and monitoring requests return `PastEnd`, and Java's
  exceptions are `None` or `threw`.
- Strings. A C++ string is its bytes. `getBytes()` of the Java clients, which depends on the
  platform's charset, is an arbitrary function from texts to bytes.
- `ClientHandler.active` says that a channel context is there. Before `run()` has made the handler, and
  after a failed connect, there is none, and a null handler throws as a null context does.
- `answers` stands for `analyzeResponse` returning normally.


## Model

| member | source | states |
|---|---|---|
| SessionProperties.EveryMeasurementIsItsSenders | Server/src/serverModel/ServerModel.cpp:303-337 | in every run from an initial state, however slots are reused and requests delayed, each stored measurement is a queued measurement request whose own connection had earlier sent the token that names the sensor it is stored under; a run stands for the code while its texts have no apostrophe (Statements.LiteralReadsBackIff) |
| SessionProperties.MeasurementIsKeptIff | Server/src/serverModel/ServerModel.cpp:303-329 | a processed measurement is stored if and only if an earlier init of the same connection had been accepted; later kills, revocations and reconnections do not matter |
| SessionProperties.SourceOfMeasurement | Server/src/serverModel/ServerModel.cpp:303-308 | which two log entries a stored measurement comes from: the measurement, the k-th stored, and the accepted init of its connection |
| SessionProperties.RegistrationSource | Server/src/serverModel/ServerModel.cpp:310-337 | a client's registration goes back to an accepted init on its slot with no disconnection in between |
| SessionProperties.AttributedSource | Server/src/serverModel/ServerModel.cpp:303-308 | the k-th stored measurement is the record of one measurement request, under the registration in force when it was processed |
| SessionProperties.AttributedPresent | Server/src/serverModel/ServerModel.cpp:303-308 | conversely every measurement request processed under a registration has its record at its own place |
| SessionProperties.RegistrationOfOwnConnection | Common/ClientsHandler.cpp:415-431 | the registration a request is processed under was made by the request's own connection, not by a later or earlier one of the slot |
| SessionProperties.OneGoodbyePerConnection | Common/ClientsHandler.cpp:422-431 | every connection of every run is open exactly while its slot is live with it, and otherwise has queued exactly one disconnection, behind all its requests; before its slot goes to a later connection it has been closed, and its disconnection stands before every request of that connection |
| SessionProperties.BindsAFreeSlot | Common/ClientsHandler.cpp:364-420 | a connection is bound to a slot that is free at that moment, and its client id is the slot's index |
| SessionProperties.BindsLowestIff | Common/ClientsHandler.cpp:318-325 | the slot is the lowest free one if and only if no lower slot has closed since the loop chose it |
| SessionProperties.ActiveIffRegistered | Server/src/serverModel/ServerModel.cpp:116-139 | in every reachable state a row is active if and only if its sensor is a key of sensorToClientId, and tokens of distinct rows are distinct |
| SessionSteps.RevocationIsForEver | Server/src/serverModel/ServerModel.cpp:120-125 | after REVOKE_SENSOR of any row, whatever happens next: the row says revoked, the sensor is unregistered, and every init that names it is rejected with reason 3 |
| SessionSteps.RevokedStoresNothing | Server/src/serverModel/ServerModel.cpp:303-308 | once no client stands for a revoked sensor, nothing more is stored under it |
| SessionProperties.RevokedIsAbsorbing | Server/src/database/DatabaseConnection.cpp:21-27 | after a revocation, in every run: the status stays, the sensor never re-enters sensorToClientId, and the clients that stand for it only become fewer |
| SessionProperties.RevokedStaysInStep | Server/src/database/DatabaseConnection.cpp:130-164 | the same for one step of any thread: status, absence from sensorToClientId, and clients that only become fewer |
| SessionInvariants.StepKeepsInv | Server/src/serverModel/ServerModel.cpp:303-345 | every step of every thread keeps the invariant that ties slots, connections, the request log, both maps, the rows and the measurements |
| SessionInvariants.RunKeepsInv | Server/src/serverModel/ServerModel.cpp:272-345 | the invariant holds after every run |
| SessionInvariants.CloseKeepsConnInv | Common/ClientsHandler.cpp:422-431 | freeing a slot and queueing its disconnection keeps the log consistent: a connection's goodbye is its last entry, and stands before every entry of a connection accepted later on the slot |
| SessionInvariants.PushKeepsConnInv | Server/src/listeners/SensorListener.cpp:48-70 | queueing a live connection's request keeps it |
| SessionInvariants.AcceptKeepsTurns | Common/ClientsHandler.cpp:415-420 | a slot goes to a new connection only after the earlier ones have said goodbye, before any request of the new one |
| SessionInvariants.AcceptKeepsConnInv | Common/ClientsHandler.cpp:415-420 | binding a new connection to the free slot keeps it |
| SessionInvariants.LogGrowthKeepsScanInv | Common/ClientsHandler.cpp:251-275 | while the chosen slot waits for a connection it stays free, and the slots below it that are free are exactly those closed since |
| SessionInvariants.ProcessingKeepsReplay | Server/src/serverModel/ServerModel.cpp:272-337 | maps and measurements are always what replaying the processed part of the log gives |
| SessionInvariants.AcceptanceKeepsInv | Server/src/serverModel/ServerModel.cpp:310-329 | accepting an init keeps the invariant |
| SessionInvariants.GoodbyeKeepsInv | Server/src/serverModel/ServerModel.cpp:331-337 | processing a disconnection keeps it |
| SessionInvariants.RejectionKeepsInv | Server/src/serverModel/ServerModel.cpp:311-318 | rejecting an init, with the kill of whoever is in the slot, keeps it |
| SessionInvariants.AdminKillKeepsInv | Server/src/serverModel/ServerModel.cpp:120-131 | revoking or disconnecting any sensor, registered or not, keeps it |
| SessionInvariants.ActivateOne | Server/src/database/DatabaseConnection.cpp:21-27 | with distinct tokens the update of addSensor changes exactly the one row that the token names |
| SessionLinks.MapsMirrorEachOther | Server/src/serverModel/ServerModel.cpp:310-337 | when each connection sends at most one init, clientToSensorId[sensorToClientId[s]] = s in every reachable state; without admin kills the maps are exact inverses |
| SessionLinks.StepKeepsLinkInv | Server/src/serverModel/ServerModel.cpp:310-337 | each step keeps that |
| SessionLinks.FirstInitFindsNoClient | Server/src/serverModel/ServerModel.cpp:310-329 | an init being processed finds its slot unregistered unless an init of its own connection had been queued before it |
| SessionLinks.AcceptanceKeepsLinkIff | Server/src/serverModel/ServerModel.cpp:320-322 | accepting an init keeps the link if and only if its client is not registered for another sensor |
| SessionLinks.AdminKillKeepsInverseIff | Server/src/serverModel/ServerModel.cpp:120-131 | an admin kill keeps the maps inverse if and only if the sensor is unregistered or unknown |
| SessionAddresses.AddressIsTheConnections | Server/src/database/DatabaseConnection.cpp:21-45 | in every reachable state a registered sensor's client, token and address are those of the last accepted init that named it |
| SessionAddresses.StepKeepsAddressInv | Server/src/serverModel/ServerModel.cpp:303-345 | each step of every thread keeps that |
| SessionAddresses.AcceptanceRegisters | Server/src/serverModel/ServerModel.cpp:320-322 | an accepted init adds exactly its own pair to both maps, activates exactly its sensor's row with its own address, and changes no other registration, row, slot or connection |
| SessionAddresses.OtherInitRegistersNobody | Server/src/serverModel/ServerModel.cpp:311-318 | any other init leaves both maps, the rows and the measurements as they were |
| SessionKills.AdminKillHitsOnlyItsClientIff | Server/src/serverModel/ServerModel.cpp:120-131 | in every reachable state, what revoking or disconnecting a sensor closes and answers: of an unregistered sensor nobody, if and only if slot 0 is empty; of a registered one nobody but the connection that registered it, if and only if that connection is still open or its slot is empty |
| SessionKills.AdminKillTouchesIff | Server/src/serverModel/ServerModel.cpp:120-131 | the same by the slot that is read: the kill touches nobody but the sensor's own connection if and only if nobody is there, or that connection is |
| SessionKills.SensorsConnectionIsThereIff | Server/src/serverModel/ServerModel.cpp:320-337 | a registered sensor has one registering connection, of the slot that the map gives, and it is there exactly as long as it is open |
| SessionKills.RejectionHitsOnlyItsSenderIff | Server/src/serverModel/ServerModel.cpp:310-318 | in every reachable state, executing a rejected init closes and answers nobody but its sender if and only if the sender is still open or its slot is empty |
| SessionKills.AnswerReachesItsSenderIff | Server/src/serverModel/ServerModel.cpp:310-329 | the acceptance or rejection of an init goes to whoever has the slot: to the sender if and only if it is still open, otherwise to a connection accepted later or to nobody |
| SessionKills.GoodbyeErasesOnlyItsOwnIff | Server/src/serverModel/ServerModel.cpp:331-337 | in every reachable state, processing a disconnection takes no sensor out of sensorToClientId but one that the disconnected connection had registered, if and only if the sensor that its client stands for, if registered, is registered for that client |
| SessionKills.RegistrarOfGoodbye | Server/src/serverModel/ServerModel.cpp:320-337 | if the maps lead from a disconnecting client to a sensor and back, the connection that registered the sensor is the one that disconnected |
| SessionKills.ConfirmationsMatchMeasurements | Server/src/listeners/SensorListener.cpp:56-70 | in every run, from every state, the confirmations sent are, in order, one for one and to the millisecond, those of the measurements received, each to the connection its measurement came in on; the measurements queued are the same in whole seconds |
| SessionKills.StepKeepsConfirmed | Server/src/listeners/SensorListener.cpp:16-70 | each step confirms and queues exactly the measurement that it brings in |
| SessionWitnesses.LowestSlotCanBeMissed | Common/ClientsHandler.cpp:253-273 | a run after which slot 1 waits for a connection while slot 0 is free |
| SessionWitnesses.UnregisteredKillHitsSlotZero | Server/src/serverModel/ServerModel.cpp:123 | a run after which revoking an unregistered sensor closes the connection in slot 0 |
| SessionWitnesses.RegisteredKillHitsTheNextConnection | Server/src/serverModel/ServerModel.cpp:123 | a run after which revoking a registered sensor closes a connection that never registered it |
| SessionWitnesses.RejectionHitsTheNextConnection | Server/src/serverModel/ServerModel.cpp:311-313 | a run after which the rejection of one connection's init is sent to and closes another |
| SessionWitnesses.GoodbyeErasesTheNextRegistration | Server/src/serverModel/ServerModel.cpp:333-335 | a run after which the goodbye of one connection unregisters and deactivates the sensor that another, still open, has registered |
| SessionWitnesses.SecondInitBreaksTheLink | Server/src/serverModel/ServerModel.cpp:320-322 | a run of two inits on one connection after which a sensor's client stands for another sensor |
| SessionWitnesses.AdminKillPartsTheMaps | Server/src/serverModel/ServerModel.cpp:123-124 | a run after which a revocation makes the maps no longer inverse |
| Statements.LiteralReadsBackIff | Server/src/database/DatabaseConnection.cpp:21-34 | a text put between apostrophes into a statement is read as itself, and the statement goes on as written, if and only if the text has no apostrophe |
| Statements.ApostropheReadsWrong | Server/src/database/DatabaseConnection.cpp:166-171 | a lone apostrophe is not read as itself |
| Statements.StatementsReadTextsIff | Server/src/database/DatabaseConnection.cpp:21-176 | the statements read the address, token or new name that an action brings in as itself if and only if it has no apostrophe |
| Statements.GeneratedTokenIsPlain | Server/src/serverModel/ServerModel.cpp:156-170 | a generated token never has one |
| Statements.StatementsReadInits | Server/src/database/DatabaseConnection.cpp:79-83 | in every run whose texts have none, the statements about an init read its token and address as themselves |
| Session.FirstFree | Common/ClientsHandler.cpp:318-325 | the slot found is free, and every slot before it is live; -1 only if all are |
| Session.Seconds | Server/src/listeners/SensorListener.cpp:60 | the whole seconds of a time in milliseconds, truncated toward zero |
| SessionSteps.RevocationWrites | Server/src/serverModel/ServerModel.cpp:120-125 | REVOKE_SENSOR, field by field: the row says revoked, the registration is gone, and whoever has the slot of the sensor's client, or slot 0, is sent reason 1 and closed; an unknown sensor changes nothing |
| SessionSteps.DisconnectionWrites | Server/src/serverModel/ServerModel.cpp:126-131 | DISCONNECT_SENSOR, field by field: the same with reason 2 and an inactive row, unless it was revoked |
| SessionSteps.RenamingWrites | Server/src/database/DatabaseConnection.cpp:166-176 | UPDATE_SENSOR_NAME writes the given name into that row and nothing else |
| SessionSteps.GenerationWrites | Server/src/database/DatabaseConnection.cpp:47-66 | GENERATE_TOKEN adds one row with that token |
| SessionSteps.InitWrites | Server/src/serverModel/ServerModel.cpp:310-329 | an init, field by field: reason 3 for a revoked sensor, reason 4 for a registered one, otherwise row, both maps and the server's time |
| SessionSteps.UnknownTokenWrites | Server/src/database/DatabaseConnection.cpp:79-88 | an init with an unknown token changes nothing and is not answered |
| SessionSteps.MeasurementAndGoodbyeWrite | Server/src/serverModel/ServerModel.cpp:303-337 | a measurement and a goodbye, field by field |
| SessionSteps.ReceptionWrites | Server/src/listeners/SensorListener.cpp:16-70 | a message, field by field: what is queued, what is confirmed, and that anything unknown closes |
| SessionSteps.ClosingWrites | Common/ClientsHandler.cpp:422-431 | a closing frees the slot and queues the goodbye, and sends nothing |
| SessionSteps.RenameSticks | Server/src/database/DatabaseConnection.cpp:166-176 | after a rename, and any actions but another rename of the sensor, its row has that name |
| Handler.ClientsHandler.constructor | Common/ClientsHandler.cpp:230-238 | all slots free, nothing queued, nothing sent: an initial network state |
| Handler.ClientsHandler.GetFreeHandler | Common/ClientsHandler.cpp:318-325 | the lowest free slot, or -1 exactly when there is none |
| Handler.ClientsHandler.ChooseFreeHandler | Common/ClientsHandler.cpp:251-254 | the scan step of the session state machine |
| Handler.ClientsHandler.BindHandler | Common/ClientsHandler.cpp:415-420 | the accept step: the new connection with the slot's index as client id; no other slot changes |
| Handler.ClientsHandler.DisconnectHandler | Common/ClientsHandler.cpp:422-431 | the close step: the slot is clean and free, and exactly one disconnection is queued |
| Handler.ClientsHandler.DisconnectClient | Common/ClientsHandler.cpp:280-292 | the close step for a live client, nothing for an id out of range or a free slot |
| Handler.ClientsHandler.SendReply | Common/ClientsHandler.cpp:294-300 | the reply's own bytes go behind what the connection that has the slot now has been told, or nowhere |
| Handler.ClientsHandler.Write | Common/ClientsHandler.cpp:132-141 | one slot's sendData: the bytes on every connection's wire stay the beginning of its framed replies |
| Handler.ClientsHandler.OnGotRequest | Server/src/listeners/SensorListener.cpp:16-70 | the receive step for the parsed message: an init or a confirmed measurement is queued, anything else disconnects |
| Handler.ClientsHandler.PushRequest | Server/src/serverModel/ServerModel.cpp:70-72 | the request is the last of the queue and of the log |
| Handler.ClientsHandler.Read | Common/ClientsHandler.cpp:382-394 | what a read takes and completes is what decoding all bytes of the connection says, the completed message is delivered, and the socket's send buffer is left alone |
| Handler.RecvTurn | Common/ClientsHandler.cpp:382-394 | one slot's read: the connection's bytes grow by what is taken, and the listener gets exactly the completed message |
| Handler.ClientsHandler.TryRecv | Common/ClientsHandler.cpp:382-396 | one slot's turn: what it takes, the message it completes or the illegal length is what decoding all bytes of the connection says, and the state is the receive or close step for it |
| Handler.ClientsHandler.TrySend | Common/ClientsHandler.cpp:398-413 | one slot's turn: closed exactly when nothing could be sent |
| Server.ServerModel.constructor | Server/src/serverModel/ServerModel.cpp:15-21 | an initial state of new objects with a running handler, given a table without active rows and with distinct tokens, whatever measurements it holds |
| Server.ServerModel.ExecuteSensorRequest | Server/src/serverModel/ServerModel.cpp:272-301 | one round of the sensor executor is the execute step on the whole state, for each of the three kinds of request, and keeps the invariant |
| Server.ServerModel.ExecuteMeasured | Server/src/serverModel/ServerModel.cpp:303-308 | stores under the client's sensor, or nothing for an unregistered client |
| Server.ServerModel.ExecuteConnected | Server/src/serverModel/ServerModel.cpp:310-329 | unknown token: nothing; revoked: reason 3; registered: reason 4; otherwise row, both maps and reply |
| Server.ServerModel.Register | Server/src/serverModel/ServerModel.cpp:320-328 | the accepted case: the row, both maps and the reply, whose bytes are those of the acceptance (Valid ties them) |
| Server.ServerModel.Reject | Server/src/serverModel/ServerModel.cpp:311-318 | the kill, and no registration |
| Server.ServerModel.ExecuteDisconnected | Server/src/serverModel/ServerModel.cpp:331-337 | row, both maps; nothing for an unregistered client |
| Server.ServerModel.KillSensor | Server/src/serverModel/ServerModel.cpp:339-345 | the reason is sent, then the slot is closed, whoever has it |
| Server.ServerModel.KillRegistered | Server/src/serverModel/ServerModel.cpp:123-130 | the kill of the registered client, of client 0 if there is none, and the erased entry |
| Server.ServerModel.ExecuteRevokeSensor | Server/src/serverModel/ServerModel.cpp:120-125 | the revoke step: that row is revoked in the table; an unknown sensor changes nothing |
| Server.ServerModel.ExecuteDisconnectSensor | Server/src/serverModel/ServerModel.cpp:126-131 | the disconnect step; an unknown sensor changes nothing |
| Server.ServerModel.ExecuteUpdateSensorName | Server/src/serverModel/ServerModel.cpp:116-119 | the rename step: that row has the given name |
| Server.ServerModel.ExecuteGenerateToken | Server/src/serverModel/ServerModel.cpp:132-139 | the generate-token step: a new row with a token of 15 letters and digits that no row had |
| Server.ServerModel.ExecuteGetAllSensors | Server/src/serverModel/ServerModel.cpp:111-115 | the list shows as connected exactly the sensors with a registered connection, and all of them |
| Server.ServerModel.HandlingRound | Common/ClientsHandler.cpp:246-278 | a whole round of the loop is exactly these actions: the scan and at most one accept, then the readable slots' turns in order up to a read that throws, then the closings of the writable slots that could not send, given the buffers that the confirmations of the round left |
| Server.ServerModel.ReceiveFrom | Common/ClientsHandler.cpp:388-394 | one slot's turn is one action or none, and leaves the other slots alone |
| Server.ServerModel.SendTo | Common/ClientsHandler.cpp:405-411 | one slot's turn is a close or nothing, and leaves the other slots alone |
| Server.ServerModel.ReceiveFromAll | Common/ClientsHandler.cpp:382-396 | the loop gives every live and readable slot its turn, in order, and ends at the first that throws |
| Server.ServerModel.SendToAll | Common/ClientsHandler.cpp:398-413 | the loop closes exactly the live and writable slots that could not send |
| Server.ServerModel.ChooseAndAccept | Common/ClientsHandler.cpp:253-273 | the scan, then an accept exactly if a slot was free and a connection is there |
| Server.ServerModel.AcceptOne | Common/ClientsHandler.cpp:364-380 | the accept step on the whole state; no connection's bytes change |
| Server.ServerModel.LogIsDelivered | Common/ClientsHandler.cpp:143-187 | whatever the threads have done, every connection of the run, open or closed, has queued in order exactly the requests that the messages its bytes decode to become, and its goodbye if it is closed; for an open one these are the bytes and deliveries of its Client |
| Server.ServerModel.MeasurementsComeFromBytes | Server/src/serverModel/ServerModel.cpp:303-308 | every stored measurement goes back to two messages in the bytes of one connection: the measurement, and before it the token of the sensor it is stored under |
| Server.ServerModel.SensorReadsReplies | SensorClient/src/NetworkListener.cpp:17-40 | whatever part of the bytes handed to a connection's socket has arrived, open or closed: the sensor parses in it the first of the server's replies to that connection, in order; all of them once nothing waits and all has arrived |
| Replies.RepliesArrive | SensorClient/src/NetworkListener.cpp:17-40 | the framed replies, cut anywhere, are parsed as the first replies |
| Replies.PlaceOfReply | Server/src/serverModel/ServerModel.cpp:324-345 | every reply to a connection has its place among that connection's replies |
| Replies.ReplyAtPlace | Server/src/serverModel/ServerModel.cpp:324-345 | and every place its reply |
| Replies.SendKeepsWired | Common/ClientsHandler.cpp:101-120 | one more reply keeps every connection's bytes the beginning of its framed replies |
| Traces.ReceiveKeepsTraced | Server/src/listeners/SensorListener.cpp:16-70 | a message just delivered becomes one request of its connection, or closes it |
| Traces.CloseKeepsTraced | Common/ClientsHandler.cpp:422-431 | a closed connection keeps the requests of its bytes, and its goodbye comes behind them |
| Traces.ExecutionKeepsTraced | Server/src/serverModel/ServerModel.cpp:303-345 | so they do while the executor works |
| Traces.AcceptKeepsTraced | Common/ClientsHandler.cpp:415-420 | a new connection has no bytes and no requests, the others keep theirs |
| Traces.MeasurementComesFromBytes | Server/src/serverModel/ServerModel.cpp:303-308 | which two messages of which connection a stored measurement comes from |
| Rounds.TurnKeepsTraced | Common/ClientsHandler.cpp:382-396 | a slot's turn keeps every connection's requests and bytes in step |
| Rounds.ClosedIff | Common/ClientsHandler.cpp:398-413 | which slots a send loop closes: exactly the live, writable ones with a failing socket or nothing to send |
| Rounds.EveryReadableSlotHasItsTurn | Common/ClientsHandler.cpp:382-396 | if no read throws, every live and readable slot has exactly its one turn, and no other slot any |
| Rounds.GonePeerIsClosed | Common/ClientsHandler.cpp:390-393 | a readable slot with nothing to take is closed |
| Rounds.AcceptedIff | Common/ClientsHandler.cpp:364-380 | the connection that is there is accepted if and only if a slot is free, and no other |
| Rounds.ThrownEndsReception | Common/ClientsHandler.cpp:382-396 | after a read that throws no further slot is read |
| Service.Serve | Server/src/serverModel/ServerModel.cpp:15-67 | a server is built and runs through any tasks of its threads in any order, the turns of a round as well as whole rounds; at the end every stored measurement still goes back to bytes |
| Service.Threads.constructor | Server/src/serverModel/ServerModel.cpp:15-67 | all threads of a new server, at the start of a run |
| Service.Threads.Perform | Server/src/serverModel/ServerModel.cpp:44-67 | whatever thread is next, the server stays where the actions of all threads so far lead from its initial state; a task adds exactly its own actions: a whole round, a slot's turn, a request, or a command with its effect |
| Service.Threads.PerformRound | Common/ClientsHandler.cpp:246-278 | what is added is one round from the present state |
| Service.Threads.PerformAdministration | Server/src/serverModel/ServerModel.cpp:102-144 | the next command has its effect, unless it needs a token that cannot be drawn |
| Service.Threads.PerformExecution | Server/src/serverModel/ServerModel.cpp:272-301 | the sensor executor adds its one step, or waits |
| Service.Threads.Promises | Server/src/serverModel/ServerModel.cpp:44-67 | at every moment what holds of all runs holds of the objects: whose every measurement is, how every connection lived, that the active rows are the registered sensors, and that every sensor reads its own replies |
| AdminServer.AdministratorExecutor.OnGotRequest | Server/src/listeners/AdministratorListener.cpp:15-24 | the analyzed command is queued under its client, with the connection that asked |
| AdminServer.AdministratorExecutor.ExecuteOne | Server/src/serverModel/ServerModel.cpp:102-144 | takes the first request, makes exactly its step on the session state, and queues the one matching response, or none if a database call threw; only GENERATE_TOKEN needs a fresh key and a drawable new token |
| AdminServer.AdministratorExecutor.Execute | Server/src/serverModel/ServerModel.cpp:110-140 | the five commands: which step, and which response |
| AdminServer.EachCommandTakesEffect | Server/src/serverModel/ServerModel.cpp:110-140 | command by command, written out: which fields change to what, and which response |
| AdminServer.AdministratorExecutor.Respond | Server/src/serverModel/ServerModel.cpp:141 | the response goes behind all earlier ones |
| AdminServer.AdministratorExecutor.SendOne | Server/src/serverModel/ServerModel.cpp:172-197 | the next response, serialized, for the client id of its request |
| AdminServer.AdministratorExecutor.HandedInOrder | Server/src/serverModel/ServerModel.cpp:102-197 | what was handed over always answers, one to one and in order, a prefix of the requests that did not throw |
| Database.SensorTable.CheckIfTokenExists | Server/src/database/DatabaseConnection.cpp:68-77 | true exactly when a row has the token |
| Database.SensorTable.GetSensorId | Server/src/database/DatabaseConnection.cpp:299-309 | the one row with the token, or an exception |
| Database.SensorTable.CheckIfTokenIsWhitelisted | Server/src/database/DatabaseConnection.cpp:79-88 | whether the token's row is not revoked, or an exception |
| Database.SensorTable.AddSensor | Server/src/database/DatabaseConnection.cpp:21-45 | activates exactly the rows the update matches, keeps tokens distinct, and returns the row that getSensorId finds |
| Database.SensorTable.InitializeSensor | Server/src/database/DatabaseConnection.cpp:47-66 | one new row, tokens still distinct |
| Database.SensorTable.RevokeSensor | Server/src/database/DatabaseConnection.cpp:130-140 | that row is revoked; an exception for an unknown id |
| Database.SensorTable.DisconnectSensor | Server/src/database/DatabaseConnection.cpp:142-152 | that row is disconnected unless revoked; an exception for an unknown id |
| Database.SensorTable.EditSensor | Server/src/database/DatabaseConnection.cpp:166-176 | only the name changes |
| Database.SensorTable.AddMeasurement | Server/src/database/DatabaseConnection.cpp:113-124 | one more measurement, the earlier ones untouched |
| Database.SensorTable.GetAllSensors | Server/src/database/DatabaseConnection.cpp:92-111 | every active or disconnected sensor exactly once, with its data, and no other |
| Database.GenerateToken | Server/src/serverModel/ServerModel.cpp:156-170 | 15 characters, each the digit or letter at the place that its draw gives in the table |
| Database.GenerateNewToken | Server/src/serverModel/ServerModel.cpp:132-136 | stops at the first drawn token that the table does not hold |
| Database.TokensEqualIff | Server/src/serverModel/ServerModel.cpp:156-170 | two drawn tokens are equal if and only if all 15 draws agree modulo 62 |
| Transport.Client.constructor | Common/ClientsHandler.cpp:7-11 | no connection, nothing buffered |
| Transport.Client.Reset | Common/ClientsHandler.cpp:18-35 | nothing of the old connection is left: no queued, half sent or half received bytes |
| Transport.Client.Connect | Common/ClientsHandler.cpp:47-67 | the listener's init frame comes before everything queued without a connection |
| Transport.Client.AddOutMsg | Common/ClientsHandler.cpp:101-120 | refused exactly if empty, or on a server slot without connection; otherwise bytes sent followed by outBuffer are the frames accepted so far |
| Transport.Client.SendData | Common/ClientsHandler.cpp:132-141 | what the socket took leaves the front of outBuffer; bytes sent followed by outBuffer stay the accepted frames |
| Transport.Client.RecvData | Common/ClientsHandler.cpp:143-187 | for every splitting into receives: delivered messages, pending bytes and first illegal length are those of the decoder on all bytes received, and no read crosses the end of a header or body |
| Transport.HeaderRead | Common/ClientsHandler.cpp:161-174 | a read in the header goes on, starts a body, or is the first illegal length |
| Transport.BodyRead | Common/ClientsHandler.cpp:175-182 | a read in the body goes on or completes exactly that message |
| Transport.TakenIs | Common/ClientsHandler.cpp:151-154 | the two counters ask for exactly what is missing of the header or body |
| Framing.DecodeOfAppend | Common/ClientsHandler.cpp:143-187 | decoding more bytes keeps the messages, the first illegal length, and continues the unfinished frame |
| Framing.FramesDecodeIff | Common/ClientsHandler.cpp:165-173 | framed messages decode to themselves if and only if all have 1..512 bytes |
| Framing.DecodeUpToIllegal | Common/ClientsHandler.cpp:169-172 | otherwise exactly the messages before the first illegal one come out, and its length is reported |
| Framing.DecodeOfAnyFrames | Common/ClientsHandler.cpp:143-187 | framed messages of any countable lengths decode to those before the first illegal one |
| Framing.LongMessageIsIllegal | Common/ClientsHandler.cpp:169-170 | 513 bytes are framed and never decoded |
| Framing.DecodeOfPrefix | Common/ClientsHandler.cpp:143-187 | any prefix of the framed stream decodes to a prefix of the messages |
| Framing.DecodeKeepsBytes | Common/ClientsHandler.cpp:143-187 | decoded messages and the rest give the stream back: the decoder is the inverse of framing |
| Link.Link.Post | Common/ClientsHandler.cpp:101-120 | a step of the end-to-end protocol: a non-empty message is accepted |
| Link.Link.Pump | Common/ClientsHandler.cpp:132-141 | a step: bytes move into the channel, none lost |
| Link.Link.Deliver | Common/ClientsHandler.cpp:143-187 | a step: what is delivered only grows, and the channel shrinks |
| Link.Link.Delivery | Common/ClientsHandler.cpp:101-187 | at every moment of every interleaving of steps, delivered messages are a prefix of the accepted ones, and equal them once all buffers are empty, for lengths 1..512 |
| Link.Link.DrainedIff | Common/ClientsHandler.cpp:101-120 | once nothing can move any more, everything accepted has been delivered if and only if every accepted length is 1..512 |
| Link.Link.DrainedUpToIllegal | Common/ClientsHandler.cpp:101-187 | then exactly the messages before the first illegal one have been delivered |
| Link.Link.Settle | Common/ClientsHandler.cpp:132-187 | both loops come to that point from any state |
| Link.LongMessageIsLost | Common/ClientsHandler.cpp:101-120 | a message of 513 bytes is accepted, and delivered never |
| Queues.Queue.Push | Server/src/serverModel/Queue.h:21-29 | at the end, notifying exactly if the queue was empty |
| Queues.Queue.Pop | Server/src/serverModel/Queue.h:31-41 | waits while empty, then takes the oldest; pushed = popped followed by the contents |
| Monitors.Conservation | Server/src/serverModel/Queue.h:21-41 | in every run of any threads, pushed = popped followed by the contents |
| Monitors.SingleConsumer | Server/src/serverModel/Queue.h:27-36 | with one consumer: asleep and not notified implies empty, in every run |
| Monitors.LosingRunLoses | Server/src/serverModel/Queue.h:27-28 | a run of two consumers that ends with an element in the queue, a sleeper, and nobody on the way |
| Monitors.NoLostWakeupIff | Server/src/serverModel/Queue.h:21-41 | no run loses a wake-up if and only if there is at most one consumer |
| Pipeline.StepKeepsInv | Server/src/serverModel/ServerModel.cpp:102-270 | each step of listener, executor and sender keeps: handed over, then what is in transit, are the due requests |
| Pipeline.InOrder | Server/src/serverModel/ServerModel.cpp:102-270 | in every run, for the administrator and the monitoring pipeline, the responses handed over are a prefix of the due requests in order, and all of them once the pipeline is empty |
| Recipients.ResponseReachesItsAskerIff | Server/src/serverModel/ServerModel.cpp:172-197 | in every run a response goes to the connection that asked if and only if it is still open, otherwise to a connection accepted later on the same slot, or to nobody |
| Recipients.DeliveriesReachNobodyEarlier | Common/ClientsHandler.cpp:294-300 | in every run each response is with its asker or, once that has left, with a later connection on its slot |
| Recipients.ReceivesItsOwn | Server/src/serverModel/ServerModel.cpp:102-197 | in every run a connection has received, of the responses due to its own requests, the first ones, in order and once each; all of them once the pipeline is empty, if it has stayed open |
| Recipients.TurnKeepsAddressed | Common/ClientsHandler.cpp:294-300 | each arrival, leaving, request and thread step keeps that |
| Recipients.TokenReachesTheNextAdministrator | Server/src/serverModel/ServerModel.cpp:132-141 | a run in which the token that one administrator asked for is sent to the next on its slot |
| Pipeline.AllDueIff | Server/src/serverModel/ServerModel.cpp:141-152 | every request gets its response if and only if all come from connections, are known to the executor and do not throw |
| Wire.BigRoundTrip | Server/src/serializers/SerializerMessage.cpp:33-50 | ByteToInt inverts IntToByte on all 32-bit integers, at any cursor |
| Wire.BigSurjective | Server/src/serializers/SerializerMessage.cpp:33-50 | IntToByte inverts ByteToInt on any four bytes |
| Wire.BigAgree | AdministratorClient/src/main/java/tin/administrator/communication/ConnectionUtil.java:46-51 | Java and C++ read the same big-endian integer from the same bytes |
| Wire.IntToByteList | AdministratorClient/src/main/java/tin/administrator/communication/ConnectionUtil.java:34-36 | Java and C++ write the same big-endian bytes |
| Wire.Int32Wraps | Common/BytesParser.h:29-43 | narrowing to 32 bits is reduction modulo 2^32 |
| Wire.LittleRoundTrip | Common/BytesParser.h:29-43 | parse inverts toBytes on all 32-bit integers |
| Wire.LittleSurjective | Common/BytesParser.h:29-43 | toBytes inverts parse on any four bytes |
| Wire.LittleAgree | AdministratorClient/src/main/java/tin/administrator/communication/ConnectionUtil.java:53-58 | Java and C++ read the same little-endian integer |
| Wire.IntToByteListLittleEndian | AdministratorClient/src/main/java/tin/administrator/communication/ConnectionUtil.java:38-40 | Java and C++ write the same little-endian bytes |
| SensorProtocol.LongRoundTrip | Common/BytesParser.h:29-43 | the same for 64-bit integers |
| SensorProtocol.SensorMessageRoundTrip | Server/src/listeners/SensorListener.cpp:16-70 | the server parses exactly the token, or the time and value, that the sensor sent |
| SensorProtocol.ParsedIs | Server/src/listeners/SensorListener.cpp:16-70 | every message by its first byte; a measurement that is too short is completed by the memory behind it |
| SensorProtocol.OtherRepliesAreIgnored | SensorClient/src/NetworkListener.cpp:17-40 | exactly the messages of another first byte are ignored |
| SensorProtocol.ReplyRoundTrip | SensorClient/src/NetworkListener.cpp:17-40 | the sensor parses exactly the confirmation, acceptance or rejection that the server sent |
| Fields.StringToByte | Server/src/serializers/SerializerMessage.cpp:52-59 | the bytes of the string |
| Fields.ConstructListMessage | Server/src/serializers/SerializerAdministratorMessage.cpp:190-201 | a count, then each element after its size, in order |
| Fields.ConstructList | AdministratorClient/src/main/java/tin/administrator/communication/CommunicationManager.java:270-284 | the cursor loop reads what the reader of lists reads, or throws exactly when it does |
| Fields.TakeOfList | AdministratorClient/src/main/java/tin/administrator/communication/CommunicationManager.java:270-284 | for every list: all elements come back in order, and the cursor ends where the list ends |
| Fields.TakeOfElements | Server/src/serializers/SerializerAdministratorMessage.cpp:193-198 | the same for the elements after the count |
| Fields.ByteListToString | AdministratorClient/src/main/java/tin/administrator/communication/ConnectionUtil.java:60-66 | each byte sign-extended into a character |
| Fields.TextIff | AdministratorClient/src/main/java/tin/administrator/communication/ConnectionUtil.java:60-66 | the client shows the server's text if and only if it is 7-bit |
| Fields.HighByteIsShown | AdministratorClient/src/main/java/tin/administrator/communication/ConnectionUtil.java:60-66 | every byte from 0x80 on is shown as the character with all high bits set |
| Fields.HighByteIsShownWrong | AdministratorClient/src/main/java/tin/administrator/communication/ConnectionUtil.java:60-66 | the byte 0x80 is shown as the character 0xFF80 |
| Fields.NameReadIff | AdministratorClient/src/main/java/tin/administrator/communication/ConnectionUtil.java:18-24 | the server reads all bytes of a client's text if and only if the text has one byte per character, as the size field counts characters |
| Fields.CollectName | Server/src/serializers/SerializerAdministratorMessage.cpp:58-61 | the named number of bytes at the cursor |
| AdminProtocol.RequestRoundTrip | Server/src/serializers/SerializerAdministratorMessage.cpp:9-113 | for every command, identifier, name and charset: the server analyzes the command the client prepared, with as many bytes of the name as it has characters, or reads past the end if it has fewer |
| AdminProtocol.EachCommandIsAnalyzed | Server/src/serializers/SerializerAdministratorMessage.cpp:9-113 | command by command: the server analyzes REVOKE_SENSOR as REVOKE_SENSOR of that identifier, and so on for all five, with the bytes of the name written out |
| AdminProtocol.AnalyzedIs | Server/src/serializers/SerializerAdministratorMessage.cpp:9-113 | every message, well formed or not: which command its bytes are, or that it is unknown or too short |
| AdminProtocol.AnalyzedNameIs | Server/src/serializers/SerializerAdministratorMessage.cpp:47-68 | which bytes of it are the name |
| AdminProtocol.UnderstoodIff | Server/src/serializers/SerializerAdministratorMessage.cpp:9-113 | the server understands exactly the command, with all bytes of its name, if and only if the name has one byte per character |
| AdminProtocol.SevenBitIsUnderstood | AdministratorClient/src/main/java/tin/administrator/communication/ConnectionUtil.java:42-44 | so it does for 7-bit names in every charset that agrees with ASCII |
| AdminProtocol.AccentedNameIsCut | AdministratorClient/src/main/java/tin/administrator/communication/ConnectionUtil.java:18-24 | a one-character name of two bytes arrives as its first byte |
| AdminProtocol.SensorRoundTrip | AdministratorClient/src/main/java/tin/administrator/communication/CommunicationManager.java:237-268 | a sensor comes back, and the nested cursors end exactly at its end |
| AdminProtocol.ListRoundTrip | Server/src/serializers/SerializerAdministratorMessage.cpp:115-201 | for every list of sensors, the client reads back the list and ends at the end of the message |
| AdminProtocol.ResponseRoundTrip | AdministratorClient/src/main/java/tin/administrator/communication/CommunicationManager.java:185-284 | for each of the five response kinds the client reads back what the server serialized |
| AdminProtocol.EachResponseIsShown | AdministratorClient/src/main/java/tin/administrator/communication/CommunicationManager.java:185-235 | response by response: renamed, revoked, disconnected and token come out as themselves |
| AdminProtocol.ListIsShown | AdministratorClient/src/main/java/tin/administrator/communication/CommunicationManager.java:237-284 | the list, field by field of every sensor |
| AdminProtocol.OtherResponses | AdministratorClient/src/main/java/tin/administrator/communication/CommunicationManager.java:185-215 | an unknown number is taken note of, a message shorter than a number throws |
| AdminProtocol.ShownAsMeantIff | AdministratorClient/src/main/java/tin/administrator/communication/CommunicationManager.java:237-268 | a sensor is shown as the server meant it if and only if its texts are 7-bit |
| MonitoringProtocol.RequestRoundTrip | MonitoringClient/src/main/java/tin/monitoring/communication/CommunicationManager.java:122-152 | for every identifier and period the server analyzes exactly the command, the doubled size prefix notwithstanding |
| MonitoringProtocol.AnalyzedIs | Server/src/serializers/SerializerMonitoringMessage.cpp:7-52 | every message, well formed or not: which command its bytes are, or that it is unknown or too short |
| MonitoringProtocol.SensorRoundTrip | MonitoringClient/src/main/java/tin/monitoring/communication/CommunicationManager.java:178-207 | a sensor comes back and its bytes are used up |
| MonitoringProtocol.MeasurementRoundTrip | MonitoringClient/src/main/java/tin/monitoring/communication/CommunicationManager.java:244-257 | a measurement comes back under its sensor and its bytes are used up |
| MonitoringProtocol.ResponseRoundTrip | Server/src/serializers/SerializerMonitoringMessage.cpp:54-136 | for every sensor list and every identifier with measurements, the client inverts the server and consumes all bytes |
| MonitoringProtocol.ListIsShown | MonitoringClient/src/main/java/tin/monitoring/communication/CommunicationManager.java:178-224 | the list, field by field of every sensor |
| MonitoringProtocol.MeasurementsAreShown | MonitoringClient/src/main/java/tin/monitoring/communication/CommunicationManager.java:226-257 | the measurements, field by field, each under its sensor |
| MonitoringProtocol.ShownAsMeantIff | MonitoringClient/src/main/java/tin/monitoring/communication/CommunicationManager.java:186-206 | a sensor is shown as the server meant it if and only if its texts are 7-bit |
| MonitoringProtocol.LabelledAsMeantIff | MonitoringClient/src/main/java/tin/monitoring/communication/CommunicationManager.java:244-257 | a measurement is shown as meant if and only if its text is 7-bit |
| MonitoringProtocol.OtherResponses | MonitoringClient/src/main/java/tin/monitoring/communication/CommunicationManager.java:154-166 | an unknown number is taken note of, a message shorter than a number throws |
| Layouts.ByteOrders | Server/src/serializers/SerializerMessage.cpp:33-50 | message fields begin with the high byte, the other integers with the low one |
| Layouts.FrameBytes | Common/ClientsHandler.cpp:101-113 | a frame is the length, low byte first, and the message |
| Layouts.SensorMessageBytes | SensorClient/src/main.cpp:18-32 | the bytes of every message between sensor and server |
| Layouts.AdminCommandBytes | AdministratorClient/src/main/java/tin/administrator/communication/CommunicationManager.java:147-170 | the bytes of the commands without a name |
| Layouts.NameCommandBytes | AdministratorClient/src/main/java/tin/administrator/communication/CommunicationManager.java:155-182 | the bytes of the commands with a name |
| Layouts.AdminResponseBytes | Server/src/serializers/SerializerAdministratorMessage.cpp:115-150 | the bytes of the responses to them |
| Layouts.AdminSensorBytes | Server/src/serializers/SerializerAdministratorMessage.cpp:150-201 | the bytes of a sensor, and of a list of one |
| Layouts.MonitoringCommandBytes | MonitoringClient/src/main/java/tin/monitoring/communication/CommunicationManager.java:133-152 | the bytes of both monitoring commands |
| Layouts.MonitoringResponseBytes | Server/src/serializers/SerializerMonitoringMessage.cpp:62-136 | the bytes of a sensor and of a measurement, and of lists of one |
| JavaClient.AddPrefixMessageSize | AdministratorClient/src/main/java/tin/administrator/communication/ConnectionUtil.java:72-77 | the Java frame is the C++ frame |
| JavaClient.ClientHandler.AddMessageToBuffer | AdministratorClient/src/main/java/tin/administrator/communication/ClientHandler.java:103-105 | bytes accumulate |
| JavaClient.ClientHandler.AnalyzeBuffer | AdministratorClient/src/main/java/tin/administrator/communication/ClientHandler.java:94-101 | the loop is the recursive cutting of the buffer, with its messages, what is left and whether it threw; it terminates on every buffer |
| JavaClient.AnalysisOfFrames | AdministratorClient/src/main/java/tin/administrator/communication/ClientHandler.java:94-101 | whole frames, however accumulated, are handed on in order and leave nothing |
| JavaClient.NormalIff | AdministratorClient/src/main/java/tin/administrator/communication/ClientHandler.java:94-101 | the loop ends normally if and only if the buffer is a concatenation of whole frames of messages the client can answer |
| JavaClient.AnalysisOfPrefix | AdministratorClient/src/main/java/tin/administrator/communication/ClientHandler.java:94-101 | while a stream of frames arrives, the messages handed on are the first ones, and the loop ends normally if and only if the bytes so far end with a frame |
| JavaClient.AnalysisUpToUnanswered | AdministratorClient/src/main/java/tin/administrator/communication/ClientHandler.java:94-101 | a message that is not answered ends the pass, and what follows it stays in the buffer |
| JavaClient.AnalysisUpToPart | AdministratorClient/src/main/java/tin/administrator/communication/ClientHandler.java:94-101 | bytes that no message can be cut from end it, and stay |
| JavaClient.PartialFrameThrows | AdministratorClient/src/main/java/tin/administrator/communication/ClientHandler.java:94-101 | three bytes of a header make it throw |
| JavaClient.AgreesWithReceiver | AdministratorClient/src/main/java/tin/administrator/communication/ClientHandler.java:94-101 | on the same bytes it agrees with the C++ receiver, for lengths 1..512 |
| JavaClient.ClientHandler.SendMessage | AdministratorClient/src/main/java/tin/administrator/communication/ClientHandler.java:74-78 | it throws exactly without a channel; otherwise bytes written are the frames of the messages sent |
| JavaClient.CommunicationManager.constructor | AdministratorClient/src/main/java/tin/administrator/communication/CommunicationManager.java:39-43 | a new manager: no channel, nothing waits, nothing is lost |
| JavaClient.CommunicationManager.SetConnectionReady | AdministratorClient/src/main/java/tin/administrator/communication/CommunicationManager.java:96-98 | changes nothing else |
| JavaClient.CommunicationManager.ChannelActive | AdministratorClient/src/main/java/tin/administrator/communication/ClientHandler.java:31-35 | the channel comes up, and nothing else changes |
| JavaClient.CommunicationManager.SendMessage | AdministratorClient/src/main/java/tin/administrator/communication/CommunicationManager.java:105-113 | messages handed over, then those that wait, are the calls in order but for the lost ones; it throws if and only if the connection counts as ready without a channel, and then loses the message and the first that waits |
| JavaClient.CommunicationManager.SendAllMessagesFromBuffer | AdministratorClient/src/main/java/tin/administrator/communication/CommunicationManager.java:115-120 | draining terminates with everything handed over, or, if and only if a message waits and there is no channel, throws and loses the first |
| JavaClient.CommunicationManager.CloseConnection | AdministratorClient/src/main/java/tin/administrator/communication/CommunicationManager.java:72-82 | the buffer is drained before the connection is marked closed; it throws if and only if there is no channel and a message waits or the connection counts as ready |
| JavaClient.CommunicationManager.ServerSees | AdministratorClient/src/main/java/tin/administrator/communication/CommunicationManager.java:105-120 | whatever part of the bytes has reached the server decodes to a prefix of the messages sent; once all has arrived and nothing waits, to all calls if and only if none is lost |
| JavaClient.FailedConnect | AdministratorClient/src/main/java/tin/administrator/communication/CommunicationManager.java:62-82 | a message sent before a connect that fails is lost when closing throws |
| Conversations.CommandFitsFrameIff | AdministratorClient/src/main/java/tin/administrator/communication/CommunicationManager.java:149-182 | the server accepts a command's frame if and only if its name has at most 492 (rename) or 500 (token) bytes |
| Conversations.LongNameIsIllegal | AdministratorClient/src/main/java/tin/administrator/communication/CommunicationManager.java:155-161 | a name of 493 one-byte characters makes the frame illegal |
| Conversations.CommandsArrive | Server/src/serializers/SerializerAdministratorMessage.cpp:9-113 | however much of the client's stream has arrived, the server has understood the first commands, in order, for names that fit and have one byte per character |
| Conversations.MonitoringCommandsArrive | Server/src/serializers/SerializerMonitoringMessage.cpp:7-52 | the same for the monitoring client |
| Conversations.SensorStreamArrives | SensorClient/src/main.cpp:18-32 | however much of a sensor's stream has arrived: the token first, then its readings in order |
| Conversations.SensorStreamIsLogged | Server/src/listeners/SensorListener.cpp:16-70 | from bytes to the queue, on the server objects: every connection's requests, be it open or closed, are those of the sensor's stream, in order, one for each whole message that has arrived, and the goodbye of a closed one |
| Conversations.ResponsesArrive | AdministratorClient/src/main/java/tin/administrator/communication/CommunicationManager.java:185-284 | while the server's framed responses arrive, those handed on are the first ones, each understood as what the server serialized; a pass ends normally if and only if the bytes end with a frame; in the end all have been handed on |
| Conversations.MonitoringResponsesArrive | MonitoringClient/src/main/java/tin/monitoring/communication/CommunicationManager.java:154-257 | the same for the monitoring client |
| Conversations.RenamedIsShown | Server/src/serverModel/ServerModel.cpp:116-119 | from the client's rename to the list: the server reads the name's bytes, and in whatever happens next, up to another rename, the decoded list shows them |
| Conversations.AdministratorSeesSessions | Server/src/serverModel/ServerModel.cpp:111-115 | in every reachable state the decoded list shows the active and disconnected rows and no others, as connected exactly the sensors with a registered connection, texts as byteListToString reads them, and a name as meant if and only if it is 7-bit |

Both Java clients hold the same `ClientHandler`, `ConnectionUtil` and sending code; the rows cite the
administrator's copy.

## Left out

- Sockets, `select`, SSL, Netty and operating-system calls; `getIp` and the reconnect loop of a sensor's `startHandling`.
- The block and unlock flags and `flushRecvBuffer`: unlocking sets the same value as blocking.
- SQL text, Oracle result sets, connection re-creation after error 3114, the averages over hours, days and months, and `connectSensor`, which nothing calls.
- Threads inside a step: the executors and the network thread share the maps and slots without one lock, and the model interleaves whole steps only.
- The monitoring executor as an object: its order and conservation are proved in Pipeline, its messages in MonitoringProtocol, and its queries are the database's.
- Unrecognized administrator and monitoring commands, for which the listeners dereference a null pointer: `AdministratorExecutor.OnGotRequest` requires a recognized one.
- `sendMessage(String)` of the Java clients, which frames a text twice; only a mock-up test class calls it.
- Start-up, signals and shutdown; console output; the JavaFX user interface.
- `MeasureReader`, clocks, `UserPrefs`, the mock database: environment or unrelated.
- SessionProperties.EveryMeasurementIsItsSenders: says nothing of tokens with an apostrophe, which the statements do not read as tokens; see Statements.
- Server.ServerModel.HandlingRound: one undisturbed round; with executor steps between the turns of a round it is `Service.Threads.Perform` that says what holds, the network thread's turns coming in any order there.
- Service.Threads.PerformAsking: an administrator's slot and connection are parameters; that they are those of one handler is modelled in Recipients, on the administrators' connections alone.
- AdminProtocol.RequestRoundTrip: names of fewer than 2^31 characters, which a Java string cannot exceed.
- AdminProtocol.ResponseRoundTrip: lists and texts whose sizes fit the 32-bit integer that carries them.
- MonitoringProtocol.ResponseRoundTrip: the same bound on sizes.
- Link.Link.DrainedUpToIllegal: messages of fewer than 2^31 bytes; a longer one's length field wraps around.
