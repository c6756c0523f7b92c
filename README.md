# Patient–doctor matching broker, modelled in Dafny

The system is a WebSocket server (`server.js`) that matches patients to
doctors. Under its transport plumbing it keeps three pieces of
module-level state:

- `patients`, a map from a connection to `{id, name}`;
- `doctors`, a map from a connection to `{id, name, location}`;
- `activeRequest`, one slot that is either `null` or a request record with
  `accepted` and `acceptedBy` fields.

Three message handlers change this state and send replies and broadcasts:
`handleRegistration`, `handlePostRequirement` and `handleAcceptRequest`.
The connection's `close` handler and the deferred clear that a successful
accept schedules with `setTimeout` change it too. Node runs each handler to
completion, so the model is sequential: the accept race is settled by the
order in which handlers run.

The project has four modules:

- `Messages` (`messages.dfy`) holds the values. A connection is an opaque
  handle (`Conn`). The datatypes are the stored `Patient` and `Doctor`
  records, the `Request` record, inbound messages by `type`, outbound
  messages by `type`, an `Envelope` (one `send`), and an `Event` (a message
  arriving, a connection closing, or the scheduled clear firing).
- `BrokerSpec` (`broker_spec.dfy`) is the broker as a pure state machine.
  `RegisterNext`, `PostNext`, `AcceptNext`, `CloseNext` and `ClearNext` give
  the new state, and `Next` dispatches on the event. `RegisterSends`,
  `PostSends`, `AcceptSends` and `Sends` say what is sent. `Decide` makes
  the accept decision in the source's order of checks. A broadcast is
  specified by `Broadcast`: the message goes once to each connection of
  the audience, in some order, and nothing else is sent.
  `BroadcastCounts` turns that into per-connection counts.
- `Server` (`server.dfy`) is the class `Broker`. Its fields are the two
  maps, the slot, a count of scheduled clears and an `outbox` of every
  message sent. It has one method per handler. Each `forEach` broadcast
  is a loop over a registry (`NotifyAll`, `NotifyPatient`,
  `NotifyOtherDoctors`) that returns the envelopes it sends, and the
  handler appends them. Each handler method is proved to move the state
  as `BrokerSpec` says and to append exactly what `BrokerSpec` says is
  sent.
- `Properties` (`properties.dfy`) holds the promises as lemmas: the effect
  of each event, who receives which message, the walkthrough of one
  patient and two doctors, and four results over whole runs of events:
  at most one accept succeeds per request id when post ids are fresh
  (`AtMostOneWinnerPerRequest`); an accepted request stays in the slot
  unchanged until the next post or clear (`AcceptedRequestIsStable`), so
  every later accept of it is rejected naming the same winner
  (`LaterAcceptsNameWinner`); and every run keeps the slot well formed
  (`RunPreservesInv`), so a rejection as already accepted names a doctor
  (`RejectionNamesDoctor`).

Modelling decisions:

- A request id comes from `Date.now().toString()`. In the model it is the
  `now` field of the message event. The single-winner result about runs
  requires that every post gets an id that was not used before
  (`FreshIds`). The source does not guarantee this (see "## Left out").
- The `setTimeout` clear is an explicit `ClearTimerFired` event.
  `pendingClears` counts the clears that are scheduled and have not fired.
  A successful accept adds one, and the event can occur only while the
  count is positive. It may fire at any later point, after any other
  events.
- `Map.forEach` visits entries in insertion order. The model picks the next
  connection arbitrarily, so broadcasts are specified by per-connection
  counts rather than by order.
- The free-text `message` fields are dropped. An ERROR carries an
  `ErrorKind`, one per fixed text.
- `REQUEST_ALREADY_ACCEPTED` carries `acceptedBy` as an `Option`, because
  the stored field may be `null`. `Inv` says that `acceptedBy` is set
  exactly when `accepted` is. Every event preserves `Inv`
  (`NextPreservesInv`, `RunPreservesInv`), so a rejection always names a
  doctor.
- The request record's `accepted` and `acceptedBy` fields are updated in
  place in the source. Nothing else refers to the record, so the model
  updates the slot's value with two assignments in the same order.

## Model

| member | source | states |
|---|---|---|
| `BrokerSpec.Decide` | server.js:126-162 | The accept decision, checked in order: not a doctor, no active request, id mismatch, already accepted (carrying the stored `acceptedBy`). Otherwise the caller wins, and that happens exactly when the caller is a doctor and the active request has this id and is still open. |
| `Server.Broker.constructor` | server.js:7-11 | The process starts with both registries empty, no active request, no clear scheduled and nothing sent. |
| `Server.Broker.HandleMessage` | server.js:23-38 | The `type` switch: each message reaches its handler. The new state is `Next` of the old one, and what is appended to the outbox satisfies `Sends`. An unrecognised type changes nothing and sends nothing. |
| `Server.Broker.HandleRegistration` | server.js:56-76 | Registration updates the state as `RegisterNext` says and appends exactly `RegisterSends`: one REGISTERED to the caller for `patient` or `doctor`, and nothing for any other role. |
| `Server.Broker.HandlePostRequirement` | server.js:78-124 | A post updates the state as `PostNext` says. Earlier sends are kept. The new sends satisfy `PostSends`: one ERROR to a caller that is not a patient; otherwise one NEW_REQUEST to each doctor connection, then REQUEST_POSTED to the caller. |
| `Server.Broker.HandleAcceptRequest` | server.js:126-206 | An accept updates the state as `AcceptNext` says. Earlier sends are kept. The new sends satisfy `AcceptSends`: one reply to the caller when rejected; the full fan-out on a win. |
| `Server.Broker.AcceptAndNotify` | server.js:164-206 | The winning path: mark the request accepted by the caller's name, confirm to the caller, notify the patient's connections, then the other doctors, and schedule one clear. |
| `Server.AcceptanceReplies` | server.js:170-199 | The sends of a win satisfy `WinSends`: ACCEPTANCE_CONFIRMED with the patient's name to the caller, then a broadcast of REQUEST_ACCEPTED to the patient's connections, then a broadcast of REQUEST_ALREADY_ACCEPTED naming the winner to the doctors with another id. |
| `Server.NotifyAll` | server.js:106-116 | The post's doctor loop is a `Broadcast` of NEW_REQUEST to every doctor connection. |
| `Server.NotifyPatient` | server.js:177-187 | The patient loop is a `Broadcast` to exactly the patient connections whose id is the request's patient id. |
| `Server.NotifyOtherDoctors` | server.js:189-199 | The doctor loop is a `Broadcast` to exactly the doctor connections whose id differs from the winner's. |
| `BrokerSpec.BroadcastCounts` | server.js:106-116 | A broadcast delivers its message exactly once to each connection of its audience and sends nothing else; its length is the audience's size. |
| `BrokerSpec.ExtendBroadcast` | server.js:107-116 | One more send to a connection not yet reached extends a broadcast to that connection. |
| `Server.Broker.HandleClose` | server.js:44-49 | Closing a connection updates the state as `CloseNext` says and sends nothing. |
| `Server.Broker.ClearTimerFires` | server.js:202-205 | When a scheduled clear fires, the slot empties, one pending clear is used up and nothing is sent. |
| `Properties.RegistrationEffects` | server.js:56-76 | A `patient` registration binds the caller in `patients` only, and a `doctor` registration binds it in `doctors` only. Other entries, the slot and the scheduled clears are unchanged, and the only reply goes to the caller. Any other role changes nothing and sends nothing. |
| `Properties.BothRolesOnOneConnection` | server.js:59-68 | Registering under the other role does not remove the earlier entry, so one connection sits in both registries. |
| `Properties.CloseEffects` | server.js:44-49 | After a close the connection is in neither registry. Every other entry, the slot and the scheduled clears are unchanged. |
| `Properties.CloseIsIdempotent` | server.js:47-48 | Closing twice has the same effect as closing once. |
| `Properties.CloseUndoesRegistration` | server.js:44-76 | Registering a fresh connection under any role and then closing it gives back the original state. |
| `Properties.ClosedConnectionGetsNothing` | server.js:44-49 | A connection in neither registry receives nothing from any event it did not send itself, and stays in neither registry, because every send goes to the caller or to a connection found in `patients` or `doctors`. So once a connection has closed, no later event delivers to it. |
| `Properties.PostByNonPatientIsRejected` | server.js:79-87 | A post from a connection not in `patients` leaves the state unchanged and sends exactly one ERROR, to the caller only. |
| `Properties.PostReplacesActiveRequest` | server.js:89-99 | A registered patient's post replaces the slot, whether it was empty, open or accepted. The new record has the patient's id and name, the new id, the description and location, `accepted = false` and `acceptedBy = null`. The registries are unchanged. |
| `Properties.PostDeliveries` | server.js:106-123 | After a valid post, each doctor connection receives exactly one NEW_REQUEST with the new id and no other connection receives one. The caller receives REQUEST_POSTED with that id as the last message, and nothing else is sent. |
| `Properties.AcceptRejectionChangesNothing` | server.js:127-162 | Every rejected accept leaves the state unchanged and sends exactly one message, to the caller only. An already-accepted request is answered with REQUEST_ALREADY_ACCEPTED carrying the stored `acceptedBy`. |
| `Properties.WinMarksRequestAccepted` | server.js:164-166 | A win flips `accepted` from false to true and sets `acceptedBy` to the winner's name. The other request fields and the registries are unchanged, and one clear is scheduled. |
| `Properties.SecondAcceptLoses` | server.js:145-162 | Right after a win, any doctor's accept of the same id is rejected naming the winner, and an accept of any other id is a mismatch. |
| `Properties.AcceptDeliveries` | server.js:170-199 | On a win the caller first gets ACCEPTANCE_CONFIRMED with the patient's name. Each patient connection with the request's patient id gets exactly one REQUEST_ACCEPTED, and no other connection gets one. Each doctor connection whose id differs from the winner's gets exactly one REQUEST_ALREADY_ACCEPTED naming the winner; the comparison is by id, and the winner's own connection gets none. Nothing else is sent. |
| `Properties.WinCounts` | server.js:170-199 | The sends of a win, counted per envelope: the confirmation once, REQUEST_ACCEPTED once per patient connection with the request's patient id, REQUEST_ALREADY_ACCEPTED once per doctor connection with another id, and nothing else. |
| `Properties.ClearDropsNewerRequest` | server.js:202-205 | The clear empties the slot unconditionally. That includes an open request posted after the accept that scheduled the clear. |
| `Properties.PostAfterClearCanBeWon` | server.js:89-99 | After a clear, a registered patient's post opens a new request that any registered doctor's accept wins. |
| `Properties.UnrecognisedTypeIsIgnored` | server.js:36-37 | A message with an unrecognised `type` changes nothing and gets no reply. |
| `Properties.WalkthroughPost` | server.js:56-124 | Patient Alice and doctors D1 and D2 register, and Alice posts. Each doctor gets exactly one NEW_REQUEST, Alice gets none, and her REQUEST_POSTED comes last. |
| `Properties.WalkthroughAccept` | server.js:126-199 | After that post, D2 accepts first and wins: D2 is confirmed with Alice's name, Alice gets REQUEST_ACCEPTED naming D2, D1 gets REQUEST_ALREADY_ACCEPTED naming D2 and D2 gets none. D1's own accept afterwards is rejected naming D2 and changes nothing. |
| `Properties.WinsBound` | server.js:145-166 | The induction behind the single-winner property: in a run with fresh post ids, an id can still be won at most once, and only if it is open now or has never been used. |
| `Properties.AtMostOneWinnerPerRequest` | server.js:145-166 | In any run whose posts get fresh ids, each request id is won at most once. A request that is already accepted when the run starts is never won again. |
| `Properties.AcceptedRequestIsStable` | server.js:153-162 | Until the next post or clear, an accepted request stays in the slot unchanged, whatever registrations, closes and accepts occur. |
| `Properties.LaterAcceptsNameWinner` | server.js:153-166 | After a win and until the next post or clear, every accept of the same id by a registered doctor is rejected naming the same winner. |
| `Properties.NextPreservesInv` | server.js:91-99 | Every event keeps `accepted` set exactly when `acceptedBy` names a doctor. |
| `Properties.RunPreservesInv` | server.js:153-166 | Every run keeps `accepted` set exactly when `acceptedBy` names a doctor. |
| `Properties.RejectionNamesDoctor` | server.js:153-161 | After any run from a well-formed state, an accept rejected as already accepted carries `acceptedBy` naming a doctor, never `null`. |

## Left out

- WebSocket server setup, per-connection event wiring and the `error` handler (server.js:1-4, 15, 51-53): transport and I/O. A connection is an opaque handle.
- JSON parsing and serialisation, and the catch-and-log path for unparseable messages (server.js:19-21, 39-41): library code. Inbound messages arrive parsed. A message that fails to parse is dropped like an unrecognised type. Fields of the wrong JSON type or missing fields are not distinguished: every field is a string.
- `console.log` and `console.error`: diagnostics with no effect on the state.
- `Date.now()`: a clock read. Its value is an input of the event. The clock can return the same millisecond twice, so the source does not guarantee fresh ids. With a repeated id, one id can be won twice: post, win, then a second post under the same id and a second win. Also, a second patient posting in the same millisecond replaces the first request under the same id, and an accept meant for the first request then wins the second. `AtMostOneWinnerPerRequest` therefore holds only under its `FreshIds` hypothesis.
- The 2000 ms delay of `setTimeout`: timing is not modelled, and the clear fires at an arbitrary later point.
- Insertion order of `Map.forEach`: broadcasts are specified up to order, per connection.
- Interleaving of a broadcast's sends with the handler's own state: each loop builds its envelopes and the handler appends them at once. This is the same outcome, since no other handler runs in between and the loops do not change the registries.
- Concurrency: none exists, since Node runs each handler to completion.
