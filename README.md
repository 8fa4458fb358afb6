# Chat relay roster and broadcast — a Dafny model

This project models the backend of a small real-time chat relay
(`backend/server.js`). The backend keeps one shared roster of participants
(`userState`, an array of `{id, name}` records). Three kinds of event act on
that roster:

- **Registration.** `POST /new-user` refuses a body with no keys (400). It
  refuses a name that an entry already carries (409). Otherwise it appends a
  new participant and returns it (200).
- **Inbound channel frames.** These are dispatched on `type`. An `exit` frame
  splices out the first entry with the user's name and then pushes the new
  roster. A `send` frame relays its own bytes, with the same binary flag. Any
  other type does nothing.
- **A new connection.** This pushes the current roster.

Every push goes to exactly those connected clients whose `readyState` is
OPEN. The other clients are skipped.

Node runs each handler to completion, so each handler is modelled as one
atomic method of the class `Relay.Server`. That class holds the roster as a
`seq<Participant>` and the connected clients as a `seq<Client>`. Each client
has an open flag and an outbox.

Files:

- `wrappers.dfy`: `Option`.
- `roster.dfy`: the participant record, the `find`/`findIndex` lookups, the
  splice, and what an `exit` does to the roster. An independent recursive
  definition of "remove the first match" is proved equal to the splice. The
  lemmas about uniqueness, ordering and idempotence are also here.
- `broadcast.dfy`: the fan-out rule as a function on the client list. The
  lemmas say that each OPEN client gets the payload exactly once and no other
  client gets it.
- `server.dfy`: the server class with one method per event. It also has four
  client methods, `Session`, `Chat`, `Leave` and `NamelessRegistration`.
  They show what the contracts let a caller conclude about the end-to-end
  behaviour.

The model follows the code where the code departs from the documented
contract:

- The documented 400 reply says "Invalid request body!", but the code
  answers 400 with "This name is already taken!" (`backend/server.js:44`).
  The model uses the code's text.
- The documented contract rejects a missing or empty name. The code only
  checks that the body has at least one key (`backend/server.js:41`). So
  `{"name": ""}` registers a participant with an empty name. A body such as
  `{"nick": "x"}` registers a participant whose name is `undefined`, and the
  model writes that name as `None`. A later body without `name` is then
  refused with 409.
- The documented preflight status is 200, but the code configures 204
  (`backend/server.js:18`). That status is CORS configuration and is not
  modelled.

## Model

| member | source | states |
|---|---|---|
| `Roster.FindIndex` | backend/server.js:80-82 | The result is -1 exactly when no entry has the name. Otherwise the entry at that position has the name and no earlier entry does. |
| `Roster.Find` | backend/server.js:50 | The result is absent exactly when no entry has the name. Otherwise it is the roster entry at the first matching position. |
| `Roster.DeleteAt` | backend/server.js:84 | After `userState.splice(k, 1)` the array has one entry fewer. Entries before `k` keep their positions and entries after `k` move down by one. The removed entry that `splice` returns is discarded by the handler. |
| `Roster.Exit` | backend/server.js:80-85 | If no entry has the name, the roster is returned unchanged (`idx === -1`). Otherwise exactly one entry is removed. |
| `Roster.RemoveFirst` | backend/server.js:80-85 | This is the reference definition of removing the first entry with a name. One entry is removed exactly when the name is present. |
| `Roster.ExitIsRemoveFirst` | backend/server.js:80-85 | The `findIndex` + `splice` that the handler performs equals the reference removal for every roster and name. Only the first match goes, and the other entries keep their order. |
| `Roster.ExitMultiset` | backend/server.js:83-85 | The removal keeps every other entry as often as before. When the name is present, exactly the entry at the first match is taken out. When it is absent, nothing is taken out. |
| `Roster.DeleteAtKeepsUnique` | backend/server.js:84 | Deleting any single entry keeps names unique and keeps ids unique. |
| `Roster.ExitKeepsUnique` | backend/server.js:80-85 | An `exit` keeps the no-duplicate-name invariant and the no-duplicate-id invariant. |
| `Roster.ExitRemovesName` | backend/server.js:80-88 | When names are unique, the roster after an `exit` (the snapshot that is broadcast) has no entry with the exited name. |
| `Roster.ExitIdempotent` | backend/server.js:80-85 | When names are unique, a second `exit` for the same name leaves the roster unchanged. |
| `Roster.ExitTwiceWithDuplicates` | backend/server.js:80-85 | If names were not unique, a second `exit` would remove the next entry with that name. So idempotence depends on the invariant. |
| `Roster.AppendKeepsUnique` | backend/server.js:50-56 | Appending an entry whose name is absent and whose id is fresh keeps names unique and ids unique. |
| `Broadcast.DeliverAll` | backend/server.js:86-88 | The filter-then-`forEach` fan-out keeps one client record per connected client. |
| `Broadcast.DeliverAllAt` | backend/server.js:86-88 | The fan-out acts on each client independently of the others. |
| `Broadcast.DeliveredOnceToEachOpen` | backend/server.js:86-88 | Each open flag is kept, and an outbox is only ever appended to. Each OPEN client gets the payload exactly once, and a client that is not OPEN gets nothing. Per client this is `DeliverTo`, the `o.send(m)` guarded by the `readyState === OPEN` filter. |
| `Broadcast.ReachesExactlyOpen` | backend/server.js:93-95 | The clients whose outbox changes are exactly the OPEN clients. |
| `Broadcast.DeliverKeepsOpen` | backend/server.js:100-102 | A broadcast leaves the set of OPEN clients unchanged. |
| `Relay.Server.constructor` | backend/server.js:35 | The server starts with an empty roster and no clients. The invariant holds. |
| `Relay.Server.Register` | backend/server.js:40-71 | A body with no keys (`Body.KeyCount`, the model of `Object.keys(request.body).length`, is 0) gets 400 with "This name is already taken!". A name already present gets 409 with the same text. Otherwise the reply is 200 with the new participant, which is appended at the end of the roster. In the two refused cases the roster is unchanged. Clients are never touched, and name and id uniqueness are preserved. |
| `Relay.Server.Broadcast` | backend/server.js:86-88 | The loop leaves the clients equal to `DeliverAll` of the old clients and the payload. Nothing else changes. |
| `Relay.Server.HandleFrame` | backend/server.js:76-98 | `exit`: the new roster is the reference removal of the first match, it has no entry with that name, and every OPEN client gets that post-removal snapshot. `send`: the roster is unchanged, and every OPEN client gets the raw bytes with the original binary flag. Any other type changes nothing. Uniqueness is preserved. |
| `Relay.Server.Connect` | backend/server.js:100-102 | The new OPEN client is appended, and the current roster snapshot goes to every OPEN client. The new client's outbox is exactly that one snapshot. The roster is unchanged. |
| `Relay.Server.Close` | backend/server.js:75-103 | A transport close clears only that client's open flag. No handler reacts to it, so the roster keeps a participant who left without sending `exit`. |
| `Relay.Session` | backend/server.js:40-71 | Starting from an empty server, the returned replies are: "alice" registered with 200, a second "alice" refused with 409, an empty body refused with 400, and "bob" registered with 200. The roster ends as exactly those two participants, in that order. |
| `Relay.Chat` | backend/server.js:92-102 | Two clients connect and the first sends a text frame. The first client's outbox is two roster snapshots and then the relayed bytes. The second client's outbox is one snapshot and then the relayed bytes. The roster is unchanged. |
| `Relay.Leave` | backend/server.js:79-88 | Bob's socket closes, and then alice sends `exit`. The roster becomes bob alone. Only alice's still-open client gets that snapshot, and bob's client is left as it was. |
| `Relay.NamelessRegistration` | backend/server.js:41-56 | A body with keys but no `name` registers a participant without a name. A second such body gets 409, and `{"name": ""}` registers normally. |

## Left out

- HTTP plumbing is not modelled: Express routing, `bodyParser` JSON parsing, the Content-Type middleware and the CORS setup (`backend/server.js:10-33, 38`). The model starts from a parsed body. A `name` that JSON parses to `null`, a number or an object is not modelled; only a string or an absent field is. An array body is not modelled either.
- `JSON.parse` of inbound frames is not modelled. Frames arrive already decoded as `Frame`, together with their raw bytes and binary flag. The throwing paths of the handler are not modelled: a frame that is not JSON (`backend/server.js:77`), the JSON value `null` as a frame (`receivedMSG.type` throws, `backend/server.js:79`), and an `exit` frame whose `user` is missing or `null` (`.name` throws, `backend/server.js:81`). Nothing in the handler catches these exceptions.
- `Relay.Server.Register`: requires the injected id to differ from every id in the roster. This stands in for `randomUUID`, which is not modelled.
- The WebSocket transport is reduced to an open flag and an outbox per client. The handshake, the CONNECTING and CLOSING states, removal of closed sockets from `wsServer.clients`, and the actual send I/O are not modelled. Frame serialisation is also left out: a roster snapshot is kept as a value, not as `JSON.stringify` text.
- Logging through pino and the server bootstrap and port handling (`backend/server.js:105-117`) are not modelled.
- `frontend/src/index.js` is not part of this model. It is browser UI.
- Concurrency is not modelled. Each handler runs to completion on Node's single event loop, so the model is a sequential transition system.
