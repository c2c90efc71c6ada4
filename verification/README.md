# Sjadam relay: a Dafny model

This project models the real-time core of the Sjadam game server
(`app.js`). The server pairs two players per game and relays their moves.
Its state is the `games` dictionary from game id to participant count and
the `sockets` array of `{socket, gameId}` records. Three socket.io handlers
work on that state: `join`, `data` and `disconnect`. A helper,
`emitToGame`, broadcasts to a game only when it has exactly two
participants. The `data` handler mirrors board coordinates (`7 - v`) so
that each player sees the board from their own side. The project also
models the three request validators registered next to the handlers:
`isColor`, `isUuidV4` and `isGameId`.

Modules:

- `Wrappers` (wrappers.dfy): `Option`, where `None` stands for `undefined`.
- `Wire` (wire.dfy): inbound payloads (`Data`) and outbound payloads
  (`Message`) as closed datatypes, plus the pure payload rewrite.
- `Validators` (validators.dfy): the validators. The two regular
  expressions are anchored runs of bracket expressions with fixed counts,
  so they are modelled by a matcher for exactly that shape. The
  case-insensitive flag is part of the matcher.
- `Registry` (registry.dfy): the bookkeeping as values. It holds the
  count/record invariant, what each handler sends as a function of the
  state, and the lemmas about them.
- `Relay` (relay.dfy): the handlers as methods of a `Server` class. The
  class has fields `games`, `sockets`, `outbox` (every emit, in order) and
  `deletions` (the game ids whose database record removal was requested).
  `Connection` holds the per-connection `gameId` that the first join sets.

The model follows app.js rather than an idealised relay:

- A game has no cap at two players. A third join raises the count to 3,
  and the broadcast gate is shut while the count exceeds 2 (`Registry.JoinBeyondTwo`).
- A repeated join on the same connection pushes another record under the
  first game id.
- An unknown `type` is forwarded as `{type}` and is not dropped.
- Where the opponent-disconnect target goes wrong, see Findings.

## Model

| member | source | states |
|---|---|---|
| `Wire.Mirror` | app.js:62-70 | a coordinate is on the 8x8 board exactly when its mirror is |
| `Wire.MirrorInvolutive` | app.js:62-70 | mirroring twice gives back the coordinate |
| `Wire.MirrorPromotion` | app.js:67-72 | a promotion is present in the output exactly when it is in the input, and the piece is kept |
| `Wire.Rewrite` | app.js:57-84 | only a rematch acceptance becomes a restart; every forwarded payload keeps the inbound `type`; a payload with on-board squares is forwarded with on-board squares |
| `Wire.RemoveMirrored` | app.js:57-63 | a removal is forwarded with x and y mirrored |
| `Wire.FieldsCopied` | app.js:57-78 | history is forwarded with its notation unchanged, game-over with `colorWon` and `quit` unchanged, and a payload of any other type as just that `type` |
| `Wire.MoveMirrored` | app.js:62-72 | a move is forwarded with x, y, dX, dY and the promotion square mirrored, the promotion present only if it was sent, and its piece unchanged |
| `Wire.RelayTwice` | app.js:57-78 | relaying any payload except a rematch acceptance, then sending the result back unchanged, gives back the original payload |
| `Validators.MatchesPositionwise` | app.js:149-157 | an anchored pattern of repeated bracket expressions matches exactly the strings of its length whose every character is in the class of its position |
| `Validators.ColorLayout` | app.js:139-144 | `isColor` holds exactly for the one-character strings "w" and "b", and not for undefined |
| `Validators.UuidV4Layout` | app.js:145-151 | `isUuidV4` holds exactly for 36-character strings with '-' at 8, 13, 18 and 23, '4' at 14, one of 8, 9, a, b, A, B at 19 and hexadecimal digits in either case elsewhere; it is false for undefined |
| `Validators.GameIdLayout` | app.js:152-158 | `isGameId` holds exactly for 10-character strings over 0-9 and a-z, and not for undefined |
| `Registry.First` | app.js:87-92 | the search loop's result is the first index whose record is accepted, or none when no record is |
| `Registry.SendAll` | app.js:27-31 | the loop of `emitToGame` sends one message per record of the game |
| `Registry.SendAllTargets` | app.js:27-31 | every such message carries the payload and goes to a record of the game, and every record of the game gets one |
| `Registry.Broadcast` | app.js:25-32 | `emitToGame` sends nothing unless the game's count is exactly 2, and only the given payload |
| `Registry.BroadcastGate` | app.js:25-32 | with counts matching records, the broadcast is non-empty exactly at count 2; it then holds exactly two messages, reaches every record of the game and no other connection |
| `Registry.Route` | app.js:54-93 | a rematch acceptance yields exactly the restart broadcast of `Broadcast`: "restart" messages only, none unless the count is 2, and at count 2 one to every record of the game; any other payload yields at most one message, sent exactly when another connection has a record of the sender's game; it goes to the first such record and carries the rewritten payload |
| `Registry.RemoveAt` | app.js:127 | `splice(i, 1)` keeps the elements before i and shifts the later ones down by one |
| `Registry.OccurrencesRemoveAt` | app.js:127 | splicing out a record lowers its game's record count by one and leaves every other game's count alone |
| `Registry.JoinKeepsConsistent` | app.js:45-47 | appending a record and adding one to its game's count keeps the invariant "count = number of records, and no key with count 0" |
| `Registry.JoinBeyondTwo` | app.js:46-50 | a join on a game of two raises its count to 3, keeps the invariant, and broadcasts nothing |
| `Registry.Decrement` | app.js:104-123 | the game loses one participant, its key disappears when the count reaches 0, and no other game changes |
| `Registry.LeaveKeepsConsistent` | app.js:99-128 | the leaving record's game has a positive count; splicing the record out and decrementing its game keeps the invariant; at count 0 no record of the game is left |
| `Registry.Notify` | app.js:106-111 | corrected: the "opponent-dc" notice goes to a record of the game held by another connection, and it is empty exactly when no such record exists |
| `Registry.LeaveAtTwoNotifiesOther` | app.js:104-111 | when one of two participants leaves, the game has exactly one other record, and the notice goes to it unless the same connection also holds it |
| `Registry.WrittenOpponent` | app.js:109-111 | as written: the target is the connection of the record at index 1 - i, which exists only for i of 0 or 1 with the array long enough, and is never the leaving record |
| `Registry.WrittenOpponentAgrees` | app.js:106-111 | when the array holds exactly the two records of one game, held by two connections, index 1 - i is the other player |
| `Registry.WrittenOpponentMisroutes` | app.js:106-111 | with games g1 and g2 interleaved, A1 leaving g1 makes app.js warn A2 of g2, while the corrected notice goes to B1 |
| `Registry.WrittenOpponentThrows` | app.js:104-128 | when the leaving record is at index 2, index 1 - i is outside the array, so app.js throws; the count, already decremented, then no longer matches the records, which still hold the leaver; the corrected notice reaches the remaining player |
| `Relay.Connection.constructor` | app.js:34-36 | a new connection has no game id yet |
| `Relay.Server.constructor` | app.js:23 | the relay starts with no games, no records and nothing sent |
| `Relay.Server.EmitToGame` | app.js:25-32 | appends exactly the messages of `Broadcast` to the outbox and changes nothing else |
| `Relay.Server.FindPeer` | app.js:87-92 | returns the index of the first record of the game held by another connection, or none |
| `Relay.Server.FindOwn` | app.js:99-100 | returns the index of the first record of the game held by this connection, or none |
| `Relay.Server.OnJoin` | app.js:43-52 | the first join fixes the connection's game id; each join appends one record under it and adds one to its count, with no upper bound; "ready" goes to the game exactly as `Broadcast` says; the invariant is kept |
| `Relay.Server.OnData` | app.js:54-93 | appends exactly what `Route` says for the payload and changes nothing else |
| `Relay.Server.OnDisconnect` | app.js:95-131 | with no record of this connection nothing changes; otherwise its first record is spliced out and its game decremented, "opponent-dc" is sent as `Notify` says when one participant remains, and at zero the game's removal is requested; the invariant is kept |

## Findings

| source | as written | input that shows it | evidently intended | confidence | as-written member | corrected member |
|---|---|---|---|---|---|---|
| app.js:109-111 | the "opponent-dc" target is `sockets[1 - i]`, i being the leaving record's index | records [A1:g1, A2:g2, B1:g1, B2:g2] and A1 disconnects: i = 0, so A2 of game g2 is told its opponent left, and B1 of g1 is never told | notify the remaining record of the same game | high (not executed) | `Registry.WrittenOpponent`, `Registry.WrittenOpponentMisroutes` | `Registry.Notify`, used by `Relay.Server.OnDisconnect` |
| app.js:104-127 | the count is decremented before `sockets[1 - i].socket` is read, and the splice comes after that read | records [X:h, A:g, B:g] and B disconnects: i = 2 and `sockets[-1]` is undefined, so the handler throws; g's count is already 1, B's record is never spliced out, and A is not told | splice the record, keep count and records in step, notify A | high (not executed) | `Registry.WrittenOpponent`, `Registry.WrittenOpponentThrows` | `Registry.Notify` and `Registry.LeaveKeepsConsistent`, used by `Relay.Server.OnDisconnect` |

## Left out

- Express bootstrap, middleware, the CORS, cookie and body parsers, logging and the static fallback response (app.js:1-19, 134-137, 160-171) carry no logic.
- The HTTP routes `./routes/game` and `./routes/join` are not part of this model.
- socket.io transport and delivery: an emit is an append to `outbox`. Delivery and ordering across connections are not modelled.
- The MongoDB removal on teardown is an asynchronous foreign call. It is recorded as a request in `deletions`; its outcome is not modelled.
- The `error` handler that rethrows (app.js:38-41) is exception plumbing.
- Concurrency: each handler runs to completion on the event loop, so handlers are sequential methods.
- JavaScript coercions are not modelled:
  - a `join` with an undefined id;
  - the key "undefined" that `games[undefined]` reads;
  - non-numeric coordinates, which `7 - v` turns into NaN;
  - missing payload fields;
  - non-string values given to the validators;
  - game ids that name an inherited `Object.prototype` member ("constructor", "toString", "__proto__" and the like): for these `games[id] == undefined` is false on the first join, so `++` yields NaN or, for `__proto__`, has no effect, and the count never equals 2, so "ready" and "restart" are never sent. The socket `join` does not validate its id, and the model's `games` map starts every key at no entry.
  Ids and payload fields are strings, integers and booleans, and an undefined game id is `None`.
- `Relay.Server.OnDisconnect`: models the corrected target (see Findings), not app.js's `sockets[1 - i]` and its TypeError. The as-written behaviour is in `Registry.WrittenOpponent`.
