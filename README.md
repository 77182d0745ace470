# Rock-Paper-Scissors room coordinator

This project models the authoritative part of a two-player Rock-Paper-Scissors
server, written in Dafny. The model covers:

- the process-wide store of rooms, keyed by room code;
- each connection's `joinedRoom`;
- the handlers for the six socket events: `join_room`, `rename`, `player_ready`,
  `make_move`, `reset_scores` and `disconnect`.

A room holds three things:

- its players, with their names and ready flags, in join order;
- the pending move of each player who has moved in the current round;
- a score table with wins, losses and ties per player.

Each handler runs to completion before the next one starts. It returns the
messages it emits:

- `room_state` snapshots;
- `move_locked` notices;
- `round_result` reports;
- `error_msg` texts for the sender.

## Structure

- `wrappers.dfy`: module `Wrappers`, the `Option` type.
- `rules.dfy`: module `Rules`, which holds
  - the three moves and the three outcomes;
  - validation of a `make_move` choice;
  - `computeOutcome`, proved against an independent cyclic definition of "beats".
- `text.dfy`: module `Text`, which holds
  - room-code normalisation (trim, then upper-case);
  - the `"Player"` default name;
  - the 40-character cut applied by `rename`.
- `rooms.dfy`: module `Rooms`, one room as a value.
  - The insertion-ordered players map is modelled as a sequence of `(id, player)` entries. Setting an existing key keeps its position.
  - Each handler's effect on a room is a function of the room before it: `Admit`, `RenamePlayer`, `MarkReady`, `Submit`, `Reset` and `Depart`.
  - Lemmas state what each of these promises.
  - The room invariant `WellFormed` says a room has:
    - at most two players, with distinct ids;
    - score entries for exactly the players;
    - pending moves only from players, and at most one between events.
  - The handlers' step-by-step parts are methods proved equal to those functions:
    - the three score increments of a round (`RecordMove`);
    - the ready-flag loop (`ClearReady`);
    - the score-zeroing loop (`ZeroScores`).
- `server.dfy`: module `Server`, the class `RoomServer`.
  - Its fields `rooms` (code to room) and `joined` (connection to `joinedRoom`) are updated by one method per handler.
  - Every method keeps the store invariant `Valid`:
    - every stored room is well formed and non-empty;
    - every connection's `joinedRoom` names a stored room in which it is a player.
  - Every method states its new state and its emitted events in terms of the room functions.

Rooms are values inside the store's map. A room object is reachable only
through the store, so updating it in place and storing a new value are
equivalent.

Behaviour kept as the source has it:

- `make_move` checks neither membership nor readiness. Under `Valid`, a connection with a `joinedRoom` is always a player of that room.
- A second `join_room` to another code moves `joinedRoom` but never leaves the previous room. The connection stays a player there, and `disconnect` later removes it only from the room `joinedRoom` names.
- A re-join keeps the score entry and resets the ready flag.
- The default name is applied on join without truncation. The 40-character cut happens only on `rename`.
- Round players `p1` and `p2` are taken in join order.

## Model

| member | source | states |
|---|---|---|
| `Rules.ComputeOutcome` | server.js:42-50 | tie exactly when the moves are equal; win exactly when the first move beats the second in the rock, paper, scissors cycle; lose exactly when the second beats the first |
| `Rules.OutcomesComplementary` | server.js:127-128 | the two players' outcomes are opposite (win and lose swap, tie stays); for distinct moves one wins exactly when the other loses |
| `Rules.ParseChoice` | server.js:117 | a move exactly for "rock", "paper" or "scissors", and that move's wire name is the choice |
| `Rules.ParseMoveName` | server.js:117 | every move's wire name is accepted and yields that move |
| `Text.TrimStart` | server.js:66 | removes exactly the leading whitespace: a suffix of the input, preceded only by whitespace, not starting with whitespace |
| `Text.TrimEnd` | server.js:66 | removes exactly the trailing whitespace: a prefix of the input, followed only by whitespace, not ending with whitespace |
| `Text.Trim` | server.js:66 | the result has no whitespace at either end, and is empty exactly when the input is all whitespace |
| `Text.ToUpper` | server.js:66 | same length, each character upper-cased |
| `Text.UpperCharCapital` | server.js:66 | a lower-case ASCII letter becomes the capital at the same position of the alphabet, an independent pairing of the two alphabets |
| `Text.UpperCharSameIff` | server.js:66 | two characters upper-case alike exactly when they are equal or a letter and its own capital |
| `Text.ToUpperSameIff` | server.js:66 | two codes upper-case alike exactly when they have the same length and differ at most in ASCII letter case, so trimmed codes that differ only in letter case open the same room and all other trimmed codes stay different |
| `Text.UpperCharShape` | server.js:66 | upper-casing a character neither creates nor removes whitespace and leaves no lower-case ASCII letter |
| `Text.NormalizeCode` | server.js:66 | the room code of a join: the upper-cased trimmed code, as long as the trimmed code; `NormalizeCodeShape` and `ToUpperSameIff` give its shape and which codes coincide |
| `Text.NormalizeCodeShape` | server.js:66-67 | a normalised code has no whitespace at its ends and no lower-case ASCII letter, and is empty exactly when the raw code is all whitespace (the "Room code required." case) |
| `Text.NormalizeCodeIdempotent` | server.js:66 | normalising a normalised code changes nothing |
| `Text.NameOrDefault` | server.js:86 | never empty: an empty name becomes "Player", and a non-empty name is kept as given |
| `Text.Truncate` | server.js:99 | at most 40 characters, a prefix of its input, the whole input when it has at most 40 characters and exactly 40 otherwise |
| `Rooms.Lookup` | server.js:97 | finds a player exactly when the id is among the keys |
| `Rooms.Put` | server.js:86 | an existing key keeps its position and an absent one is appended; the key maps to the new player; every other key maps as before; distinct keys stay distinct |
| `Rooms.PutTwice` | server.js:109 | setting a key to a value twice is the same as setting it once |
| `Rooms.Delete` | server.js:169 | one entry fewer exactly when the key was present; no new keys; every other key maps as before; in a map without duplicate keys the key is gone |
| `Rooms.DeleteKeepsOrder` | server.js:169 | in a map without duplicate keys, deleting a key keeps every other key in its order |
| `Rooms.EmptyRoomWellFormed` | server.js:74 | a freshly created room satisfies the room invariant |
| `Rooms.MovesAtMostPlayers` | server.js:122 | a well-formed room never holds more pending moves than players |
| `Rooms.RoomSnapshot` | server.js:52-59 | one view per player in join order, with that player's id, name and ready flag, plus the whole score table |
| `Rooms.SnapshotAgreesWithLookup` | server.js:52-59 | every view shows what a lookup of its id finds in the room |
| `Rooms.Admit` | server.js:86-87 | the joiner is seated not ready under the defaulted name, has a score entry, and pending moves are untouched; `AdmitSpec` gives the rest |
| `Rooms.AdmitSpec` | server.js:83-87 | a join into a room with a free seat keeps it well formed; seats the player not ready under `name` or "Player"; appends a new id and keeps the order of a re-joining one; keeps an existing score entry, else creates a zero one; leaves moves and every other player and score untouched |
| `Rooms.RenamePlayer` | server.js:97-99 | ids and their order are kept, and the player reads with the defaulted name cut to 40 characters and its old ready flag; `RenameSpec` gives the rest |
| `Rooms.RenameSpec` | server.js:93-101 | only the renamed player's name changes, to the defaulted name cut to 40 characters; ready flag, order, moves and scores are kept |
| `Rooms.MarkReady` | server.js:107-109 | ids and their order are kept, and the player reads with its old name and ready; `MarkReadySpec` and `MarkReadyIdempotent` give the rest |
| `Rooms.MarkReadySpec` | server.js:103-111 | only the player's ready flag changes, to true; name, order, moves and scores are kept |
| `Rooms.MarkReadyIdempotent` | server.js:109 | readying a player twice is readying once |
| `Rooms.Credit` | server.js:131-133 | one round more on the score entry |
| `Rooms.Tally` | server.js:131-133 | p1 gains the counter its outcome names and p2 the counter of the opposite outcome; no other entry changes and no entry is added |
| `Rooms.UnreadiedKeepsIds` | server.js:143 | clearing ready flags keeps ids, their order and their distinctness, and every player reads as before except not ready |
| `Rooms.Resolve` | server.js:123-143 | a resolved round keeps the ids and their order and the score keys, clears every pending move, and reports opposite outcomes; `ResolutionPayload`, `ResolutionScores` and `ResolutionClears` give the rest |
| `Rooms.Submit` | server.js:119-147 | a recorded move keeps the room well formed |
| `Rooms.SubmitResolvesIff` | server.js:119-122 | a round resolves exactly when the room is full and the other player already has a pending move; otherwise the move overwrites the sender's pending one and only `move_locked` with the sender's id is emitted |
| `Rooms.SubmitKeepsPlayers` | server.js:119-147 | a move never changes who is in the room or in which order |
| `Rooms.ResubmitOverwrites` | server.js:119 | a second move before the round resolves replaces the first (last write wins) and never resolves the round |
| `Rooms.SumOverPair` | server.js:131-133 | the total over a two-player room is the sum of the two entries |
| `Rooms.ResolutionPayload` | server.js:123-139 | `round_result` carries p1 and p2 in join order, both moves (the sender's new one included), p1's outcome from `computeOutcome` and p2's as its opposite, and the updated score table |
| `Rooms.ResolutionScores` | server.js:130-133 | each player gains exactly the counter its outcome names, so one round more each, and the room's wins grow by as much as its losses |
| `Rooms.ResolutionClears` | server.js:141-143 | after a resolved round no move is pending and every player is not ready, with ids, order and names kept |
| `Rooms.Reset` | server.js:154-159 | ids and their order and the score keys are kept, and no move is pending; `ResetSpec` and `ResetIdempotent` give the rest |
| `Rooms.ResetSpec` | server.js:150-161 | after a reset every score entry is zero and no entry is added or removed; no move is pending; nobody is ready; ids, names and order are kept; the room stays well formed |
| `Rooms.ResetIdempotent` | server.js:150-161 | resetting twice is resetting once |
| `Rooms.Depart` | server.js:169-171 | the departing id has no pending move and no score entry left, and every other id reads as before; `DepartLeavesOthers`, `DepartEmptyIff` and `DepartWellFormed` give the rest |
| `Rooms.DepartLeavesOthers` | server.js:169-171 | the departing id leaves players, score table and moves; every other player, score entry and pending move is untouched |
| `Rooms.DepartEmptyIff` | server.js:173 | the room is left empty exactly when the departing id was its only player (or it had none) |
| `Rooms.DepartWellFormed` | server.js:169-171 | a departure keeps the room well formed |
| `Rooms.RecordMove` | server.js:119-147 | the step-by-step move recording, outcome computation, three score increments, move clearing and ready loop give exactly `Submit` |
| `Rooms.ClearReady` | server.js:143 | the ready-flag loop gives every player, in order, with its flag cleared |
| `Rooms.ZeroScores` | server.js:154-156 | the zeroing loop gives the same keys, each with a zero entry |
| `Server.AfterDeparture` | server.js:173-177 | the room stays stored exactly when it still has a player, and then with what is left of it; every other room is untouched and none is added |
| `Server.RoomServer.Valid` | server.js:35-40 | the store invariant (`StoreValid`): every stored room is well formed and non-empty, and every connection's `joinedRoom` names a stored room in which it is a player; in particular every stored room holds one or two players |
| `Server.ReplaceRoom` | server.js:35-40 | writing back a well-formed, non-empty room that still holds all its players keeps the store invariant |
| `Server.JoinKeepsValid` | server.js:83-86 | storing a joined room that holds the joiner and every earlier player, and pointing the joiner's `joinedRoom` at it, keeps the store invariant |
| `Server.DepartKeepsValid` | server.js:164-178 | removing the departing connection, and deleting its room once empty, keeps the store invariant |
| `Server.DepartKeepsRooms` | server.js:173-174 | after a departure every stored room is still well formed and non-empty |
| `Server.DepartKeepsSeats` | server.js:169-174 | after a departure every remaining connection is still a player of the room its `joinedRoom` names |
| `Server.RoomServer.constructor` | server.js:35 | the server starts with no rooms and no joined connections, which satisfies the invariant |
| `Server.RoomServer.JoinRoom` | server.js:65-90 | empty code after normalisation: only "Room code required." to the sender, nothing changes; full room: only "Room is full (2 players max)." to the sender, nothing changes; otherwise `joinedRoom` becomes the code, the existing or a new room is stored with the player admitted, and `room_state` goes to the room |
| `Server.RoomServer.Seat` | server.js:83-89 | the successful half of a join: `joinedRoom` set, the admitted room stored, `room_state` broadcast |
| `Server.RoomServer.Store` | server.js:93-162 | the write-back shared by the `rename`, `player_ready`, `make_move` and `reset_scores` handlers: writing back a room that still holds all its players changes nothing else and keeps the invariant |
| `Server.RoomServer.Rename` | server.js:93-101 | a player of its room is renamed and `room_state` goes to the room; otherwise nothing changes and nothing is emitted |
| `Server.RoomServer.PlayerReady` | server.js:103-111 | a player of its room is marked ready and `room_state` goes to the room; otherwise nothing changes and nothing is emitted |
| `Server.RoomServer.MakeMove` | server.js:113-148 | with a room and a valid choice the sender is a player there, the room becomes the submission's room and its single payload goes to the room; without a room or with an invalid choice nothing changes and nothing is emitted |
| `Server.RoomServer.ResetScores` | server.js:150-162 | the connection's room is reset and `room_state` goes to the room; without a room nothing changes and nothing is emitted |
| `Server.RoomServer.Disconnect` | server.js:164-178 | the departure is applied; an emptied room is deleted with nothing emitted, otherwise the rest is stored and `room_state` goes to the room; without a room nothing changes and nothing is emitted |

## Left out

- Express static hosting, the health endpoint, CORS and environment parsing, socket.io server options and listening (server.js:1-32, 181-185). These are I/O and configuration.
- Transport. `socket.emit` and `io.to(code).emit` become returned `Event` records addressed to the sender or to a room code. Membership of socket.io's own broadcast rooms (`socket.join`, server.js:84) is not modelled separately from the code in the event.
- Concurrency. The event loop runs one handler at a time, and the model is a sequence of method calls.
- Dynamic typing of inbound payloads. `String(...)` coercion and falsy non-string values are not modelled: room codes, names and choices are already strings, and the empty string is the only falsy one.
- Unicode. `toUpperCase` is modelled for ASCII letters only; other characters are left as they are. `trim` uses the full ECMAScript whitespace set. `slice(0, 40)` counts Dafny characters, not UTF-16 code units.
- Number precision. Score counters are unbounded naturals; JavaScript numbers lose precision only beyond 2^53 rounds.
- Server.RoomServer.Disconnect: drops the departing connection's `joinedRoom` entry. In the source that variable dies with the connection's closure, and socket ids are never reused.
- Rooms.Submit: requires the submitter to be a player of the room. The source does not check this, but `Valid` guarantees it for every connection with a `joinedRoom`, and `MakeMove` proves it before calling.
- The branches where a `joinedRoom` names no stored room (server.js:96, 106, 116, 153, 167) are modelled as no-ops. `Valid` proves them unreachable.
- The browser client `public/app.js` is not part of this model. It covers UI rendering, random room codes and the client-side best-of display.
