# Social-deduction party game server: the session engine, modelled in Dafny

This project models the in-memory game-session engine of the FastAPI server in two variants:

- `fastapi_server/app.py`, the complete variant;
- `fastapi_server/app2.py`, the reconnection variant.

A game ("session") has these parts:

- a map from client id to connection, where each connection is a FIFO outbox of update events;
- a player roster and a set of spectators;
- an `in_progress` flag and a phase;
- an optional "idle since" timestamp.

A process-wide registry maps game names to games. `create_game` refuses duplicate names. An inactivity timer reaps a game that has stayed idle for too long.

Every session operation runs as one atomic step: its only `await`s are puts on unbounded queues, which never suspend. So each operation is a pure function from state to state. It returns `Result` where the source raises an `HTTPException`, and it takes the current time as a `nat` tick count.

Modules:

- `Wrappers` holds `Option` and `Result`.
- `Common` holds the client id, the clock and the error kinds, with their messages.
- `Channel` holds the update shapes (`message`, `phase_update`, `player_update`) and the FIFO outbox.
- `Registries` holds the name → game registry and the reaper's decision. It is shared by both variants and generic in the game type.
- `Phases` holds the app.py phases: the `type` validator and the event → handler dispatch table of each phase.
- `Session` holds the app.py `Game`: `connect`, `disconnect`, `join`, `handle_post` and the roster. It also has a request-stream runner.
- `Server` holds the app.py `create_game` and the inactivity timer.
- `Reconnect` holds the app2.py `Game`, with parked connections. It contains the as-written members for the two defects under "Findings" next to the corrected ones.
- `ReconnectServer` holds the app2.py `create_game` and the inactivity timer, with as-written members for their `db.Game` defect under "Findings".

Two behaviours of the code worth knowing:

- In app.py, `join` sends no update to anyone. A player's join is therefore not announced until some client that is already a player connects again (`Session.KaasOutboxes`).
- The reaper deletes a game only when strictly more than `seconds` ticks have passed (`>`, app.py:287-288, app2.py:131-132), not "at least".

## Model

| member | source | states |
|---|---|---|
| Channel.Get | fastapi_server/app.py:167-168 | `get` yields nothing exactly on an empty queue; otherwise the oldest update, and head plus rest is the queue |
| Channel.Put | fastapi_server/app.py:170-174 | `put` never reorders: the consumer receives every pending update, in order, and then the new one; on an empty queue the new update is next |
| Channel.FirstInFirstOut | fastapi_server/app.py:165-174 | after any sequence of puts the consumer receives everything that was pending first, then the new updates in put order, and nothing else |
| Channel.TakePrefix | fastapi_server/app.py:167-168 | draining as many updates as a queue's first part holds returns exactly that part and leaves the rest |
| Channel.PutAllAppends | fastapi_server/app.py:170-174 | successive puts append the updates in order |
| Session.Connection.SendMessage | fastapi_server/app.py:170-171 | an update tagged `message` with retry 5 is delivered after everything already pending |
| Session.Connection.SendPlayerUpdate | fastapi_server/app.py:173-174 | an update tagged `player_update` with the roster and retry 5 is delivered after everything already pending |
| Session.NewGame | fastapi_server/app.py:184-192 | a new game has no connections, players or spectators, is not in progress, is in the lobby, is idle from its creation, and satisfies the session invariant |
| Session.MarkActive | fastapi_server/app.py:206-207 | the game is not idle and nothing else changes |
| Session.MarkInactive | fastapi_server/app.py:209-210 | the game is idle from `now` and nothing else changes |
| Session.GetPlayerInfo | fastapi_server/app.py:212-214 | a roster exists exactly for connected clients, and it is the roster of all players |
| Session.RosterListsEveryPlayer | fastapi_server/app.py:212-214 | the roster has one line per player, every player appears in it, and line i is the i-th player to join with role "unknown" and both flags false |
| Session.SendPlayerUpdateToAll | fastapi_server/app.py:220-222 | every connection, and no other, gets the roster appended behind its pending updates; nothing else changes |
| Session.Connect | fastapi_server/app.py:224-238 | a connected id is refused with "ID already in use"; otherwise exactly one connection is added and the game is not idle. The new outbox holds the welcome message and then the roster. All other outboxes get the roster if the id is a player and are untouched otherwise. Nothing else changes |
| Session.PlayerConnectAnnounced | fastapi_server/app.py:234-235 | when a player connects, every connection, the new one included, has that roster as its newest update |
| Session.Disconnect | fastapi_server/app.py:240-250 | an unknown id changes nothing. A known id loses its connection and spectator seat, and loses its player record only outside a game. The game is idle from `now` exactly when no connection is left. A removed player is cut out of the roster order at its index, and the others keep their order |
| Session.PlayerLeavesRoster | fastapi_server/app.py:246-248 | outside a game the roster after a player leaves is the old roster with that player's line cut out, so everybody else keeps their relative order |
| Session.DisconnectForgets | fastapi_server/app.py:240-248 | outside a game, a client that leaves keeps no connection, player record or spectator seat |
| Session.PlayerDropsInProgress | fastapi_server/app.py:246-248 | during a game a player that leaves keeps its record and its place in the roster |
| Session.PlayerRejoinsInProgress | fastapi_server/app.py:224-248 | during a game a player that leaves and connects again is accepted; players, roster and connected ids are as before |
| Session.ConnectThenDisconnect | fastapi_server/app.py:224-250 | a non-player that connects and leaves restores the game exactly, except that a game it left empty is idle from `now` |
| Session.Join | fastapi_server/app.py:252-258 | only a connected client with no role changes anything. `spectator` adds a seat. `player` adds `Player(name)` (alive, no lover, no role) only outside a game. Existing players are untouched. The roster order gains the new player at its end exactly when a player record is added, and is unchanged in every other case; nothing else changes |
| Session.JoinAppendsToRoster | fastapi_server/app.py:252-258 | a player that joins is appended to the end of the roster and nobody else moves |
| Session.JoinPreservesValid | fastapi_server/app.py:252-258 | `join` keeps the invariant: no client is both player and spectator, and the roster order lists each player once |
| Session.HandlePost | fastapi_server/app.py:260-266 | an unconnected id is refused with "You are not connected to this game". `join` goes to `Join`. Any other event succeeds, without change, exactly when the phase declares its handler, and otherwise fails with "Invalid event name" |
| Session.ConnectPreservesValid | fastapi_server/app.py:224-238 | `connect` keeps the session invariant |
| Session.DisconnectPreservesValid | fastapi_server/app.py:240-250 | `disconnect` keeps the session invariant, including "idle exactly when nobody is connected" |
| Session.HandlePostPreservesValid | fastapi_server/app.py:260-266 | `handle_post` keeps the session invariant |
| Session.RunPreservesValid | fastapi_server/app.py:224-266 | any stream of connects, disconnects and posts, refused ones included, keeps the session invariant |
| Session.KaasScenario | fastapi_server/app.py:224-258 | two clients connecting to "kaas" and joining as Anna and Bram end in the expected game |
| Session.KaasOutboxes | fastapi_server/app.py:233-237 | in that scenario the first client holds only the welcome and an empty roster, the second the welcome and Anna's roster; the roster is Anna then Bram |
| Phases.CheckType | fastapi_server/app.py:126-133 | a missing type becomes the class's tag, the class's own tag is kept, any other value is refused with "wrong phase type" |
| Phases.CheckTypeSeparatesClasses | fastapi_server/app.py:126-133 | a saved tag validates as its own class and no other, and validation is idempotent |
| Phases.Dispatch | fastapi_server/app.py:135-140 | an event reaches a handler exactly when the phase declares it, and otherwise fails with "Invalid event name" |
| Phases.DispatchAcceptsOnlyDeclared | fastapi_server/app.py:143-153 | the lobby accepts exactly `start` and the game start phase accepts nothing |
| Registries.Create | fastapi_server/app.py:336-345 | a registered name is refused with "already exists"; otherwise exactly one game is added under that name, and recorded, with every other game unchanged |
| Registries.Fire | fastapi_server/app.py:287-291 | after the wait the game is deleted, with its record, exactly when it is still idle and strictly more than `seconds` have passed; no other game is touched |
| Registries.Timer | fastapi_server/app.py:282-294 | a timer armed on a game that is missing or active does nothing; otherwise the decision after the wait is `Fire`'s: an expired game is removed together with its own durable record, and every other game and record stays |
| Registries.CreateThenFire | fastapi_server/app.py:336-345 | a game created under a fresh name and already expired when a timer armed right after its creation fires is reaped, and the registry is exactly as before the creation |
| Registries.ReactivatedGameSurvives | fastapi_server/app.py:287-288 | a game that is active again when the timer fires, or idle again for at most `seconds`, is never deleted |
| Registries.TimerKeepsBacked | fastapi_server/app.py:289-291 | reaping deletes the game and its saved record together |
| Server.CreateGame | fastapi_server/app.py:336-345 | `create_game` registers a fresh idle lobby under a new name and adds exactly one record, its own, or refuses a duplicate name |
| Server.InactivityTimer | fastapi_server/app.py:282-294 | the timer changes the registry only for a game that was idle when armed and is idle for strictly more than `seconds` when it fires, and such a game is always removed, with its record; no other game is touched |
| Server.CreatePreservesValid | fastapi_server/app.py:336-345 | `create_game` keeps every game under its own name, valid and recorded |
| Server.TimerPreservesValid | fastapi_server/app.py:282-294 | reaping keeps the registry invariant |
| Server.DuplicateCreateRefused | fastapi_server/app.py:338-339 | creating a name twice refuses the second attempt and keeps the first game |
| Server.ConnectDuringWaitSavesGame | fastapi_server/app.py:224-232 | a game someone connected to during the wait is not reaped |
| Server.CreateThenReap | fastapi_server/app.py:336-345 | a game nobody connects to is reaped by the timer `create_game` arms once more than 30 ticks have passed, leaving the registry as before the creation |
| Server.LastLeaveThenReap | fastapi_server/app.py:375-377 | when the last client leaves, a 30-tick timer armed then on the idle game reaps it if nothing happens before it fires |
| Server.ReapNeedsFullTimeout | fastapi_server/app.py:240-250 | a game whose last client left at `left` survives every timer firing at most `seconds` later |
| Reconnect.PhasePost | fastapi_server/app2.py:55-66 | an event reaches a handler exactly when the phase declares it, and otherwise fails with "Invalid event name" |
| Reconnect.LobbyAcceptsOnlyJoin | fastapi_server/app2.py:64-66 | the lobby accepts exactly `join` |
| Reconnect.NewConnection | fastapi_server/app2.py:73-77 | a new connection carries its id, has an empty outbox and is live |
| Reconnect.NewGame | fastapi_server/app2.py:84-89 | a new game has no connections, is not in progress, is in the lobby, is idle from its creation, and satisfies the invariant |
| Reconnect.Connect | fastapi_server/app2.py:91-107 | outside a game a known id is refused with "ID already in use". During a game a live one is refused with "ID is already connected". A parked connection is made live with its outbox intact, and a new id gets a new live connection. Every success leaves the game not idle with only that entry changed |
| Reconnect.Disconnect | fastapi_server/app2.py:109-118 | an unknown id changes nothing. A known id's connection stops being live. It is deleted outside a game and kept during one, so the id set never shrinks in a game. The game is idle from `now` exactly when no stored connection is live |
| Reconnect.HandlePost | fastapi_server/app2.py:120-123 | an id with no stored connection is refused; otherwise only `join` succeeds, without change, and any other event fails with "Invalid event name" |
| Reconnect.ConnectPreservesValid | fastapi_server/app2.py:91-107 | `connect` keeps the invariant: idle exactly when no connection is live, entries under their own ids, parked entries only during a game |
| Reconnect.DisconnectPreservesValid | fastapi_server/app2.py:109-118 | `disconnect` keeps the same invariant |
| Reconnect.DropThenReconnect | fastapi_server/app2.py:95-118 | during a game a client that leaves and connects again gets back exactly its old connection and outbox, and the game is as before |
| Reconnect.DropThenConnectAgain | fastapi_server/app2.py:92-94 | outside a game a connected id is refused, and the same id is accepted as a new connection once it has left |
| Reconnect.ConnectAsWritten | fastapi_server/app2.py:91-107 | as written, a known id during a game always fails with a missing `connected` attribute; in every other case it behaves as intended |
| Reconnect.ReconnectAsWrittenFails | fastapi_server/app2.py:95-98 | a parked connection that the intended `connect` takes back is refused as written |
| Reconnect.DisconnectAsWritten | fastapi_server/app2.py:109-118 | as written, the connection is parked or deleted. The AttributeError for `connected` on a UUID is raised exactly when some connection is left, in which case the timestamp is unchanged; otherwise the game is idle from `now`. The name, the in-progress flag and the phase are unchanged |
| Reconnect.DisconnectAsWrittenNeverIdles | fastapi_server/app2.py:111-118 | during a game the as-written `disconnect` always raises and never marks the game idle; the intended one does once no other connection is live |
| Reconnect.LastClientLeavesInProgress | fastapi_server/app2.py:117-118 | the sole live client leaving a game in progress leaves it marked active as written, and idle as intended |
| ReconnectServer.CreateGame | fastapi_server/app2.py:185-198 | `create_game` registers a fresh idle lobby with no connections under a new name and adds exactly one row, its own, or refuses a duplicate name. This is the intended behaviour, with the mapped `Game` class in place of `db.Game` (see "Findings") |
| ReconnectServer.InactivityTimer | fastapi_server/app2.py:126-141 | the timer changes the registry only for a game that was idle when armed and is idle for strictly more than `seconds` when it fires, and such a game is always removed, with its row; no other game is touched. This is the intended behaviour, with the mapped `Game` class in place of `db.Game` (see "Findings") |
| ReconnectServer.CreatePreservesValid | fastapi_server/app2.py:185-198 | `create_game` keeps every game under its own name, valid and backed by a row |
| ReconnectServer.TimerPreservesValid | fastapi_server/app2.py:126-141 | reaping keeps the registry invariant |
| ReconnectServer.CreateThenReap | fastapi_server/app2.py:185-198 | a game nobody connects to is reaped, with its row, by the timer `create_game` arms once more than 30 ticks have passed, leaving the registry as before |
| ReconnectServer.CreateGameAsWritten | fastapi_server/app2.py:186-193 | as written, a duplicate name is refused as intended, and every other call fails with the AttributeError on `db.Game` at line 192, so nothing is registered |
| ReconnectServer.InactivityTimerAsWritten | fastapi_server/app2.py:126-137 | as written, the registry never changes: exactly when the intended timer would reap, the row delete fails with the AttributeError on `db.Game` at line 135, before `del games[...]` |
| ReconnectServer.CreateAsWrittenNeverRegisters | fastapi_server/app2.py:186-198 | for a new name the intended `create_game` registers the game, while the code as written raises and registers nothing |
| ReconnectServer.ExpiredGameKeptAsWritten | fastapi_server/app2.py:126-137 | a game armed idle and expired when the timer fires is removed by the intended timer, while the code as written raises and keeps it |
| ReconnectServer.StrandedGameNeverReaped | fastapi_server/app2.py:109-141 | a game whose only client drops during play is never reaped as written, but is reaped as intended once the timeout has passed |

## Left out

- The HTTP and server-sent-event endpoints, `event_generator`, cookies, `depends_id_obj` and `depends_game_obj` are transport plumbing. Client ids are opaque 128-bit values, and UUID parsing and generation are not modelled.
- `get_games` and `game_json` only read the registry.
- `save_json`, `delete_json`, the SQLAlchemy writes and the startup recovery are file and database I/O. In app2.py the startup query `select(db.Game)` (line 153) fails with the same AttributeError as the other two uses of `db.Game` (see "Findings"). Because the startup recovery is left out, that failure is not modelled. Saved records are the set `Registry.stored`, so the saved content is not modelled. Note that a game restored from a file can list players with no connection.
- asyncio scheduling, `asyncio.sleep` and task creation are not modelled. The timer restored games get at startup (60 ticks) goes with the startup recovery. A timer is its decision at the moment it fires, given the registry when it was armed and the registry when it fires. Game identity is by name.
- `datetime` values are whole ticks.
- Logging and `print` calls are not modelled.
- `Connection.listen_for_updates` suspends on an empty queue. It is modelled as `Get` returning None.
- No session transition models a stream reading its outbox. So the `queue` of a connection inside a game is everything queued since the connection was made, not just what is still pending (see `Session.KaasOutboxes`). FIFO delivery is stated separately, in `Channel`.
- `send_message_to_all` (app.py:216-218) is never called, so it is not modelled.
- `Lobby.on_start` (app.py:152-153) is declared with one parameter but called with two (app.py:138), so calling it would raise TypeError. Only "the handler exists" is modelled, and its body is empty.
- `Lobby.on_join` in app2.py only logs. Only its existence is modelled.
- Pydantic validation of posted payloads is not modelled. The `start` payload keeps its two role counts but not its free-form `options`. A `phase_update` payload is a flat string map. Posts in the reconnection variant keep their payload as a string map.
- `in_progress` is never set to true anywhere in either variant, because no handler starts a game. The model keeps it as a state field that any value may take.
- The older prototypes (fastapi_server/old, fastapi-server/app.py, flask-server/app.py), the ORM schemas and the React client are not part of this model.

## Findings

| source | as written | input that shows it | evidently intended | confidence | as-written member | corrected member |
|---|---|---|---|---|---|---|
| fastapi_server/app2.py:96-98 | `connect` reads and sets `connection.connected`, but a `Connection` only has `active` (line 77) | a game in progress with a parked connection for id X; X connects again | the `active` flag: a live X is refused with "ID is already connected", and a parked X is made live again with its outbox | high; not executed | Reconnect.ConnectAsWritten | Reconnect.Connect |
| fastapi_server/app2.py:117 | `any(c.connected for c in self.connections)` iterates the dict's keys, which are UUIDs | a game in progress with one live client 7 that disconnects (`Reconnect.LastClientLeavesInProgress`) | the game is idle once no stored connection is live, so the timer can reap it | high; not executed | Reconnect.DisconnectAsWritten | Reconnect.Disconnect |
| fastapi_server/app2.py:192 | `create_game` builds `db.Game(...)`, but `db` is the database module (line 12), which defines no `Game`; the mapped class is in the models module, which app2.py never imports | any new game name | the row is added through the mapped `Game` class, and the game is registered | high; not executed | ReconnectServer.CreateGameAsWritten | ReconnectServer.CreateGame |
| fastapi_server/app2.py:135 | the timer deletes the row through `db.Game`, which raises AttributeError before `del games[...]` at line 137 | a game armed idle whose timer fires after it expired (`ReconnectServer.ExpiredGameKeptAsWritten`) | the row and the registry entry are both removed | high; not executed | ReconnectServer.InactivityTimerAsWritten | ReconnectServer.InactivityTimer |
