# joystick-server relay, modelled in Dafny

joystick-server lets phones act as game controllers. A game screen connects
as the **host** of a room, and players' phones connect as **clients** of
that room. The server only relays messages between them:

- It creates rooms and refuses duplicate room ids.
- It seats at most two players per room and numbers them 1..size in join
  order. It renumbers the remaining players when one leaves.
- It tells the host when players join or leave, and when the room is ready.
  A pong room is ready at two players; a galaga room at one.
- It forwards client messages and inputs to the host. It forwards host
  messages to one player or to every player of a room.
- When the host disconnects, it sends `Reset` to every player and deletes
  the room.

A separate socket.io handler keeps a registry of **totems**, the shared
screens. A client may join a room only while a totem is registered for it,
and the client's coordinates are forwarded to that totem.

## Modules

- `Common` (common.dfy): optional values, identifiers, and the already
  parsed JSON values that the relay copies without looking inside them.
- `OrderedMap` (ordered_map.dfy): the JavaScript `Map` semantics the
  relay relies on, as a sequence of pairs.
  - `set` on an existing key replaces the value in place.
  - `set` on a new key appends it.
  - `delete` keeps the order of the remaining entries.
  - Iteration is insertion order, so "the first room that ..." is
    well defined.
- `Rooms` (game_room.dfy): `GameRoom`, meaning its capacity policy and its
  player table.
- `Relay` (relay.dfy): the host/client state machine of
  `src/conection/galaga.ts` and `src/conection/pong.ts`.
  - The two files install the same message and close handlers. They
    differ in the game type of the rooms they create, in their logging, and
    in `error` listeners: `galaga.ts` registers one on every socket and
    `pong.ts` registers none (see "Left out").
  - One state machine parameterised by the game type therefore models both.
  - Each handler is a pure function from the state and one event to the
    next state and the list of messages sent.
- `RelayProps` (relay_props.dfy): the relay invariant and its preservation
  by every event. Also how a broadcast reaches a room's players.
- `RelaySpecs` (relay_specs.dfy): what each handler delivers, stated as
  all-inputs lemmas against the invariant.
- `Galaga` (galaga.dfy) and `Pong` (pong.dfy): the two instantiations, with
  their game-specific readiness rules. `Pong` also has an event-by-event
  two-player session.
- `Totems` (totems.dfy): the totem registry of
  `src/conection/socket.ts`, including runs of many events.

## Modelling choices

- **Connections.** A connection is identified with its socket id.
  - `crypto.randomUUID()` gives each connection a fresh id, so the socket a
    room stores for its host (`room.hostWs`) is addressed by the host's id.
    The same holds for the socket a player entry stores (`player.ws`).
  - Whether such a socket has been stored is the flag `hostAttached` on a
    room and `attached` on a player entry.
- **Open sockets.** `send` drops a message unless the socket is open. The
  set of open connections is a parameter, `open`, of every transition.
- **Current room.** `currentRoomId` is kept per client connection as a map
  entry.
  - A connection with no entry has `null`.
  - The source tests this value for truthiness, so the empty string counts
    as "no room".
  - `RelaySpecs.EmptyRoomIdStrandsPlayer` proves the consequence: a player
    who joins a room whose id is `""` is never removed when they disconnect.
- **Duplicate joins.** A client may send `join-room` for a room it is
  already in, and `addPlayer` performs no duplicate check.
  - The entry is overwritten in place with number size + 1, so the numbers
    stop being 1..size.
  - This is modelled as written. `Rooms.AddDuplicatePlayerBreaksDensity`
    and `RelaySpecs.RejoinBreaksDensity` prove it.
  - The dense numbering is proved to be preserved by every event other than
    such a rejoin (`RelayProps.StepPreservesInv`).
- **Totem truthiness.** The totem registry is a plain object, modelled as a
  `map`. A missing entry and an empty totem id are both falsy.
- **Joining.** A client joins the room it names in `join-room`; nothing
  seats a client in a room it did not name.
- **Failed joins.** A refused join is answered with a message, and the
  connection stays open.
- **Room size.** `maxPlayers` is fixed at 2 by the `GameRoom` constructor and
  nothing changes it. Messages are JSON text; there is no binary framing.
- **Host close.** A host's close scans the registry in insertion order and
  deletes only the first room that host owns (the `return` in
  `galaga.ts:117`). A host that created several rooms leaves the later ones
  registered after it disconnects (`RelaySpecs.HostCloseKeepsLaterRooms`).
- **Switching rooms.** A client may send `join-room` for a second room while
  seated in a first one. Its current room becomes the second, and its close
  removes it only from that one. The entry in the first room stays until that
  room's host closes, and takes one of its two places
  (`RelaySpecs.SwitchRoomStrandsPlayer`).

## Model

| member | source | states |
|---|---|---|
| Common.DecimalText | src/conection/galaga.ts:184 | the definition of `String(n)` for the player number; `Common.DecimalTextRoundTrip` states its properties |
| Common.DecimalTextRoundTrip | src/conection/galaga.ts:184 | `String(n)` is a non-empty run of decimal digits, with no leading zero unless n is 0, that reads back as n |
| OrderedMap.Get | src/conection/GameRoom.ts:50-52 | a lookup finds a value exactly when the key is present, and the pair it returns is an entry of the table |
| OrderedMap.Set | src/conection/GameRoom.ts:31 | setting a present key keeps the length and the key order; setting a new key appends exactly that pair; no entry is invented |
| OrderedMap.Delete | src/conection/GameRoom.ts:39 | deleting an absent key changes nothing; deleting a present key drops exactly one entry and keeps only old entries |
| OrderedMap.GetSetSame | src/conection/GameRoom.ts:31 | after a set, the key reads back the new value |
| OrderedMap.GetSetOther | src/conection/GameRoom.ts:31 | a set leaves every other key's value unchanged |
| OrderedMap.SetKeepsKeysUnique | src/conection/GameRoom.ts:31 | a set never creates a second entry for a key |
| OrderedMap.DeleteRemovesKey | src/conection/GameRoom.ts:39 | after a delete the key is absent and the remaining keys stay distinct |
| OrderedMap.GetDeleteOther | src/conection/GameRoom.ts:39 | a delete leaves every other key's value unchanged |
| OrderedMap.IndexOf | src/conection/GameRoom.ts:36 | the position found is the first entry with the key, and -1 exactly when the key is absent |
| OrderedMap.FirstWhere | src/conection/galaga.ts:106-119 | an insertion-order scan stops at the first entry that matches; no earlier entry matches; -1 means none does |
| Rooms.New | src/conection/GameRoom.ts:17-24 | a new room has the given id, type and host, no players, a maximum of 2, and a minimum of 2 for pong and 1 otherwise |
| Rooms.GetPlayer | src/conection/GameRoom.ts:50-52 | a record is found exactly for member ids, and it carries the id it was looked up by |
| Rooms.AddPlayer | src/conection/GameRoom.ts:26-33 | a full room is unchanged and yields no player; otherwise the player gets number size + 1, getPlayer returns it, nothing but the table changes, and the room stays valid |
| Rooms.AddFreshPlayer | src/conection/GameRoom.ts:26-33 | a newcomer is appended at the end of the table, the count grows by one, and numbering 1..size is kept |
| Rooms.AddDuplicatePlayerBreaksDensity | src/conection/GameRoom.ts:26-33 | adding an id that is already a member overwrites its entry: the count stays the same and numbering 1..size is lost |
| Rooms.RemovePlayer | src/conection/GameRoom.ts:35-48 | a non-member leaves the room unchanged with no result; a member's removal returns its record as it was, the count drops by one, the id is gone, the others are numbered 1..size, and validity is kept |
| Rooms.Renumber | src/conection/GameRoom.ts:41-45 | the i-th remaining entry gets number first + i, and key, socket and attachment are unchanged |
| Rooms.RemovePlayerRenumbers | src/conection/GameRoom.ts:35-48 | the remaining entries keep their join order and get numbers 1..size; the returned record keeps the number it had |
| Rooms.RemoveKeepsOthers | src/conection/GameRoom.ts:35-48 | removing one id keeps exactly the other members |
| Rooms.JoinThenRemoveRestores | src/conection/GameRoom.ts:26-48 | adding a newcomer to a densely numbered room and removing it again restores the original room |
| Rooms.JoinedAppends | src/conection/GameRoom.ts:26-33 | a newcomer's join, with its socket stored, appends one attached entry numbered size + 1 |
| Rooms.RenumberDense | src/conection/GameRoom.ts:41-45 | renumbering a table that is already numbered 1..size changes nothing |
| Rooms.PlayerCount | src/conection/GameRoom.ts:62-64 | the definition of `playerCount()`, the size of the player table; `Rooms.CapacityQueries` and `Rooms.AdmitAllCounts` state its bounds |
| Rooms.IsFull | src/conection/GameRoom.ts:54-56 | the definition of `isFull()`; `Rooms.CapacityQueries` states when it holds |
| Rooms.IsReady | src/conection/GameRoom.ts:58-60 | the definition of `isReady()`; `Rooms.CapacityQueries` states when it holds per game type |
| Rooms.CapacityQueries | src/conection/GameRoom.ts:54-64 | a valid room holds 0..2 players; it is full exactly at 2; a pong room is ready exactly at 2 and a galaga room from 1 |
| Rooms.AdmitAll | src/conection/GameRoom.ts:26-33 | the definition of repeated `addPlayer` calls, one per id in order; `Rooms.AdmitAllCounts` states the result |
| Rooms.AdmitAllCounts | src/conection/GameRoom.ts:26-33 | admitting distinct newcomers one by one yields min(initial + k, 2) players, full exactly when initial + k reaches 2, still numbered 1..size |
| Rooms.AttachPlayer | src/conection/galaga.ts:177 | storing a player's socket changes only that entry's attachment flag and keeps every other attachment |
| Rooms.AttachedLookup | src/conection/galaga.ts:177 | after the socket is stored, the player reads back attached and every other member reads as before |
| Rooms.AttachKeepsValid | src/conection/galaga.ts:177 | storing a socket keeps the room valid and keeps its numbering |
| Rooms.JoinKeepsAllAttached | src/conection/galaga.ts:170-177 | after a join every member of the room, the newcomer included, has its socket stored |
| Relay.Send | src/conection/galaga.ts:10-17 | the definition of `send`: one message when the socket is open, none otherwise; `RelaySpecs.SendOther` and `RelayProps.BroadcastOnlyToMembers` state its properties |
| Relay.CurrentRoom | src/conection/galaga.ts:211 | the definition of reading `currentRoomId` as a condition, with `null` and `""` falsy; `RelaySpecs.EmptyRoomIdStrandsPlayer` states the consequence for `""` |
| Relay.HoldsAttached | src/conection/galaga.ts:74 | the definition of `player?.ws`: the room has an entry for the id with a socket stored; `RelaySpecs.SendToPlayerDelivers` uses it |
| Relay.Broadcast | src/conection/galaga.ts:94-99 | the definition of the loop over a room's players that sends to each one with a socket; `RelayProps.BroadcastDelivers` states its properties |
| Relay.Step | src/conection/galaga.ts:34-282 | the definition of the dispatch on the message type to the host and client handlers; `RelayProps.StepPreservesInv` states what every event keeps |
| Relay.HostedRoom | src/conection/galaga.ts:58-59 | the room a host creates is valid, empty, of the relay's game type, and has the host's socket stored |
| Relay.CreateRoomStep | src/conection/galaga.ts:48-65 | a taken id is refused with "Sala já existe." and changes nothing; otherwise the new room is appended to the registry and the host gets `room-created` |
| RelayProps.CreateKeepsInv | src/conection/galaga.ts:48-65 | room creation keeps the relay invariant and the 1..size numbering |
| Relay.SendToPlayerStep | src/conection/galaga.ts:67-84 | the state never changes, and at most the one game message is sent, to an open connection |
| RelaySpecs.SendToPlayerDelivers | src/conection/galaga.ts:67-84 | the game message goes to the player exactly when some room holds the player with a socket and the socket is open |
| Relay.SendToAllStep | src/conection/galaga.ts:86-100 | the state never changes, and an unknown room sends nothing |
| RelaySpecs.SendToAllDelivers | src/conection/galaga.ts:86-100 | for a registered room, every player with an open socket gets the message once, nobody else does, in join order |
| RelayProps.BroadcastOnlyToMembers | src/conection/galaga.ts:94-99 | a broadcast sends only the given message, only to open sockets of the room's players |
| RelayProps.BroadcastReachesAll | src/conection/galaga.ts:94-99 | every player with a stored and open socket receives the broadcast |
| RelayProps.BroadcastInOrder | src/conection/galaga.ts:94-99 | broadcast recipients follow the table order strictly, so nobody receives twice |
| RelayProps.BroadcastDelivers | src/conection/galaga.ts:94-99 | the three broadcast properties together |
| Relay.HostCloseStep | src/conection/galaga.ts:103-121 | a host close never touches current rooms and never adds a room |
| RelaySpecs.HostCloseCascade | src/conection/galaga.ts:103-121 | the host's first room is removed from the registry with the others kept in order, and each of its players with an open socket gets `Reset`, in join order |
| RelaySpecs.HostCloseWithoutRoom | src/conection/galaga.ts:103-121 | the close of a host that owns no room changes nothing and sends nothing |
| RelaySpecs.SwitchRoomStrandsPlayer | src/conection/galaga.ts:150-282 | a client that joins room a, then room b, then disconnects leaves a exactly as after its first join: still a member, counted in a's size |
| RelaySpecs.HostCloseKeepsLaterRooms | src/conection/galaga.ts:106-118 | a host that created two rooms keeps the second one registered, still under its id, after it disconnects |
| RelayProps.HostCloseKeepsInv | src/conection/galaga.ts:103-121 | a host close keeps the relay invariant and the 1..size numbering |
| Relay.JoinRoomStep | src/conection/galaga.ts:150-206 | a missing room is refused with "Sala não encontrada." and a full one with the `ConnectFail` game message, neither changing the state; otherwise the room becomes the connection's current room and the set of rooms is unchanged |
| RelaySpecs.JoinUnfold | src/conection/galaga.ts:150-206 | a successful join replaces the room in place and sends `joined-room` and `ID` with number size + 1, then `player-joined` and, at the game's minimum, `game-ready` |
| RelaySpecs.JoinSeatsPlayer | src/conection/galaga.ts:170-184 | a join seats the connection with number size + 1 and its socket, changes no other member or room, and records the room as the current room |
| RelaySpecs.JoinAnnounces | src/conection/galaga.ts:183-205 | the messages of a successful join, with `game-ready` exactly when the new count reaches the game type's minimum |
| RelaySpecs.AnnounceShape | src/conection/galaga.ts:183-202 | a successful join's messages contain `game-ready` exactly when the count reaches the minimum and the host socket is open |
| RelaySpecs.JoinNeverFailsAfterCapacityCheck | src/conection/galaga.ts:164-175 | the "Não foi possível entrar na sala." error is never sent, since the capacity check before `addPlayer` leaves it no way to fail |
| RelaySpecs.RejoinBreaksDensity | src/conection/galaga.ts:170-178 | a second `join-room` by a member of a room with space leaves that room numbered other than 1..size |
| RelayProps.JoinKeepsInv | src/conection/galaga.ts:150-206 | a join keeps the relay invariant, and keeps the 1..size numbering unless it is a rejoin |
| Relay.SendMessageStep | src/conection/galaga.ts:208-231 | the state never changes, and nothing is sent when the route is closed |
| RelaySpecs.SendMessageForwarded | src/conection/galaga.ts:208-231 | the output is exactly one `receive-message` to the host when the sender is seated in its current room and the host socket is open, and nothing otherwise; it carries the sender, its current number and the data |
| Relay.SendInputStep | src/conection/galaga.ts:233-250 | the state never changes, and nothing is sent when the route is closed |
| RelaySpecs.SendInputForwarded | src/conection/galaga.ts:233-250 | the output is exactly one `receive-input` to the host under the same condition, and nothing otherwise; it carries the sender, its number, x, y and buttons |
| Relay.ClientCloseStep | src/conection/galaga.ts:253-282 | a client close never changes current rooms or the set of rooms, and sends at most one message |
| RelaySpecs.ClientCloseCascade | src/conection/galaga.ts:253-282 | an unseated connection's close does nothing; a seated one leaves its room with the others kept, the count drops by one, other rooms are unchanged, and the host hears `player-left` with the old number and the new count |
| RelayProps.ClientCloseKeepsInv | src/conection/galaga.ts:253-282 | a client close keeps the relay invariant and the 1..size numbering |
| RelaySpecs.JoinThenCloseRestores | src/conection/galaga.ts:150-282 | a newcomer who joins and then disconnects restores the registry, and `player-joined` and `player-left` carry the same number |
| RelaySpecs.EmptyRoomIdStrandsPlayer | src/conection/galaga.ts:255-260 | a player who joined the room with id "" stays in it after disconnecting: the close leaves the state unchanged |
| RelayProps.InitInv | src/conection/galaga.ts:20 | the empty registry satisfies the relay invariant |
| RelayProps.StepPreservesInv | src/conection/galaga.ts:29-282 | every event keeps room ids distinct, rooms filed under their own ids with the relay's game type, at most 2 players, and all sockets stored; every event but a rejoin keeps the numbering 1..size |
| RelayProps.StepKeepsHosts | src/conection/galaga.ts:29-282 | a room id registered both before and after any event names a room with the same host socket id: rooms are created with their host's id (GameRoom.ts:17-20, galaga.ts:58-60), joins and client closes replace a room only by one with the same host, and a host close only deletes |
| RelaySpecs.JoinReadyIff | src/conection/galaga.ts:186-202 | after a successful join the room holds between 1 and 2 players, and `game-ready` goes out, addressed to the host with that count, exactly when the count has reached the game type's minimum and the host socket is open |
| Galaga.Handle | src/conection/galaga.ts:34-282 | the definition of the galaga relay as the relay state machine with galaga rooms; `Galaga.ReadyOnEveryJoin` states its readiness rule |
| Pong.Handle | src/conection/pong.ts:28-205 | the definition of the pong relay as the relay state machine with pong rooms; `Pong.ReadyOnlyWithTwo` and `Pong.TwoPlayerSession` state its behaviour |
| Galaga.ReadyOnEveryJoin | src/conection/galaga.ts:186-202 | in a galaga room every successful join announces `game-ready` with the new count exactly when the host socket is open |
| Pong.ReadyOnlyWithTwo | src/conection/pong.ts:137-150 | in a pong room a join announces `game-ready` exactly when the room now holds two players and the host socket is open |
| Pong.TwoPlayerSession | src/conection/pong.ts:36-205 | a concrete session: a duplicate create is refused, the first joiner does not make the room ready and the second does, a leaving player is reported with the remaining count, and the host's close resets the remaining player and deletes the room |
| Totems.RegisterTotem | src/conection/socket.ts:7-16 | the room's entry becomes the new totem id whatever it was before, no other room's entry changes, and the totem joins the room and is acknowledged as a totem |
| Totems.JoinRoomStep | src/conection/socket.ts:18-28 | the registry never changes; the client joins and is acknowledged as a non-totem exactly when the room has a totem, otherwise it gets the error "Totem não está presente na sala." |
| Totems.SendCoordinatesStep | src/conection/socket.ts:30-44 | the registry never changes; the coordinates, stamped with the sender, go to the room's totem exactly when it has one, and nothing is sent otherwise |
| Totems.Step | src/conection/socket.ts:6-48 | only a totem registration writes the registry, no event removes an entry, and a disconnect does nothing |
| Totems.Run | src/conection/socket.ts:6-48 | the definition of a run of events handled one after another; `Totems.RunKeepsLastRegistration` and `Totems.RunNeverForgets` state its properties |
| Totems.RunKeepsLastRegistration | src/conection/socket.ts:7-16 | after any run of events, each room's entry is the one from its last registration in the run, or what it was before the run if it had none |
| Totems.LatestTotemServesRoom | src/conection/socket.ts:10-37 | once a room's latest registration names a nonempty totem, joins succeed and coordinates go to that totem, whatever totems came before |
| Totems.EmptyTotemIdClosesRoom | src/conection/socket.ts:10-32 | registering an empty totem id makes later joins fail and coordinates drop, even if a totem was registered before |
| Totems.RunNeverForgets | src/conection/socket.ts:46-48 | no run of events, disconnects included, removes a room from the registry |

## Left out

- `src/server.ts` is process bootstrap (Express, the HTTP listener and the
  environment) with no relay logic.
- `src/config/socket.ts` only joins a socket.io room and emits an
  acknowledgement, with no state or decision.
- The HTTP upgrade routing at the end of `galaga.ts` and `pong.ts` is
  transport: events arrive already attributed to a host or a client.
- JSON parsing and serialisation are not modelled.
  - Messages arrive parsed. Text that is not valid JSON is caught and
    ignored, and so is a parsed message whose `type` is none of the handled
    ones: both are `HostIgnored` / `ClientIgnored` and change nothing.
  - The JSON text `null` parses without error, and the next read of
    `msg.type` (`galaga.ts:46`, `galaga.ts:148`, `pong.ts:36`, `pong.ts:109`)
    throws a `TypeError` out of the message listener. That exception is not
    modelled.
  - Identifiers are strings. A room id or player id of another JSON type
    is not modelled, nor is a message that lacks the field. A
    `create-room` with no `roomId` registers a room under `undefined`
    (`galaga.ts:49-60`). A `join-room` with no `roomId` joins that room and
    sets the connection's current room to `undefined` (`galaga.ts:151-178`).
    `undefined` is falsy, so the close handler never removes that player
    (`galaga.ts:257`). This is the same stranding that
    `RelaySpecs.EmptyRoomIdStrandsPlayer` proves for the room id `""`.
- Logging is not modelled.
- Socket `error` events are not modelled. In `galaga.ts` (lines 123-125 and
  284-286) their listeners only log. `pong.ts` registers no `error` listener,
  and Node throws an `error` event that has no listener. What that does to
  the pong server process is outside the model.
- `crypto.randomUUID()` is not modelled. Connection ids are inputs, and the
  model relies on them being distinct per connection.
- The socket state `ws.readyState` is the `open` parameter rather than
  something tracked over time.
- socket.io's own room membership and delivery are not modelled: joins and
  emits are effects returned as data.
- The handlers run one event at a time on Node's single thread, so events
  are a sequence. No interleaving inside a handler is modelled.
- Keys inherited from `Object.prototype` in the totems object (such as
  `totems["constructor"]`, which is truthy) are not modelled. The registry
  is a plain map.
- `socket.data.totemId` is written at `socket.ts:11` and never read, so it
  is not modelled.
- Relay.HostCloseStep: its own contract only bounds the next state. The
  full effect of a host close is stated by `RelaySpecs.HostCloseCascade` and
  `RelaySpecs.HostCloseWithoutRoom`.
- Relay.ClientCloseStep: its own contract only bounds the effect. The full
  effect is stated by `RelaySpecs.ClientCloseCascade`.
