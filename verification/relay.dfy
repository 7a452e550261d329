/** The host/client relay of src/conection/galaga.ts and src/conection/pong.ts.
    Both files install the same message and close handlers over their own
    registry of rooms, so one state machine, parameterised by the game type
    of the rooms it creates, models both. The files also differ in logging
    and in socket `error` listeners (galaga.ts registers them, pong.ts does
    not); neither is modelled.

    Every handler is a pure transition from the relay state and one event to
    the next state and the messages sent. `open` is the set of connections
    whose socket is open at that moment: `send` drops a message addressed to
    any other connection. A connection is identified with its socket id, so
    the socket a room stores for its host, or a player entry for its player,
    is addressed by that host's or player's id. */
module Relay {
  import opened Common
  import OM = OrderedMap
  import opened Rooms

  /** The JSON messages the relay sends. */
  datatype Msg =
    | Error(message: string)
    | RoomCreated(roomId: RoomId)
    | GameMessage(dataType: Value, jsonData: Value)
    | JoinedRoom(roomId: RoomId, playerNumber: int)
    | PlayerJoined(playerId: ConnId, playerNumber: int, totalPlayers: int)
    | GameReady(roomId: RoomId, players: int)
    | ReceiveMessage(from: ConnId, playerNumber: int, dataType: Value, jsonData: Value)
    | ReceiveInput(from: ConnId, playerNumber: int, x: Value, y: Value, buttons: Value)
    | PlayerLeft(playerId: ConnId, playerNumber: int, totalPlayers: int, roomId: RoomId)

  /** One message handed to the socket of connection `to`. */
  datatype Out = Out(to: ConnId, msg: Msg)

  /** Messages from a host, already parsed. `HostIgnored` stands for input
      that is not valid JSON and for every other message type: both are
      dropped without effect. */
  datatype HostMsg =
    | CreateRoom(roomId: RoomId)
    | SendToPlayer(playerId: ConnId, dataType: Value, jsonData: Value)
    | SendToAll(roomId: RoomId, dataType: Value, jsonData: Value)
    | HostIgnored

  /** Messages from a client, already parsed; `ClientIgnored` as above. */
  datatype ClientMsg =
    | JoinRoom(roomId: RoomId)
    | SendMessage(dataType: Value, jsonData: Value)
    | SendInput(x: Value, y: Value, buttons: Value)
    | ClientIgnored

  datatype Event =
    | HostMessage(host: ConnId, hostMsg: HostMsg)
    | HostClosed(host: ConnId)
    | ClientMessage(client: ConnId, clientMsg: ClientMsg)
    | ClientClosed(client: ConnId)

  type Registry = OM.Table<RoomId, GameRoom>

  /** The registry `rooms`, and each client connection's `currentRoomId`
      (a connection without an entry has `null`). */
  datatype State = State(rooms: Registry, currentRoom: map<ConnId, RoomId>)

  datatype Transition = Transition(next: State, out: seq<Out>)

  const RoomExistsText: string := "Sala já existe."
  const RoomNotFoundText: string := "Sala não encontrada."
  const CannotJoinText: string := "Não foi possível entrar na sala."

  const ConnectFail: Msg := GameMessage(Str("ConnectFail"), Str("MaxPlayers"))
  const ResetMsg: Msg := GameMessage(Str("Reset"), Str("Host desconectou"))

  function Init(): State
  {
    State([], map[])
  }

  /** The module-level `send`: deliver only to an open socket. */
  function Send(open: set<ConnId>, to: ConnId, m: Msg): seq<Out>
  {
    if to in open then [Out(to, m)] else []
  }

  /** `currentRoomId` read as a condition: `null` and the empty string are
      both falsy. */
  function CurrentRoom(s: State, client: ConnId): Option<RoomId>
  {
    if client in s.currentRoom && s.currentRoom[client] != "" then Some(s.currentRoom[client])
    else None
  }

  /** `player?.ws`: the room has an entry for `playerId` with a socket. */
  predicate HoldsAttached(room: GameRoom, playerId: ConnId)
  {
    match GetPlayer(room, playerId)
    case Some(p) => p.attached
    case None => false
  }

  /** The room a host creates: bound to the host's id, with its socket. */
  function HostedRoom(gameType: GameType, roomId: RoomId, host: ConnId): (r: GameRoom)
    ensures Valid(r) && Dense(r.players) && PlayerCount(r) == 0
    ensures r.roomId == roomId && r.gameType == gameType
    ensures r.hostSocketId == host && r.hostAttached
  {
    New(roomId, gameType, host).(hostAttached := true)
  }

  /** The same message to every player with a socket, in table order. */
  function Broadcast(ps: Players, open: set<ConnId>, m: Msg): seq<Out>
  {
    if |ps| == 0 then []
    else
      var first := if ps[0].1.attached then Send(open, ps[0].1.socketId, m) else [];
      first + Broadcast(ps[1..], open, m)
  }

  // ---------------------------------------------------------------- host --

  /** `create-room`: refuse an id already registered, otherwise register a
      room hosted by this connection and acknowledge it. */
  function CreateRoomStep(gameType: GameType, s: State, open: set<ConnId>, host: ConnId, roomId: RoomId)
    : (t: Transition)
    ensures OM.HasKey(s.rooms, roomId) ==>
      t == Transition(s, Send(open, host, Error(RoomExistsText)))
    ensures !OM.HasKey(s.rooms, roomId) ==>
      && t.out == Send(open, host, RoomCreated(roomId))
      && t.next.currentRoom == s.currentRoom
      && t.next.rooms == s.rooms + [(roomId, HostedRoom(gameType, roomId, host))]
  {
    if OM.HasKey(s.rooms, roomId) then Transition(s, Send(open, host, Error(RoomExistsText)))
    else
      var rooms := OM.Set(s.rooms, roomId, HostedRoom(gameType, roomId, host));
      Transition(s.(rooms := rooms), Send(open, host, RoomCreated(roomId)))
  }

  /** `send-to-player`: the first room, in registration order, that holds
      `playerId` with a socket decides the recipient; no such room, no
      message. */
  function SendToPlayerStep(s: State, open: set<ConnId>, playerId: ConnId, dataType: Value, jsonData: Value)
    : (t: Transition)
    ensures t.next == s
    ensures |t.out| <= 1
    ensures forall o :: o in t.out ==> o.msg == GameMessage(dataType, jsonData) && o.to in open
  {
    var k := OM.FirstWhere(s.rooms, (room: GameRoom) => HoldsAttached(room, playerId));
    if k < 0 then Transition(s, [])
    else
      var p := GetPlayer(s.rooms[k].1, playerId).value;
      Transition(s, Send(open, p.socketId, GameMessage(dataType, jsonData)))
  }

  /** `send-to-all`: nothing for an unknown room, otherwise one game message
      per player with a socket. */
  function SendToAllStep(s: State, open: set<ConnId>, roomId: RoomId, dataType: Value, jsonData: Value)
    : (t: Transition)
    ensures t.next == s
    ensures !OM.HasKey(s.rooms, roomId) ==> t.out == []
  {
    match OM.Get(s.rooms, roomId)
    case None => Transition(s, [])
    case Some(room) => Transition(s, Broadcast(room.players, open, GameMessage(dataType, jsonData)))
  }

  /** Host `close`: the first room the host owns warns its players with a
      `Reset` game message and is deleted; other rooms are left alone. */
  function HostCloseStep(s: State, open: set<ConnId>, host: ConnId): (t: Transition)
    ensures t.next.currentRoom == s.currentRoom
    ensures |t.next.rooms| <= |s.rooms|
  {
    var k := OM.FirstWhere(s.rooms, (room: GameRoom) => room.hostSocketId == host);
    if k < 0 then Transition(s, [])
    else
      var room := s.rooms[k].1;
      Transition(s.(rooms := OM.Delete(s.rooms, s.rooms[k].0)),
                 Broadcast(room.players, open, ResetMsg))
  }

  // -------------------------------------------------------------- client --

  /** `join-room`: refuse a missing room with `error` and a full one with a
      `ConnectFail` game message; otherwise add the player, record the room
      as the connection's current room, tell the client its number twice
      (`joined-room`, then an `ID` game message) and tell the host
      `player-joined`, followed by `game-ready` once the room is ready. */
  function JoinRoomStep(s: State, open: set<ConnId>, client: ConnId, roomId: RoomId): (t: Transition)
    ensures !OM.HasKey(s.rooms, roomId) ==>
      t == Transition(s, Send(open, client, Error(RoomNotFoundText)))
    ensures OM.HasKey(s.rooms, roomId) && IsFull(OM.Get(s.rooms, roomId).value) ==>
      t == Transition(s, Send(open, client, ConnectFail))
    ensures OM.HasKey(s.rooms, roomId) && !IsFull(OM.Get(s.rooms, roomId).value) ==>
      && t.next.currentRoom == s.currentRoom[client := roomId]
      && OM.Keys(t.next.rooms) == OM.Keys(s.rooms)
  {
    match OM.Get(s.rooms, roomId)
    case None => Transition(s, Send(open, client, Error(RoomNotFoundText)))
    case Some(room) =>
      if IsFull(room) then Transition(s, Send(open, client, ConnectFail))
      else
        var added := AddPlayer(room, client);
        match added.player
        case None => Transition(s, Send(open, client, Error(CannotJoinText)))
        case Some(p) =>
          var joined := AttachPlayer(added.room, client);
          var n := p.playerNumber;
          var count := PlayerCount(joined);
          var toClient :=
            Send(open, client, JoinedRoom(roomId, n))
            + Send(open, client, GameMessage(Str("ID"), Str(DecimalText(n))));
          var toHost :=
            if joined.hostAttached then
              Send(open, joined.hostSocketId, PlayerJoined(client, n, count))
              + (if IsReady(joined) then Send(open, joined.hostSocketId, GameReady(roomId, count)) else [])
            else [];
          Transition(State(OM.Set(s.rooms, roomId, joined), s.currentRoom[client := roomId]),
                     toClient + toHost)
  }

  /** The gate shared by `send-message` and `send-input`: the connection's
      current room exists, holds the connection, and has a host socket. */
  function HostRoute(s: State, client: ConnId): (r: Option<(GameRoom, PlayerInfo)>)
    ensures r.Some? ==>
      && CurrentRoom(s, client).Some?
      && OM.Get(s.rooms, CurrentRoom(s, client).value) == Some(r.value.0)
      && GetPlayer(r.value.0, client) == Some(r.value.1)
      && r.value.0.hostAttached
    ensures r.None? ==>
      || CurrentRoom(s, client).None?
      || OM.Get(s.rooms, CurrentRoom(s, client).value).None?
      || GetPlayer(OM.Get(s.rooms, CurrentRoom(s, client).value).value, client).None?
      || !OM.Get(s.rooms, CurrentRoom(s, client).value).value.hostAttached
  {
    match CurrentRoom(s, client)
    case None => None
    case Some(rid) =>
      match OM.Get(s.rooms, rid)
      case None => None
      case Some(room) =>
        match GetPlayer(room, client)
        case None => None
        case Some(p) => if room.hostAttached then Some((room, p)) else None
  }

  /** `send-message`: forward to the host, tagged with sender and number. */
  function SendMessageStep(s: State, open: set<ConnId>, client: ConnId, dataType: Value, jsonData: Value)
    : (t: Transition)
    ensures t.next == s
    ensures HostRoute(s, client).None? ==> t.out == []
  {
    match HostRoute(s, client)
    case None => Transition(s, [])
    case Some((room, p)) =>
      Transition(s, Send(open, room.hostSocketId, ReceiveMessage(client, p.playerNumber, dataType, jsonData)))
  }

  /** `send-input`: forward to the host, tagged with sender and number. */
  function SendInputStep(s: State, open: set<ConnId>, client: ConnId, x: Value, y: Value, buttons: Value)
    : (t: Transition)
    ensures t.next == s
    ensures HostRoute(s, client).None? ==> t.out == []
  {
    match HostRoute(s, client)
    case None => Transition(s, [])
    case Some((room, p)) =>
      Transition(s, Send(open, room.hostSocketId, ReceiveInput(client, p.playerNumber, x, y, buttons)))
  }

  /** Client `close`: leave the current room and tell its host
      `player-left`, with the number the player had and the count after
      removal. */
  function ClientCloseStep(s: State, open: set<ConnId>, client: ConnId): (t: Transition)
    ensures t.next.currentRoom == s.currentRoom
    ensures OM.Keys(t.next.rooms) == OM.Keys(s.rooms)
    ensures |t.out| <= 1
  {
    match CurrentRoom(s, client)
    case None => Transition(s, [])
    case Some(rid) =>
      match OM.Get(s.rooms, rid)
      case None => Transition(s, [])
      case Some(room) =>
        var removed := RemovePlayer(room, client);
        match removed.player
        case None => Transition(s, [])
        case Some(p) =>
          var left := removed.room;
          Transition(
            s.(rooms := OM.Set(s.rooms, rid, left)),
            if left.hostAttached then
              Send(open, left.hostSocketId, PlayerLeft(client, p.playerNumber, PlayerCount(left), rid))
            else [])
  }

  /** One event handled by the relay of game type `gameType`. */
  function Step(gameType: GameType, s: State, open: set<ConnId>, e: Event): Transition
  {
    match e
    case HostMessage(host, m) =>
      (match m
       case CreateRoom(roomId) => CreateRoomStep(gameType, s, open, host, roomId)
       case SendToPlayer(playerId, dataType, jsonData) => SendToPlayerStep(s, open, playerId, dataType, jsonData)
       case SendToAll(roomId, dataType, jsonData) => SendToAllStep(s, open, roomId, dataType, jsonData)
       case HostIgnored => Transition(s, []))
    case HostClosed(host) => HostCloseStep(s, open, host)
    case ClientMessage(client, m) =>
      (match m
       case JoinRoom(roomId) => JoinRoomStep(s, open, client, roomId)
       case SendMessage(dataType, jsonData) => SendMessageStep(s, open, client, dataType, jsonData)
       case SendInput(x, y, buttons) => SendInputStep(s, open, client, x, y, buttons)
       case ClientIgnored => Transition(s, []))
    case ClientClosed(client) => ClientCloseStep(s, open, client)
  }
}
