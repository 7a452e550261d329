/** The totem registry of the socket.io server (src/conection/socket.ts):
    one plain object maps a room name to the socket id of the totem (the
    shared screen) that registered for it. A client may join a room only
    while a totem is recorded for it, and its coordinates are forwarded to
    that totem. */
module Totems {
  import opened Common

  /** Room name to totem socket id. Reading an entry as a condition treats a
      missing key and the empty string alike: both are falsy. */
  type Registry = map<string, string>

  /** Payloads of the events the server emits. */
  datatype Msg =
    | JoinedRoom(roomId: string, isTotem: bool)
    | Error(message: string)
    | ReceiveCoordinates(x: Value, y: Value, from: ConnId)

  /** What a handler asks socket.io to do: put its own socket in a room,
      emit to its own socket, or emit to everything in a room (a socket id
      names the room holding just that socket). */
  datatype Effect =
    | Join(socket: ConnId, room: string)
    | Emit(socket: ConnId, msg: Msg)
    | EmitTo(room: string, msg: Msg)

  datatype Event =
    | JoinRoomTotem(socket: ConnId, roomId: string, totemId: string)
    | JoinRoom(socket: ConnId, roomId: string)
    | SendCoordinates(socket: ConnId, roomId: string, x: Value, y: Value)
    | Disconnect(socket: ConnId)

  datatype Transition = Transition(totems: Registry, effects: seq<Effect>)

  const TotemMissingText := "Totem não está presente na sala."

  /** The entry stored for `roomId`, truthy or not. */
  function Recorded(totems: Registry, roomId: string): Option<string>
  {
    if roomId in totems then Some(totems[roomId]) else None
  }

  /** The totem of `roomId` read as a condition: absent when the entry is
      missing or empty. */
  function TotemOf(totems: Registry, roomId: string): (r: Option<string>)
    ensures r.Some? <==> Recorded(totems, roomId).Some? && Recorded(totems, roomId).value != ""
    ensures r.Some? ==> Recorded(totems, roomId) == r
  {
    if roomId in totems && totems[roomId] != "" then Some(totems[roomId]) else None
  }

  /** `join-room-totem`: the totem joins the room, becomes the room's totem
      whatever was recorded before, and is acknowledged as a totem. */
  function RegisterTotem(totems: Registry, socket: ConnId, roomId: string, totemId: string): (t: Transition)
    ensures Recorded(t.totems, roomId) == Some(totemId)
    ensures TotemOf(t.totems, roomId) == (if totemId == "" then None else Some(totemId))
    ensures forall r :: r != roomId ==> Recorded(t.totems, r) == Recorded(totems, r)
    ensures t.totems.Keys == totems.Keys + {roomId}
    ensures t.effects == [Join(socket, roomId), Emit(socket, JoinedRoom(roomId, true))]
  {
    Transition(totems[roomId := totemId], [Join(socket, roomId), Emit(socket, JoinedRoom(roomId, true))])
  }

  /** `join-room` from a client: admitted, and acknowledged as a non-totem,
      exactly when the room has a truthy totem; refused with `error`
      otherwise. The registry never changes. */
  function JoinRoomStep(totems: Registry, socket: ConnId, roomId: string): (t: Transition)
    ensures t.totems == totems
    ensures Join(socket, roomId) in t.effects <==> TotemOf(totems, roomId).Some?
    ensures TotemOf(totems, roomId).Some? ==>
      t.effects == [Join(socket, roomId), Emit(socket, JoinedRoom(roomId, false))]
    ensures TotemOf(totems, roomId).None? ==> t.effects == [Emit(socket, Error(TotemMissingText))]
  {
    if roomId in totems && totems[roomId] != "" then
      Transition(totems, [Join(socket, roomId), Emit(socket, JoinedRoom(roomId, false))])
    else
      Transition(totems, [Emit(socket, Error(TotemMissingText))])
  }

  /** `send-coordinates`: the coordinates, stamped with the sender, go to the
      room's totem when there is one and nowhere otherwise. */
  function SendCoordinatesStep(totems: Registry, socket: ConnId, roomId: string, x: Value, y: Value): (t: Transition)
    ensures t.totems == totems
    ensures t.effects != [] <==> TotemOf(totems, roomId).Some?
    ensures TotemOf(totems, roomId).Some? ==>
      t.effects == [EmitTo(TotemOf(totems, roomId).value, ReceiveCoordinates(x, y, socket))]
  {
    var totemSocketId := if roomId in totems then totems[roomId] else "";
    if totemSocketId != "" then
      Transition(totems, [EmitTo(totemSocketId, ReceiveCoordinates(x, y, socket))])
    else
      Transition(totems, [])
  }

  /** One event. Only a totem registration writes the registry, and only its
      own room; no event ever removes an entry, a disconnect included. */
  function Step(totems: Registry, e: Event): (t: Transition)
    ensures totems.Keys <= t.totems.Keys
    ensures !e.JoinRoomTotem? ==> t.totems == totems
    ensures e.Disconnect? ==> t.effects == []
  {
    match e
    case JoinRoomTotem(socket, roomId, totemId) => RegisterTotem(totems, socket, roomId, totemId)
    case JoinRoom(socket, roomId) => JoinRoomStep(totems, socket, roomId)
    case SendCoordinates(socket, roomId, x, y) => SendCoordinatesStep(totems, socket, roomId, x, y)
    case Disconnect(_) => Transition(totems, [])
  }

  /** A sequence of events, in order; the effects are concatenated. */
  function Run(totems: Registry, es: seq<Event>): Transition
    decreases |es|
  {
    if |es| == 0 then Transition(totems, [])
    else
      var first := Step(totems, es[0]);
      var rest := Run(first.totems, es[1..]);
      Transition(rest.totems, first.effects + rest.effects)
  }

  /** The totem id of the last `join-room-totem` for `roomId` among `es`. */
  function LastRegistered(es: seq<Event>, roomId: string): Option<string>
    decreases |es|
  {
    if |es| == 0 then None
    else
      match LastRegistered(es[1..], roomId)
      case Some(id) => Some(id)
      case None =>
        if es[0].JoinRoomTotem? && es[0].roomId == roomId then Some(es[0].totemId) else None
  }

  /** After any run, a room's entry is the one its last registration wrote,
      or the entry it had before when the run registered nothing for it:
      later registrations silently replace earlier ones. */
  lemma {:induction false} RunKeepsLastRegistration(totems: Registry, es: seq<Event>, roomId: string)
    ensures Recorded(Run(totems, es).totems, roomId) ==
      (if LastRegistered(es, roomId).Some? then LastRegistered(es, roomId) else Recorded(totems, roomId))
    decreases |es|
  {
    if |es| > 0 {
      var first := Step(totems, es[0]);
      RunKeepsLastRegistration(first.totems, es[1..], roomId);
      if es[0].JoinRoomTotem? && es[0].roomId == roomId {
        assert Recorded(first.totems, roomId) == Some(es[0].totemId);
      } else if es[0].JoinRoomTotem? {
        assert Recorded(first.totems, roomId) == Recorded(totems, roomId);
      }
    }
  }

  /** Once a room's latest registration names a nonempty totem, clients are
      admitted and their coordinates reach that totem, whatever totem was
      registered before it. */
  lemma LatestTotemServesRoom(totems: Registry, es: seq<Event>, roomId: string, c: ConnId, x: Value, y: Value)
    requires LastRegistered(es, roomId).Some? && LastRegistered(es, roomId).value != ""
    ensures
      var reg := Run(totems, es).totems;
      var id := LastRegistered(es, roomId).value;
      && JoinRoomStep(reg, c, roomId).effects == [Join(c, roomId), Emit(c, JoinedRoom(roomId, false))]
      && SendCoordinatesStep(reg, c, roomId, x, y).effects == [EmitTo(id, ReceiveCoordinates(x, y, c))]
  {
    RunKeepsLastRegistration(totems, es, roomId);
  }

  /** A registration with an empty totem id closes the room: joins are
      refused and coordinates dropped even when a totem was registered
      before, since the empty entry replaces it and reads as falsy. */
  lemma EmptyTotemIdClosesRoom(totems: Registry, socket: ConnId, roomId: string, c: ConnId, x: Value, y: Value)
    ensures
      var reg := RegisterTotem(totems, socket, roomId, "").totems;
      && JoinRoomStep(reg, c, roomId).effects == [Emit(c, Error(TotemMissingText))]
      && SendCoordinatesStep(reg, c, roomId, x, y).effects == []
  {
  }

  /** Nothing a run does removes a room from the registry. */
  lemma {:induction false} RunNeverForgets(totems: Registry, es: seq<Event>)
    ensures totems.Keys <= Run(totems, es).totems.Keys
    decreases |es|
  {
    if |es| > 0 {
      RunNeverForgets(Step(totems, es[0]).totems, es[1..]);
    }
  }
}
