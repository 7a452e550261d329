/** The galaga relay (src/conection/galaga.ts): the shared relay with rooms
    of game type galaga, which need a single player to be ready. */
module Galaga {
  import opened Common
  import OM = OrderedMap
  import opened Rooms
  import opened Relay
  import opened RelayProps
  import opened RelaySpecs

  /** One event handled by the galaga relay. */
  function Handle(s: State, open: set<ConnId>, e: Event): Transition
  {
    Step(Galaga, s, open, e)
  }

  /** A `join-room` event is handled by `JoinRoomStep`. */
  lemma HandleJoin(s: State, open: set<ConnId>, c: ConnId, rid: RoomId)
    ensures Handle(s, open, ClientMessage(c, JoinRoom(rid))) == JoinRoomStep(s, open, c, rid)
  {
  }

  /** Every successful join in a galaga room announces `game-ready`, with
      the count after the join, exactly when the host socket is open: a
      single player suffices. */
  lemma ReadyOnEveryJoin(s: State, open: set<ConnId>, c: ConnId, rid: RoomId)
    requires Inv(Galaga, s)
    requires OM.HasKey(s.rooms, rid) && !IsFull(OM.Get(s.rooms, rid).value)
    ensures
      var room := OM.Get(s.rooms, rid).value;
      var t := Handle(s, open, ClientMessage(c, JoinRoom(rid)));
      var count := PlayerCount(OM.Get(t.next.rooms, rid).value);
      && 1 <= count <= MaxPlayers
      && (AnnouncesReady(t.out) <==> room.hostSocketId in open)
      && (room.hostSocketId in open ==> Out(room.hostSocketId, GameReady(rid, count)) in t.out)
  {
    HandleJoin(s, open, c, rid);
    JoinReadyIff(Galaga, s, open, c, rid);
  }
}
