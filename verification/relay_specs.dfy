/** What each relay handler delivers, stated against the relay invariant,
    and the consequences of the handlers' exact conditions over several
    events. */
module RelaySpecs {
  import opened Common
  import OM = OrderedMap
  import opened Rooms
  import opened Relay
  import opened RelayProps

  /** The host of a connection's current room (meaningful when seated). */
  function SeatHost(s: State, c: ConnId): ConnId
    requires Seated(s, c)
  {
    OM.Get(s.rooms, CurrentRoom(s, c).value).value.hostSocketId
  }

  /** The number a seated connection currently has in its room. */
  function SeatNumber(s: State, c: ConnId): int
    requires Seated(s, c)
  {
    GetPlayer(OM.Get(s.rooms, CurrentRoom(s, c).value).value, c).value.playerNumber
  }

  // ---------------------------------------------------------------- host --

  /** `send-to-player` sends the game message to `playerId` itself when
      some room holds it with a socket and that socket is open, and sends
      nothing otherwise; the first matching room is the one used. */
  lemma SendToPlayerDelivers(gameType: GameType, s: State, open: set<ConnId>, playerId: ConnId,
                             dataType: Value, jsonData: Value)
    requires Inv(gameType, s)
    ensures SendToPlayerStep(s, open, playerId, dataType, jsonData).out ==
      if (exists i :: 0 <= i < |s.rooms| && HoldsAttached(s.rooms[i].1, playerId)) && playerId in open
      then [Out(playerId, GameMessage(dataType, jsonData))]
      else []
  {
    var k := OM.FirstWhere(s.rooms, (room: GameRoom) => HoldsAttached(room, playerId));
    if k >= 0 {
      assert s.rooms[k] in s.rooms;
      assert GetPlayer(s.rooms[k].1, playerId).value.socketId == playerId;
    }
  }

  /** `send-to-all` for a registered room gives the game message to each of
      its players whose socket is open, once each, in membership order. */
  lemma SendToAllDelivers(gameType: GameType, s: State, open: set<ConnId>, roomId: RoomId,
                          dataType: Value, jsonData: Value)
    requires Inv(gameType, s) && OM.HasKey(s.rooms, roomId)
    ensures DeliveredInOrder(OM.Get(s.rooms, roomId).value.players, open, GameMessage(dataType, jsonData),
                             SendToAllStep(s, open, roomId, dataType, jsonData).out)
  {
    RegisteredRoomOk(gameType, s, roomId);
    BroadcastDelivers(OM.Get(s.rooms, roomId).value.players, open, GameMessage(dataType, jsonData));
  }

  /** Host close when the host owns room `k` and no earlier one: that room,
      and only it, leaves the registry (the others keep their order), and
      each of its players with an open socket gets one `Reset`, in
      membership order. */
  lemma HostCloseCascade(gameType: GameType, s: State, open: set<ConnId>, host: ConnId, k: int)
    requires Inv(gameType, s)
    requires 0 <= k < |s.rooms| && s.rooms[k].1.hostSocketId == host
    requires forall j :: 0 <= j < k ==> s.rooms[j].1.hostSocketId != host
    ensures HostCloseStep(s, open, host).next.rooms == s.rooms[..k] + s.rooms[k + 1..]
    ensures !OM.HasKey(HostCloseStep(s, open, host).next.rooms, s.rooms[k].0)
    ensures DeliveredInOrder(s.rooms[k].1.players, open, ResetMsg, HostCloseStep(s, open, host).out)
  {
    var k' := OM.FirstWhere(s.rooms, (room: GameRoom) => room.hostSocketId == host);
    assert k' == k;
    OM.UniqueEntryIndex(s.rooms, k);
    OM.DeleteShape(s.rooms, s.rooms[k].0);
    OM.DeleteRemovesKey(s.rooms, s.rooms[k].0);
    assert s.rooms[k] in s.rooms;
    BroadcastDelivers(s.rooms[k].1.players, open, ResetMsg);
  }

  /** Host close by a connection that owns no room changes nothing. */
  lemma HostCloseWithoutRoom(gameType: GameType, s: State, open: set<ConnId>, host: ConnId)
    requires forall j :: 0 <= j < |s.rooms| ==> s.rooms[j].1.hostSocketId != host
    ensures HostCloseStep(s, open, host) == Transition(s, [])
  {
  }

  // -------------------------------------------------------------- client --

  /** The room a successful join leaves behind. */
  function Joined(room: GameRoom, c: ConnId): GameRoom
  {
    AttachPlayer(AddPlayer(room, c).room, c)
  }

  /** A successful join, spelled out: the room is replaced in place by the
      joined room and the messages are fixed by the new number. */
  lemma JoinUnfold(gameType: GameType, s: State, open: set<ConnId>, c: ConnId, rid: RoomId)
    requires Inv(gameType, s)
    requires OM.HasKey(s.rooms, rid) && !IsFull(OM.Get(s.rooms, rid).value)
    ensures
      var room := OM.Get(s.rooms, rid).value;
      var joined := Joined(room, c);
      var n := PlayerCount(room) + 1;
      var count := PlayerCount(joined);
      JoinRoomStep(s, open, c, rid) == Transition(
        State(OM.Set(s.rooms, rid, joined), s.currentRoom[c := rid]),
        Send(open, c, JoinedRoom(rid, n))
        + Send(open, c, GameMessage(Str("ID"), Str(DecimalText(n))))
        + Send(open, room.hostSocketId, PlayerJoined(c, n, count))
        + (if count >= MinPlayersFor(gameType) then Send(open, room.hostSocketId, GameReady(rid, count)) else []))
  {
    RegisteredRoomOk(gameType, s, rid);
    JoinStepShape(gameType, s, open, c, rid, OM.Get(s.rooms, rid).value);
  }

  /** The unfolding of a join on one room, from only the room facts it uses. */
  lemma JoinStepShape(gameType: GameType, s: State, open: set<ConnId>, c: ConnId, rid: RoomId, room: GameRoom)
    requires OM.Get(s.rooms, rid) == Some(room) && !IsFull(room)
    requires room.hostAttached && room.minPlayers == MinPlayersFor(gameType)
    ensures
      var joined := Joined(room, c);
      var n := PlayerCount(room) + 1;
      var count := PlayerCount(joined);
      JoinRoomStep(s, open, c, rid) == Transition(
        State(OM.Set(s.rooms, rid, joined), s.currentRoom[c := rid]),
        Send(open, c, JoinedRoom(rid, n))
        + Send(open, c, GameMessage(Str("ID"), Str(DecimalText(n))))
        + Send(open, room.hostSocketId, PlayerJoined(c, n, count))
        + (if count >= MinPlayersFor(gameType) then Send(open, room.hostSocketId, GameReady(rid, count)) else []))
  {
    var added := AddPlayer(room, c);
    var n := PlayerCount(room) + 1;
    var p := PlayerInfo(c, n, false);
    assert added.player == Some(p);
    var joined := AttachPlayer(added.room, c);
    var count := PlayerCount(joined);
    var toClient :=
      Send(open, c, JoinedRoom(rid, p.playerNumber))
      + Send(open, c, GameMessage(Str("ID"), Str(DecimalText(p.playerNumber))));
    var toHost :=
      if joined.hostAttached then
        Send(open, joined.hostSocketId, PlayerJoined(c, p.playerNumber, count))
        + (if IsReady(joined) then Send(open, joined.hostSocketId, GameReady(rid, count)) else [])
      else [];
    assert JoinRoomStep(s, open, c, rid)
      == Transition(State(OM.Set(s.rooms, rid, joined), s.currentRoom[c := rid]), toClient + toHost);
    assert joined.hostAttached && joined.hostSocketId == room.hostSocketId;
    assert IsReady(joined) <==> count >= MinPlayersFor(gameType) by {
      assert joined.minPlayers == MinPlayersFor(gameType);
    }
    assert joined == Joined(room, c);
    assert toClient ==
      Send(open, c, JoinedRoom(rid, n)) + Send(open, c, GameMessage(Str("ID"), Str(DecimalText(n))));
    assert toHost ==
      Send(open, room.hostSocketId, PlayerJoined(c, n, count))
      + (if count >= MinPlayersFor(gameType) then Send(open, room.hostSocketId, GameReady(rid, count)) else []);
    RegroupTail(
      Send(open, c, JoinedRoom(rid, n)) + Send(open, c, GameMessage(Str("ID"), Str(DecimalText(n)))),
      Send(open, room.hostSocketId, PlayerJoined(c, n, count)),
      if count >= MinPlayersFor(gameType) then Send(open, room.hostSocketId, GameReady(rid, count)) else []);
  }

  /** Cutting the middle one of two appended entries leaves the other. */
  lemma DropMiddle<T>(a: seq<T>, x: T, y: T)
    ensures (a + [x] + [y])[..|a|] + (a + [x] + [y])[|a| + 1..] == a + [y]
  {
    var u := a + [x] + [y];
    assert u[..|a|] == a;
    assert u[|a| + 1..] == [y];
  }

  /** Concatenation regrouped to the left, as the message lists are written. */
  lemma RegroupTail<T>(a: seq<T>, b: seq<T>, c: seq<T>)
    ensures a + (b + c) == a + b + c
  {
  }

  /** A join on a registered room that is not full seats the connection:
      it is filed with number size + 1 and its socket, nobody else's entry
      and no other room changes, and the room becomes its current room. */
  lemma {:induction false} JoinSeatsPlayer(gameType: GameType, s: State, open: set<ConnId>, c: ConnId, rid: RoomId)
    requires Inv(gameType, s)
    requires OM.HasKey(s.rooms, rid) && !IsFull(OM.Get(s.rooms, rid).value)
    ensures OM.Get(JoinRoomStep(s, open, c, rid).next.rooms, rid) == Some(Joined(OM.Get(s.rooms, rid).value, c))
    ensures
      var room := OM.Get(s.rooms, rid).value;
      && GetPlayer(Joined(room, c), c) == Some(PlayerInfo(c, PlayerCount(room) + 1, true))
      && (forall c' :: c' != c ==> GetPlayer(Joined(room, c), c') == GetPlayer(room, c'))
      && (!OM.HasKey(room.players, c) ==> PlayerCount(Joined(room, c)) == PlayerCount(room) + 1)
    ensures forall r' :: r' != rid ==> OM.Get(JoinRoomStep(s, open, c, rid).next.rooms, r') == OM.Get(s.rooms, r')
    ensures JoinRoomStep(s, open, c, rid).next.currentRoom == s.currentRoom[c := rid]
  {
    var room := OM.Get(s.rooms, rid).value;
    RegisteredRoomOk(gameType, s, rid);
    JoinUnfold(gameType, s, open, c, rid);
    var added := AddPlayer(room, c);
    var p := added.player.value;
    var joined := Joined(room, c);
    var t := JoinRoomStep(s, open, c, rid);
    OM.GetSetSame(s.rooms, rid, joined);
    forall r' | r' != rid ensures OM.Get(t.next.rooms, r') == OM.Get(s.rooms, r') {
      OM.GetSetOther(s.rooms, rid, joined, r');
    }
    AttachedLookup(added.room, c, c);
    forall c' | c' != c ensures GetPlayer(joined, c') == GetPlayer(room, c') {
      AttachedLookup(added.room, c, c');
      OM.GetSetOther(room.players, c, p, c');
    }
    if !OM.HasKey(room.players, c) {
      AddFreshPlayer(room, c);
    }
  }

  /** The messages of a successful join: the client hears its number
      (`joined-room`, then `ID`); the host hears `player-joined` with the
      count after the join, followed by `game-ready` exactly when that count
      reaches the game type's minimum. */
  lemma JoinAnnounces(gameType: GameType, s: State, open: set<ConnId>, c: ConnId, rid: RoomId)
    requires Inv(gameType, s)
    requires OM.HasKey(s.rooms, rid) && !IsFull(OM.Get(s.rooms, rid).value)
    ensures
      var room := OM.Get(s.rooms, rid).value;
      var n := PlayerCount(room) + 1;
      var count := PlayerCount(OM.Get(JoinRoomStep(s, open, c, rid).next.rooms, rid).value);
      JoinRoomStep(s, open, c, rid).out ==
        Send(open, c, JoinedRoom(rid, n))
        + Send(open, c, GameMessage(Str("ID"), Str(DecimalText(n))))
        + Send(open, room.hostSocketId, PlayerJoined(c, n, count))
        + (if count >= MinPlayersFor(gameType) then Send(open, room.hostSocketId, GameReady(rid, count)) else [])
  {
    JoinUnfold(gameType, s, open, c, rid);
    JoinSeatsPlayer(gameType, s, open, c, rid);
  }

  /** `join-room` never answers with the "could not join" error: the
      capacity check that precedes `addPlayer` leaves it no way to fail. */
  lemma JoinNeverFailsAfterCapacityCheck(s: State, open: set<ConnId>, c: ConnId, rid: RoomId)
    ensures Out(c, Error(CannotJoinText)) !in JoinRoomStep(s, open, c, rid).out
  {
    var bad := Out(c, Error(CannotJoinText));
    match OM.Get(s.rooms, rid)
    case None =>
      assert RoomNotFoundText != CannotJoinText by { assert RoomNotFoundText[0] != CannotJoinText[0]; }
    case Some(room) =>
      if !IsFull(room) {
        var added := AddPlayer(room, c);
        var n := added.player.value.playerNumber;
        var joined := AttachPlayer(added.room, c);
        var count := PlayerCount(joined);
        var toClient :=
          Send(open, c, JoinedRoom(rid, n)) + Send(open, c, GameMessage(Str("ID"), Str(DecimalText(n))));
        var toHost :=
          if joined.hostAttached then
            Send(open, joined.hostSocketId, PlayerJoined(c, n, count))
            + (if IsReady(joined) then Send(open, joined.hostSocketId, GameReady(rid, count)) else [])
          else [];
        assert JoinRoomStep(s, open, c, rid).out == toClient + toHost;
        SendOther(open, c, JoinedRoom(rid, n), bad);
        SendOther(open, c, GameMessage(Str("ID"), Str(DecimalText(n))), bad);
        assert bad !in toClient;
        if joined.hostAttached {
          SendOther(open, joined.hostSocketId, PlayerJoined(c, n, count), bad);
          SendOther(open, joined.hostSocketId, GameReady(rid, count), bad);
        }
        assert bad !in toHost;
      }
  }

  /** A send delivers nothing but its own message. */
  lemma SendOther(open: set<ConnId>, to: ConnId, m: Msg, o: Out)
    requires o.msg != m
    ensures o !in Send(open, to, m)
  {
  }

  /** `send-message` sends exactly one `receive-message` to the host when
      the sender is seated in its current room and that room's host socket
      is open, and nothing otherwise; the message names the sender and its
      current number and carries the payload unchanged. */
  lemma SendMessageForwarded(gameType: GameType, s: State, open: set<ConnId>, c: ConnId,
                             dataType: Value, jsonData: Value)
    requires Inv(gameType, s)
    ensures SendMessageStep(s, open, c, dataType, jsonData).out ==
      if Seated(s, c) && SeatHost(s, c) in open
      then [Out(SeatHost(s, c), ReceiveMessage(c, SeatNumber(s, c), dataType, jsonData))]
      else []
  {
    if Seated(s, c) {
      RegisteredRoomOk(gameType, s, CurrentRoom(s, c).value);
    }
  }

  /** `send-input`, under the same condition as `send-message`. */
  lemma SendInputForwarded(gameType: GameType, s: State, open: set<ConnId>, c: ConnId,
                           x: Value, y: Value, buttons: Value)
    requires Inv(gameType, s)
    ensures SendInputStep(s, open, c, x, y, buttons).out ==
      if Seated(s, c) && SeatHost(s, c) in open
      then [Out(SeatHost(s, c), ReceiveInput(c, SeatNumber(s, c), x, y, buttons))]
      else []
  {
    if Seated(s, c) {
      RegisteredRoomOk(gameType, s, CurrentRoom(s, c).value);
    }
  }

  /** Client close when seated: the connection leaves its current room, the
      other members stay, no other room changes, and the host hears
      `player-left` with the number the player had and the count after
      removal. When not seated, nothing happens. */
  lemma {:induction false} ClientCloseCascade(gameType: GameType, s: State, open: set<ConnId>, c: ConnId)
    requires Inv(gameType, s)
    ensures !Seated(s, c) ==> ClientCloseStep(s, open, c) == Transition(s, [])
    ensures Seated(s, c) ==>
      var rid := CurrentRoom(s, c).value;
      var room := OM.Get(s.rooms, rid).value;
      var t := ClientCloseStep(s, open, c);
      && OM.HasKey(t.next.rooms, rid)
      && !OM.HasKey(OM.Get(t.next.rooms, rid).value.players, c)
      && (forall c' :: c' != c ==>
            (OM.HasKey(OM.Get(t.next.rooms, rid).value.players, c') <==> OM.HasKey(room.players, c')))
      && PlayerCount(OM.Get(t.next.rooms, rid).value) == PlayerCount(room) - 1
      && (forall r' :: r' != rid ==> OM.Get(t.next.rooms, r') == OM.Get(s.rooms, r'))
      && t.out == Send(open, room.hostSocketId,
                       PlayerLeft(c, SeatNumber(s, c), PlayerCount(room) - 1, rid))
  {
    if Seated(s, c) {
      var rid := CurrentRoom(s, c).value;
      var room := OM.Get(s.rooms, rid).value;
      RegisteredRoomOk(gameType, s, rid);
      var left := RemovePlayer(room, c).room;
      var t := ClientCloseStep(s, open, c);
      assert t.next.rooms == OM.Set(s.rooms, rid, left);
      OM.GetSetSame(s.rooms, rid, left);
      forall r' | r' != rid ensures OM.Get(t.next.rooms, r') == OM.Get(s.rooms, r') {
        OM.GetSetOther(s.rooms, rid, left, r');
      }
      forall c' | c' != c ensures OM.HasKey(left.players, c') <==> OM.HasKey(room.players, c') {
        RemoveKeepsOthers(room, c, c');
      }
    }
  }

  // --------------------------------------------------- several events --

  /** A newcomer who joins a room and then closes leaves the registry
      exactly as it was, and the host hears the same number in
      `player-joined` and `player-left`. */
  lemma {:induction false} JoinThenCloseRestores(gameType: GameType, s: State, open: set<ConnId>, c: ConnId, rid: RoomId)
    requires Inv(gameType, s) && AllDense(s)
    requires rid != "" && OM.HasKey(s.rooms, rid)
    requires !IsFull(OM.Get(s.rooms, rid).value) && !OM.HasKey(OM.Get(s.rooms, rid).value.players, c)
    ensures
      var s1 := JoinRoomStep(s, open, c, rid).next;
      ClientCloseStep(s1, open, c).next.rooms == s.rooms
    ensures
      var room := OM.Get(s.rooms, rid).value;
      var s1 := JoinRoomStep(s, open, c, rid).next;
      room.hostSocketId in open ==>
        && Out(room.hostSocketId, PlayerJoined(c, PlayerCount(room) + 1, PlayerCount(room) + 1))
             in JoinRoomStep(s, open, c, rid).out
        && ClientCloseStep(s1, open, c).out ==
             [Out(room.hostSocketId, PlayerLeft(c, PlayerCount(room) + 1, PlayerCount(room), rid))]
  {
    var room := OM.Get(s.rooms, rid).value;
    RegisteredRoomOk(gameType, s, rid);
    assert (rid, room) in s.rooms;
    JoinUnfold(gameType, s, open, c, rid);
    JoinSeatsPlayer(gameType, s, open, c, rid);
    var s1 := JoinRoomStep(s, open, c, rid).next;
    var joined := Joined(room, c);
    JoinThenRemoveRestores(room, c);
    assert CurrentRoom(s1, c) == Some(rid);
    assert Seated(s1, c);
    var t2 := ClientCloseStep(s1, open, c);
    assert t2.next.rooms == OM.Set(s1.rooms, rid, room);
    OM.SetSetSame(s.rooms, rid, joined, room);
    OM.SetSameValue(s.rooms, rid, room);
  }

  /** A connection that joins the room with the empty id is never removed
      from it when it closes: its `currentRoomId` is falsy, so the close
      handler skips the room. */
  lemma EmptyRoomIdStrandsPlayer(gameType: GameType, s: State, open: set<ConnId>, c: ConnId)
    requires Inv(gameType, s)
    requires OM.HasKey(s.rooms, "") && !IsFull(OM.Get(s.rooms, "").value)
    ensures
      var s1 := JoinRoomStep(s, open, c, "").next;
      var s2 := ClientCloseStep(s1, open, c).next;
      && OM.HasKey(OM.Get(s1.rooms, "").value.players, c)
      && s2 == s1
  {
    JoinSeatsPlayer(gameType, s, open, c, "");
  }

  /** A connection that sends `join-room` for a room it is already in, while
      the room has space, gets its entry overwritten with number size + 1:
      the room's player numbers are no longer 1..size. */
  lemma {:induction false} RejoinBreaksDensity(gameType: GameType, s: State, open: set<ConnId>, c: ConnId, rid: RoomId)
    requires Inv(gameType, s) && AllDense(s)
    requires OM.HasKey(s.rooms, rid) && !IsFull(OM.Get(s.rooms, rid).value)
    requires OM.HasKey(OM.Get(s.rooms, rid).value.players, c)
    ensures !AllDense(JoinRoomStep(s, open, c, rid).next)
  {
    var room := OM.Get(s.rooms, rid).value;
    RegisteredRoomOk(gameType, s, rid);
    assert (rid, room) in s.rooms;
    var added := AddPlayer(room, c);
    var joined := AttachPlayer(added.room, c);
    AddDuplicatePlayerBreaksDensity(room, c);
    AttachKeepsValid(added.room, c);
    var t := JoinRoomStep(s, open, c, rid);
    assert t.next.rooms == OM.Set(s.rooms, rid, joined);
    OM.GetSetSame(s.rooms, rid, joined);
    assert (rid, joined) in t.next.rooms;
  }

  /** A connection that joins room `a` and then room `b` keeps its entry in
      `a` after it disconnects: the close handler only looks at the current
      room, which is now `b`. The stale entry keeps one of `a`'s places. */
  lemma {:induction false} SwitchRoomStrandsPlayer(gameType: GameType, s: State, open: set<ConnId>, c: ConnId,
                                                  a: RoomId, b: RoomId)
    requires Inv(gameType, s)
    requires a != b && OM.HasKey(s.rooms, a) && OM.HasKey(s.rooms, b)
    requires !IsFull(OM.Get(s.rooms, a).value) && !IsFull(OM.Get(s.rooms, b).value)
    ensures
      var s1 := JoinRoomStep(s, open, c, a).next;
      var s2 := JoinRoomStep(s1, open, c, b).next;
      var s3 := ClientCloseStep(s2, open, c).next;
      var roomA := OM.Get(s.rooms, a).value;
      && OM.Get(s3.rooms, a) == OM.Get(s1.rooms, a)
      && OM.HasKey(OM.Get(s3.rooms, a).value.players, c)
      && (!OM.HasKey(roomA.players, c) ==> PlayerCount(OM.Get(s3.rooms, a).value) == PlayerCount(roomA) + 1)
  {
    var roomA := OM.Get(s.rooms, a).value;
    JoinSeatsPlayer(gameType, s, open, c, a);
    JoinKeepsInv(gameType, s, open, c, a);
    var s1 := JoinRoomStep(s, open, c, a).next;
    assert OM.Get(s1.rooms, b) == OM.Get(s.rooms, b);
    assert OM.HasKey(Joined(roomA, c).players, c) by {
      assert GetPlayer(Joined(roomA, c), c).Some?;
    }
    JoinElsewhereThenClose(gameType, s1, open, c, a, b);
  }

  /** Joining room `b` and then closing leaves any other room `a` as it was. */
  lemma JoinElsewhereThenClose(gameType: GameType, s: State, open: set<ConnId>, c: ConnId, a: RoomId, b: RoomId)
    requires Inv(gameType, s)
    requires a != b && OM.HasKey(s.rooms, b) && !IsFull(OM.Get(s.rooms, b).value)
    ensures
      var s2 := JoinRoomStep(s, open, c, b).next;
      OM.Get(ClientCloseStep(s2, open, c).next.rooms, a) == OM.Get(s.rooms, a)
  {
    JoinSeatsPlayer(gameType, s, open, c, b);
    JoinKeepsInv(gameType, s, open, c, b);
    var s2 := JoinRoomStep(s, open, c, b).next;
    assert s2.currentRoom[c] == b;
    CloseElsewhereKeepsRoom(gameType, s2, open, c, a);
  }

  /** A client close changes no room other than the connection's current one. */
  lemma CloseElsewhereKeepsRoom(gameType: GameType, s: State, open: set<ConnId>, c: ConnId, a: RoomId)
    requires Inv(gameType, s)
    requires CurrentRoom(s, c) != Some(a)
    ensures OM.Get(ClientCloseStep(s, open, c).next.rooms, a) == OM.Get(s.rooms, a)
  {
    ClientCloseCascade(gameType, s, open, c);
  }

  /** A host may create several rooms; its close deletes only the first,
      and a later one stays registered with no host connection left. */
  lemma {:induction false} HostCloseKeepsLaterRooms(gameType: GameType, s: State, open: set<ConnId>, host: ConnId,
                                    r1: RoomId, r2: RoomId)
    requires Inv(gameType, s)
    requires r1 != r2 && !OM.HasKey(s.rooms, r1) && !OM.HasKey(s.rooms, r2)
    requires forall j :: 0 <= j < |s.rooms| ==> s.rooms[j].1.hostSocketId != host
    ensures
      var s1 := CreateRoomStep(gameType, s, open, host, r1).next;
      var s2 := CreateRoomStep(gameType, s1, open, host, r2).next;
      var s3 := HostCloseStep(s2, open, host).next;
      && !OM.HasKey(s3.rooms, r1)
      && OM.HasKey(s3.rooms, r2)
      && OM.Get(s3.rooms, r2).value.hostSocketId == host
  {
    var h2 := HostedRoom(gameType, r2, host);
    var s1 := CreateRoomStep(gameType, s, open, host, r1).next;
    CreateKeepsInv(gameType, s, open, host, r1);
    OM.AppendFresh(s.rooms, r1, HostedRoom(gameType, r1, host));
    var s2 := CreateRoomStep(gameType, s1, open, host, r2).next;
    CreateKeepsInv(gameType, s1, open, host, r2);
    var k := |s.rooms|;
    assert s2.rooms == s.rooms + [(r1, HostedRoom(gameType, r1, host))] + [(r2, h2)];
    forall j | 0 <= j < k ensures s2.rooms[j].1.hostSocketId != host {
      assert s2.rooms[j] == s.rooms[j];
    }
    HostCloseCascade(gameType, s2, open, host, k);
    var s3 := HostCloseStep(s2, open, host).next;
    DropMiddle(s.rooms, (r1, HostedRoom(gameType, r1, host)), (r2, h2));
    OM.AppendFresh(s.rooms, r2, h2);
  }

  /** A successful join leaves 1..2 players in the room, and announces
      `game-ready` exactly when that count reaches the game type's minimum
      and the host socket is open. */
  lemma JoinReadyIff(gameType: GameType, s: State, open: set<ConnId>, c: ConnId, rid: RoomId)
    requires Inv(gameType, s)
    requires OM.HasKey(s.rooms, rid) && !IsFull(OM.Get(s.rooms, rid).value)
    ensures OM.HasKey(JoinRoomStep(s, open, c, rid).next.rooms, rid)
    ensures
      var room := OM.Get(s.rooms, rid).value;
      var t := JoinRoomStep(s, open, c, rid);
      var count := PlayerCount(OM.Get(t.next.rooms, rid).value);
      && 1 <= count <= MaxPlayers
      && (AnnouncesReady(t.out) <==> count >= MinPlayersFor(gameType) && room.hostSocketId in open)
      && (count >= MinPlayersFor(gameType) && room.hostSocketId in open ==>
            Out(room.hostSocketId, GameReady(rid, count)) in t.out)
  {
    var room := OM.Get(s.rooms, rid).value;
    var t := JoinRoomStep(s, open, c, rid);
    JoinAnnounces(gameType, s, open, c, rid);
    JoinSeatsPlayer(gameType, s, open, c, rid);
    JoinKeepsInv(gameType, s, open, c, rid);
    assert OM.HasKey(t.next.rooms, rid);
    RegisteredRoomOk(gameType, t.next, rid);
    var joined := OM.Get(t.next.rooms, rid).value;
    assert OM.HasKey(joined.players, c) by {
      assert GetPlayer(joined, c).Some?;
    }
    var count := PlayerCount(joined);
    AnnounceShape(open, c, room.hostSocketId, rid, PlayerCount(room) + 1, count, MinPlayersFor(gameType));
  }

  /** Some message of `out` is a `game-ready`. */
  predicate AnnouncesReady(out: seq<Out>)
  {
    exists i :: 0 <= i < |out| && out[i].msg.GameReady?
  }

  /** The messages of a successful join carry a `game-ready` exactly when
      the count reaches the minimum and the host socket is open. */
  lemma AnnounceShape(open: set<ConnId>, c: ConnId, host: ConnId, rid: RoomId, n: nat, count: int, min: int)
    ensures AnnouncesReady(
        Send(open, c, JoinedRoom(rid, n))
        + Send(open, c, GameMessage(Str("ID"), Str(DecimalText(n))))
        + Send(open, host, PlayerJoined(c, n, count))
        + (if count >= min then Send(open, host, GameReady(rid, count)) else []))
      <==> count >= min && host in open
  {
    var head := Send(open, c, JoinedRoom(rid, n))
      + Send(open, c, GameMessage(Str("ID"), Str(DecimalText(n))))
      + Send(open, host, PlayerJoined(c, n, count));
    var tail := if count >= min then Send(open, host, GameReady(rid, count)) else [];
    assert !AnnouncesReady(head);
    ReadyAfterQuietPrefix(head, tail);
    if count >= min && host in open {
      assert tail[0].msg.GameReady?;
    }
  }

  /** Messages before the first `game-ready` do not change whether one is sent. */
  lemma ReadyAfterQuietPrefix(head: seq<Out>, tail: seq<Out>)
    requires !AnnouncesReady(head)
    ensures AnnouncesReady(head + tail) <==> AnnouncesReady(tail)
  {
    if AnnouncesReady(head + tail) {
      var i :| 0 <= i < |head + tail| && (head + tail)[i].msg.GameReady?;
      assert tail[i - |head|].msg.GameReady?;
    }
    if AnnouncesReady(tail) {
      var i :| 0 <= i < |tail| && tail[i].msg.GameReady?;
      assert (head + tail)[i + |head|].msg.GameReady?;
    }
  }
}
