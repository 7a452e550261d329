/** The invariant of the relay state machine of module `Relay`: every
    registered room is well formed and filed under its own id, every event
    preserves that, and no event re-binds a room to another host. What each
    handler delivers, and the behaviours that follow from its exact
    conditions, are in module `RelaySpecs`. */
module RelayProps {
  import opened Common
  import OM = OrderedMap
  import opened Rooms
  import opened Relay

  /** A registered room: filed under its own id, of the relay's game type,
      valid, with its host's socket and every player's socket stored. */
  predicate RoomOk(gameType: GameType, key: RoomId, room: GameRoom)
  {
    && room.roomId == key
    && room.gameType == gameType
    && Valid(room)
    && room.hostAttached
    && AllAttached(room.players)
  }

  /** The relay invariant: room ids are distinct and every room is sound. */
  predicate Inv(gameType: GameType, s: State)
  {
    && OM.KeysUnique(s.rooms)
    && forall e :: e in s.rooms ==> RoomOk(gameType, e.0, e.1)
  }

  /** Every room numbers its players 1..size. */
  predicate AllDense(s: State)
  {
    forall e :: e in s.rooms ==> Dense(e.1.players)
  }

  /** The event is not a `join-room` by a connection that is already a
      member of the room it names. */
  predicate NoRejoin(s: State, e: Event)
  {
    e.ClientMessage? && e.clientMsg.JoinRoom? ==>
      match OM.Get(s.rooms, e.clientMsg.roomId)
      case None => true
      case Some(room) => !OM.HasKey(room.players, e.client)
  }

  predicate AttachedMember(ps: Players, c: ConnId)
  {
    exists i :: 0 <= i < |ps| && ps[i].0 == c && ps[i].1.attached
  }

  /** `out` gives `m` exactly to the players of `ps` that have a socket which
      is open, one message each, in table order. */
  predicate DeliveredInOrder(ps: Players, open: set<ConnId>, m: Msg, out: seq<Out>)
  {
    && (forall o :: o in out ==> o.msg == m && o.to in open && AttachedMember(ps, o.to))
    && (forall i :: 0 <= i < |ps| && ps[i].1.attached && ps[i].0 in open ==> Out(ps[i].0, m) in out)
    && (forall a, b :: 0 <= a < b < |out| ==> OM.IndexOf(ps, out[a].to) < OM.IndexOf(ps, out[b].to))
  }

  /** A connection's current room exists and holds the connection. */
  predicate Seated(s: State, c: ConnId)
  {
    && CurrentRoom(s, c).Some?
    && OM.HasKey(s.rooms, CurrentRoom(s, c).value)
    && OM.HasKey(OM.Get(s.rooms, CurrentRoom(s, c).value).value.players, c)
  }

  lemma InitInv(gameType: GameType)
    ensures Inv(gameType, Init()) && AllDense(Init())
  {
  }

  /** A registered entry satisfies the invariant's per-room condition. */
  lemma RegisteredRoomOk(gameType: GameType, s: State, rid: RoomId)
    requires Inv(gameType, s) && OM.HasKey(s.rooms, rid)
    ensures RoomOk(gameType, rid, OM.Get(s.rooms, rid).value)
    ensures OM.Get(s.rooms, rid).value.hostAttached
  {
    assert (rid, OM.Get(s.rooms, rid).value) in s.rooms;
  }

  lemma {:induction false} RegistrySetKeepsInv(gameType: GameType, s: State, rid: RoomId, room: GameRoom, s': State)
    requires Inv(gameType, s) && RoomOk(gameType, rid, room)
    requires s'.rooms == OM.Set(s.rooms, rid, room)
    ensures Inv(gameType, s')
  {
    OM.SetKeepsKeysUnique(s.rooms, rid, room);
  }

  lemma {:induction false} RegistrySetKeepsDense(s: State, rid: RoomId, room: GameRoom, s': State)
    requires AllDense(s) && Dense(room.players)
    requires s'.rooms == OM.Set(s.rooms, rid, room)
    ensures AllDense(s')
  {
  }

  /** The tail of a well-keyed player table is well keyed. */
  lemma TailWellKeyed(ps: Players)
    requires WellKeyed(ps) && |ps| > 0
    ensures WellKeyed(ps[1..])
  {
    forall i, j | 0 <= i < j < |ps[1..]| ensures ps[1..][i].0 != ps[1..][j].0 {
      assert ps[1..][i] == ps[i + 1] && ps[1..][j] == ps[j + 1];
    }
  }

  /** Splits a non-empty broadcast into its first player's part and the rest. */
  lemma BroadcastUnfold(ps: Players, open: set<ConnId>, m: Msg)
    requires |ps| > 0
    ensures Broadcast(ps, open, m) ==
      (if ps[0].1.attached && ps[0].1.socketId in open then [Out(ps[0].1.socketId, m)] else [])
      + Broadcast(ps[1..], open, m)
  {
  }

  /** Every broadcast message goes to an open member with a socket. */
  lemma {:induction false} BroadcastOnlyToMembers(ps: Players, open: set<ConnId>, m: Msg)
    requires WellKeyed(ps)
    ensures forall o :: o in Broadcast(ps, open, m) ==> o.msg == m && o.to in open && AttachedMember(ps, o.to)
    decreases |ps|
  {
    if |ps| > 0 {
      var tail := ps[1..];
      BroadcastUnfold(ps, open, m);
      TailWellKeyed(ps);
      BroadcastOnlyToMembers(tail, open, m);
      forall o | o in Broadcast(tail, open, m) ensures AttachedMember(ps, o.to) {
        var i :| 0 <= i < |tail| && tail[i].0 == o.to && tail[i].1.attached;
        assert ps[i + 1] == tail[i];
      }
      assert AttachedMember(ps, ps[0].0) <== ps[0].1.attached;
    }
  }

  /** Every member with an open socket receives the broadcast. */
  lemma {:induction false} BroadcastReachesAll(ps: Players, open: set<ConnId>, m: Msg)
    requires WellKeyed(ps)
    ensures forall i :: 0 <= i < |ps| && ps[i].1.attached && ps[i].0 in open ==>
      Out(ps[i].0, m) in Broadcast(ps, open, m)
    decreases |ps|
  {
    if |ps| > 0 {
      var tail := ps[1..];
      BroadcastUnfold(ps, open, m);
      TailWellKeyed(ps);
      BroadcastReachesAll(tail, open, m);
      forall i | 1 <= i < |ps| ensures ps[i] == tail[i - 1] { }
    }
  }

  /** Broadcast recipients come in strictly increasing membership order, so
      no player receives the message twice. */
  lemma {:induction false} BroadcastInOrder(ps: Players, open: set<ConnId>, m: Msg)
    requires WellKeyed(ps)
    ensures var out := Broadcast(ps, open, m);
      forall a, b :: 0 <= a < b < |out| ==> OM.IndexOf(ps, out[a].to) < OM.IndexOf(ps, out[b].to)
    decreases |ps|
  {
    if |ps| > 0 {
      var tail := ps[1..];
      var first := if ps[0].1.attached && ps[0].1.socketId in open then [Out(ps[0].1.socketId, m)] else [];
      var rest := Broadcast(tail, open, m);
      var out := Broadcast(ps, open, m);
      BroadcastUnfold(ps, open, m);
      TailWellKeyed(ps);
      BroadcastInOrder(tail, open, m);
      RecipientsShift(ps, open, m);
      assert out == first + rest;
      if |first| == 1 {
        OM.UniqueEntryIndex(ps, 0);
      }
      PrependInOrder(ps, first, rest);
    }
  }

  /** Recipients ordered by position stay ordered when one recipient at
      position 0 is put in front of recipients at positions 1 and up. */
  lemma PrependInOrder(ps: Players, first: seq<Out>, rest: seq<Out>)
    requires |first| <= 1
    requires |first| == 1 ==> OM.IndexOf(ps, first[0].to) == 0
    requires forall j :: 0 <= j < |rest| ==> OM.IndexOf(ps, rest[j].to) >= 1
    requires forall a, b :: 0 <= a < b < |rest| ==> OM.IndexOf(ps, rest[a].to) < OM.IndexOf(ps, rest[b].to)
    ensures var out := first + rest;
      forall a, b :: 0 <= a < b < |out| ==> OM.IndexOf(ps, out[a].to) < OM.IndexOf(ps, out[b].to)
  {
    var out := first + rest;
    forall a, b | 0 <= a < b < |out| ensures OM.IndexOf(ps, out[a].to) < OM.IndexOf(ps, out[b].to) {
      assert out[b] == rest[b - |first|];
      if a >= |first| {
        assert out[a] == rest[a - |first|];
      }
    }
  }

  /** Past the first player, a recipient's position in the whole table is
      one more than its position in the rest, and at least 1. */
  lemma RecipientsShift(ps: Players, open: set<ConnId>, m: Msg)
    requires WellKeyed(ps) && |ps| > 0
    ensures var rest := Broadcast(ps[1..], open, m);
      forall j :: 0 <= j < |rest| ==>
        OM.IndexOf(ps, rest[j].to) == OM.IndexOf(ps[1..], rest[j].to) + 1 >= 1
  {
    var tail := ps[1..];
    var rest := Broadcast(tail, open, m);
    TailWellKeyed(ps);
    BroadcastOnlyToMembers(tail, open, m);
    forall j | 0 <= j < |rest|
      ensures OM.IndexOf(ps, rest[j].to) == OM.IndexOf(tail, rest[j].to) + 1 >= 1
    {
      assert rest[j] in rest;
      var i :| 0 <= i < |tail| && tail[i].0 == rest[j].to && tail[i].1.attached;
      assert tail[i] == ps[i + 1];
      OM.IndexOfTail(ps, rest[j].to);
    }
  }

  /** A broadcast reaches exactly the players with an open socket, once
      each, in membership order, and nobody else. */
  lemma BroadcastDelivers(ps: Players, open: set<ConnId>, m: Msg)
    requires WellKeyed(ps)
    ensures DeliveredInOrder(ps, open, m, Broadcast(ps, open, m))
  {
    BroadcastOnlyToMembers(ps, open, m);
    BroadcastReachesAll(ps, open, m);
    BroadcastInOrder(ps, open, m);
  }

  // ------------------------------------------------------ the invariant --

  lemma {:induction false} JoinKeepsInv(gameType: GameType, s: State, open: set<ConnId>, c: ConnId, rid: RoomId)
    requires Inv(gameType, s)
    ensures Inv(gameType, JoinRoomStep(s, open, c, rid).next)
    ensures AllDense(s) && NoRejoin(s, ClientMessage(c, JoinRoom(rid))) ==>
      AllDense(JoinRoomStep(s, open, c, rid).next)
  {
    var t := JoinRoomStep(s, open, c, rid);
    if OM.HasKey(s.rooms, rid) {
      var room := OM.Get(s.rooms, rid).value;
      RegisteredRoomOk(gameType, s, rid);
      if !IsFull(room) {
        var added := AddPlayer(room, c);
        var joined := AttachPlayer(added.room, c);
        JoinKeepsAllAttached(room, c);
        AttachKeepsValid(added.room, c);
        assert t.next.rooms == OM.Set(s.rooms, rid, joined);
        RegistrySetKeepsInv(gameType, s, rid, joined, t.next);
        if AllDense(s) && NoRejoin(s, ClientMessage(c, JoinRoom(rid))) {
          assert (rid, room) in s.rooms;
          AddFreshPlayer(room, c);
          RegistrySetKeepsDense(s, rid, joined, t.next);
        }
      }
    }
  }

  lemma {:induction false} ClientCloseKeepsInv(gameType: GameType, s: State, open: set<ConnId>, c: ConnId)
    requires Inv(gameType, s)
    ensures Inv(gameType, ClientCloseStep(s, open, c).next)
    ensures AllDense(s) ==> AllDense(ClientCloseStep(s, open, c).next)
  {
    var t := ClientCloseStep(s, open, c);
    if Seated(s, c) {
      var rid := CurrentRoom(s, c).value;
      var room := OM.Get(s.rooms, rid).value;
      RegisteredRoomOk(gameType, s, rid);
      var left := RemovePlayer(room, c).room;
      assert t.next.rooms == OM.Set(s.rooms, rid, left);
      RegistrySetKeepsInv(gameType, s, rid, left, t.next);
      if AllDense(s) {
        RegistrySetKeepsDense(s, rid, left, t.next);
      }
    } else {
      assert t.next == s;
    }
  }

  lemma {:induction false} HostCloseKeepsInv(gameType: GameType, s: State, open: set<ConnId>, host: ConnId)
    requires Inv(gameType, s)
    ensures Inv(gameType, HostCloseStep(s, open, host).next)
    ensures AllDense(s) ==> AllDense(HostCloseStep(s, open, host).next)
  {
    var k := OM.FirstWhere(s.rooms, (room: GameRoom) => room.hostSocketId == host);
    if k >= 0 {
      OM.DeleteRemovesKey(s.rooms, s.rooms[k].0);
    }
  }

  lemma {:induction false} CreateKeepsInv(gameType: GameType, s: State, open: set<ConnId>, host: ConnId, rid: RoomId)
    requires Inv(gameType, s)
    ensures Inv(gameType, CreateRoomStep(gameType, s, open, host, rid).next)
    ensures AllDense(s) ==> AllDense(CreateRoomStep(gameType, s, open, host, rid).next)
  {
    var t := CreateRoomStep(gameType, s, open, host, rid);
    if !OM.HasKey(s.rooms, rid) {
      var room := HostedRoom(gameType, rid, host);
      assert t.next.rooms == OM.Set(s.rooms, rid, room);
      RegistrySetKeepsInv(gameType, s, rid, room, t.next);
      if AllDense(s) {
        RegistrySetKeepsDense(s, rid, room, t.next);
      }
    }
  }

  /** Every event keeps the relay invariant; in particular no room ever
      holds more than two players (that no room changes host is
      `StepKeepsHosts`). Player numbers stay 1..size as long as no connection
      re-joins a room it is already in. */
  lemma {:induction false} StepPreservesInv(gameType: GameType, s: State, open: set<ConnId>, e: Event)
    requires Inv(gameType, s)
    ensures Inv(gameType, Step(gameType, s, open, e).next)
    ensures AllDense(s) && NoRejoin(s, e) ==> AllDense(Step(gameType, s, open, e).next)
  {
    match e
    case HostMessage(host, m) =>
      match m {
        case CreateRoom(rid) => CreateKeepsInv(gameType, s, open, host, rid);
        case SendToPlayer(_, _, _) =>
        case SendToAll(_, _, _) =>
        case HostIgnored =>
      }
    case HostClosed(host) => HostCloseKeepsInv(gameType, s, open, host);
    case ClientMessage(c, m) =>
      match m {
        case JoinRoom(rid) => JoinKeepsInv(gameType, s, open, c, rid);
        case SendMessage(_, _) =>
        case SendInput(_, _, _) =>
        case ClientIgnored =>
      }
    case ClientClosed(c) => ClientCloseKeepsInv(gameType, s, open, c);
  }

  // ------------------------------------------------------- room hosts --

  /** Replacing a room by one with the same host keeps every room's host. */
  lemma {:induction false} SetKeepsHost(rooms: OM.Table<RoomId, GameRoom>, rid: RoomId, v: GameRoom, k: RoomId)
    requires OM.HasKey(rooms, k)
    requires OM.HasKey(rooms, rid) ==> v.hostSocketId == OM.Get(rooms, rid).value.hostSocketId
    ensures OM.HasKey(OM.Set(rooms, rid, v), k)
    ensures OM.Get(OM.Set(rooms, rid, v), k).value.hostSocketId == OM.Get(rooms, k).value.hostSocketId
  {
    if k == rid {
      OM.GetSetSame(rooms, rid, v);
    } else {
      OM.GetSetOther(rooms, rid, v, k);
    }
  }

  /** `create-room` never re-binds a registered room to another host. */
  lemma {:induction false} CreateKeepsHost(gameType: GameType, s: State, open: set<ConnId>, host: ConnId, rid: RoomId, k: RoomId)
    requires OM.HasKey(s.rooms, k)
    ensures OM.HasKey(CreateRoomStep(gameType, s, open, host, rid).next.rooms, k)
    ensures OM.Get(CreateRoomStep(gameType, s, open, host, rid).next.rooms, k).value.hostSocketId
         == OM.Get(s.rooms, k).value.hostSocketId
  {
    if !OM.HasKey(s.rooms, rid) {
      SetKeepsHost(s.rooms, rid, HostedRoom(gameType, rid, host), k);
    }
  }

  /** `join-room` changes a room's players, never its host. */
  lemma {:induction false} JoinKeepsHost(s: State, open: set<ConnId>, c: ConnId, rid: RoomId, k: RoomId)
    requires OM.HasKey(s.rooms, k)
    ensures OM.HasKey(JoinRoomStep(s, open, c, rid).next.rooms, k)
    ensures OM.Get(JoinRoomStep(s, open, c, rid).next.rooms, k).value.hostSocketId
         == OM.Get(s.rooms, k).value.hostSocketId
  {
    match OM.Get(s.rooms, rid)
    case None =>
    case Some(room) =>
      if !IsFull(room) {
        var added := AddPlayer(room, c);
        if added.player.Some? {
          var joined := AttachPlayer(added.room, c);
          assert joined.hostSocketId == room.hostSocketId;
          SetKeepsHost(s.rooms, rid, joined, k);
        }
      }
  }

  /** A client's disconnect changes its room's players, never its host. */
  lemma {:induction false} ClientCloseKeepsHost(s: State, open: set<ConnId>, c: ConnId, k: RoomId)
    requires OM.HasKey(s.rooms, k)
    ensures OM.HasKey(ClientCloseStep(s, open, c).next.rooms, k)
    ensures OM.Get(ClientCloseStep(s, open, c).next.rooms, k).value.hostSocketId
         == OM.Get(s.rooms, k).value.hostSocketId
  {
    match CurrentRoom(s, c)
    case None =>
    case Some(rid) =>
      match OM.Get(s.rooms, rid)
      case None =>
      case Some(room) =>
        var removed := RemovePlayer(room, c);
        if removed.player.Some? {
          assert removed.room.hostSocketId == room.hostSocketId;
          SetKeepsHost(s.rooms, rid, removed.room, k);
        }
  }

  /** A host's disconnect deletes a room outright: every room that is still
      registered afterwards keeps its host. */
  lemma {:induction false} HostCloseKeepsHost(s: State, open: set<ConnId>, host: ConnId, k: RoomId)
    requires OM.KeysUnique(s.rooms)
    requires OM.HasKey(HostCloseStep(s, open, host).next.rooms, k)
    ensures OM.HasKey(s.rooms, k)
    ensures OM.Get(HostCloseStep(s, open, host).next.rooms, k).value.hostSocketId
         == OM.Get(s.rooms, k).value.hostSocketId
  {
    var i := OM.FirstWhere(s.rooms, (room: GameRoom) => room.hostSocketId == host);
    if i >= 0 {
      var gone := s.rooms[i].0;
      OM.DeleteRemovesKey(s.rooms, gone);
      OM.GetDeleteOther(s.rooms, gone, k);
    }
  }

  /** No event re-binds a room to another host: a room id registered both
      before and after any step names a room with the same host socket id.
      A room id is only ever registered by the host that sent its
      `create-room`, so every room stays bound to the host that created it
      until that host's disconnect deletes it. */
  lemma {:induction false} StepKeepsHosts(gameType: GameType, s: State, open: set<ConnId>, e: Event, k: RoomId)
    requires OM.KeysUnique(s.rooms)
    requires OM.HasKey(s.rooms, k)
    requires OM.HasKey(Step(gameType, s, open, e).next.rooms, k)
    ensures OM.Get(Step(gameType, s, open, e).next.rooms, k).value.hostSocketId
         == OM.Get(s.rooms, k).value.hostSocketId
  {
    match e
    case HostMessage(host, m) =>
      match m {
        case CreateRoom(rid) => CreateKeepsHost(gameType, s, open, host, rid, k);
        case SendToPlayer(_, _, _) =>
        case SendToAll(_, _, _) =>
        case HostIgnored =>
      }
    case HostClosed(host) => HostCloseKeepsHost(s, open, host, k);
    case ClientMessage(c, m) =>
      match m {
        case JoinRoom(rid) => JoinKeepsHost(s, open, c, rid, k);
        case SendMessage(_, _) =>
        case SendInput(_, _, _) =>
        case ClientIgnored =>
      }
    case ClientClosed(c) => ClientCloseKeepsHost(s, open, c, k);
  }
}
