/** The pong relay (src/conection/pong.ts): the shared relay with rooms of
    game type pong, which are ready only with two players. */
module Pong {
  import opened Common
  import OM = OrderedMap
  import opened Rooms
  import opened Relay
  import opened RelayProps
  import opened RelaySpecs

  /** One event handled by the pong relay. */
  function Handle(s: State, open: set<ConnId>, e: Event): Transition
  {
    Step(Pong, s, open, e)
  }

  /** A `join-room` event is handled by `JoinRoomStep`. */
  lemma HandleJoin(s: State, open: set<ConnId>, c: ConnId, rid: RoomId)
    ensures Handle(s, open, ClientMessage(c, JoinRoom(rid))) == JoinRoomStep(s, open, c, rid)
  {
  }

  /** A successful join in a pong room announces `game-ready` exactly when
      the room now holds two players and the host socket is open. */
  lemma ReadyOnlyWithTwo(s: State, open: set<ConnId>, c: ConnId, rid: RoomId)
    requires Inv(Pong, s)
    requires OM.HasKey(s.rooms, rid) && !IsFull(OM.Get(s.rooms, rid).value)
    ensures
      var room := OM.Get(s.rooms, rid).value;
      var t := Handle(s, open, ClientMessage(c, JoinRoom(rid)));
      AnnouncesReady(t.out) <==>
        PlayerCount(OM.Get(t.next.rooms, rid).value) == 2 && room.hostSocketId in open
  {
    HandleJoin(s, open, c, rid);
    JoinReadyIff(Pong, s, open, c, rid);
  }

  // A two-player session on room "abc", as explicit states.

  const SessionOpen: set<ConnId> := {"host", "other-host", "a", "b"}

  function SessionRoom(ps: Players): GameRoom
  {
    HostedRoom(Pong, "abc", "host").(players := ps)
  }

  const Seated1: Players := [("a", PlayerInfo("a", 1, true))]
  const Seated2: Players := [("a", PlayerInfo("a", 1, true)), ("b", PlayerInfo("b", 2, true))]
  const Remaining: Players := [("b", PlayerInfo("b", 1, true))]
  const BothCurrent: map<ConnId, RoomId> := map["a" := "abc", "b" := "abc"]

  lemma SessionCreate()
    ensures Handle(Init(), SessionOpen, HostMessage("host", CreateRoom("abc")))
      == Transition(State([("abc", SessionRoom([]))], map[]), [Out("host", RoomCreated("abc"))])
  {
  }

  lemma SessionDuplicate()
    ensures
      var s := State([("abc", SessionRoom([]))], map[]);
      Handle(s, SessionOpen, HostMessage("other-host", CreateRoom("abc")))
        == Transition(s, [Out("other-host", Error(RoomExistsText))])
  {
    var s := State([("abc", SessionRoom([]))], map[]);
    assert OM.HasKey(s.rooms, "abc") by { assert s.rooms[0].0 == "abc"; }
  }

  lemma SessionFirstJoin()
    ensures
      var s := State([("abc", SessionRoom([]))], map[]);
      Handle(s, SessionOpen, ClientMessage("a", JoinRoom("abc")))
        == Transition(State([("abc", SessionRoom(Seated1))], map["a" := "abc"]),
             [Out("a", JoinedRoom("abc", 1)), Out("a", GameMessage(Str("ID"), Str(DecimalText(1)))),
              Out("host", PlayerJoined("a", 1, 1))])
  {
    var room := SessionRoom([]);
    var s := State([("abc", room)], map[]);
    assert OM.IndexOf(s.rooms, "abc") == 0;
    var added := AddPlayer(room, "a");
    assert added.room == SessionRoom([("a", PlayerInfo("a", 1, false))]);
    assert OM.IndexOf(added.room.players, "a") == 0;
    var joined := AttachPlayer(added.room, "a");
    assert joined == SessionRoom(Seated1);
    assert !IsReady(joined);
    assert Handle(s, SessionOpen, ClientMessage("a", JoinRoom("abc"))) == JoinRoomStep(s, SessionOpen, "a", "abc");
  }

  lemma SessionSecondJoin()
    ensures
      var s := State([("abc", SessionRoom(Seated1))], map["a" := "abc"]);
      Handle(s, SessionOpen, ClientMessage("b", JoinRoom("abc")))
        == Transition(State([("abc", SessionRoom(Seated2))], BothCurrent),
             [Out("b", JoinedRoom("abc", 2)), Out("b", GameMessage(Str("ID"), Str(DecimalText(2)))),
              Out("host", PlayerJoined("b", 2, 2)), Out("host", GameReady("abc", 2))])
  {
    var room := SessionRoom(Seated1);
    var s := State([("abc", room)], map["a" := "abc"]);
    assert OM.IndexOf(s.rooms, "abc") == 0;
    assert OM.IndexOf(room.players, "b") == -1;
    var added := AddPlayer(room, "b");
    var ps := [("a", PlayerInfo("a", 1, true)), ("b", PlayerInfo("b", 2, false))];
    assert added.room == SessionRoom(ps);
    assert OM.IndexOf(ps, "b") == 1;
    assert Joined(room, "b") == SessionRoom(Seated2);
    assert s.currentRoom["b" := "abc"] == BothCurrent;
    HandleJoin(s, SessionOpen, "b", "abc");
    JoinStepShape(Pong, s, SessionOpen, "b", "abc", room);
    assert OM.Set(s.rooms, "abc", SessionRoom(Seated2)) == [("abc", SessionRoom(Seated2))];
    assert PlayerCount(SessionRoom(Seated2)) == 2;
    assert "b" in SessionOpen && "host" in SessionOpen;
    Singletons4(Out("b", JoinedRoom("abc", 2)), Out("b", GameMessage(Str("ID"), Str(DecimalText(2)))),
      Out("host", PlayerJoined("b", 2, 2)), Out("host", GameReady("abc", 2)));
  }

  lemma SessionFirstLeaves()
    ensures
      var s := State([("abc", SessionRoom(Seated2))], BothCurrent);
      Handle(s, SessionOpen, ClientClosed("a"))
        == Transition(State([("abc", SessionRoom(Remaining))], BothCurrent),
             [Out("host", PlayerLeft("a", 1, 1, "abc"))])
  {
    var room := SessionRoom(Seated2);
    var s := State([("abc", room)], BothCurrent);
    assert CurrentRoom(s, "a") == Some("abc");
    assert OM.IndexOf(s.rooms, "abc") == 0;
    assert OM.IndexOf(room.players, "a") == 0;
    assert OM.Delete(room.players, "a") == [("b", PlayerInfo("b", 2, true))];
    var removed := RemovePlayer(room, "a");
    assert removed.room == SessionRoom(Remaining);
    assert removed.player == Some(PlayerInfo("a", 1, true));
    assert Handle(s, SessionOpen, ClientClosed("a")) == ClientCloseStep(s, SessionOpen, "a");
  }

  lemma SessionHostLeaves()
    ensures
      var s := State([("abc", SessionRoom(Remaining))], BothCurrent);
      Handle(s, SessionOpen - {"a"}, HostClosed("host"))
        == Transition(State([], BothCurrent), [Out("b", ResetMsg)])
  {
    var room := SessionRoom(Remaining);
    var s := State([("abc", room)], BothCurrent);
    assert OM.FirstWhere(s.rooms, (r: GameRoom) => r.hostSocketId == "host") == 0;
    assert OM.Delete(s.rooms, "abc") == [];
    assert Broadcast(Remaining, SessionOpen - {"a"}, ResetMsg) == [Out("b", ResetMsg)] by {
      assert Remaining[1..] == [];
    }
    assert Handle(s, SessionOpen - {"a"}, HostClosed("host")) == HostCloseStep(s, SessionOpen - {"a"}, "host");
  }

  /** The session of a two-sided game, event by event: a second
      `create-room` for the same id is refused; the first joiner does not
      make the room ready and the second does; when the first leaves, the
      host hears that one player is left; when the host leaves, the remaining
      player gets `Reset` and the room is gone. */
  lemma TwoPlayerSession()
    ensures
      var open := SessionOpen;
      var t1 := Handle(Init(), open, HostMessage("host", CreateRoom("abc")));
      var t2 := Handle(t1.next, open, HostMessage("other-host", CreateRoom("abc")));
      var t3 := Handle(t2.next, open, ClientMessage("a", JoinRoom("abc")));
      var t4 := Handle(t3.next, open, ClientMessage("b", JoinRoom("abc")));
      var t5 := Handle(t4.next, open, ClientClosed("a"));
      var t6 := Handle(t5.next, open - {"a"}, HostClosed("host"));
      && t1.out == [Out("host", RoomCreated("abc"))]
      && t2.out == [Out("other-host", Error(RoomExistsText))]
      && !AnnouncesReady(t3.out)
      && Out("host", GameReady("abc", 2)) in t4.out
      && t5.out == [Out("host", PlayerLeft("a", 1, 1, "abc"))]
      && t6.out == [Out("b", ResetMsg)]
      && !OM.HasKey(t6.next.rooms, "abc")
  {
    var open := SessionOpen;
    var s1 := State([("abc", SessionRoom([]))], map[]);
    var s3 := State([("abc", SessionRoom(Seated1))], map["a" := "abc"]);
    var s4 := State([("abc", SessionRoom(Seated2))], BothCurrent);
    var s5 := State([("abc", SessionRoom(Remaining))], BothCurrent);
    var out3 := [Out("a", JoinedRoom("abc", 1)), Out("a", GameMessage(Str("ID"), Str(DecimalText(1)))),
                 Out("host", PlayerJoined("a", 1, 1))];
    var out4 := [Out("b", JoinedRoom("abc", 2)), Out("b", GameMessage(Str("ID"), Str(DecimalText(2)))),
                 Out("host", PlayerJoined("b", 2, 2)), Out("host", GameReady("abc", 2))];
    var t1 := Handle(Init(), open, HostMessage("host", CreateRoom("abc")));
    SessionCreate();
    assert t1 == Transition(s1, [Out("host", RoomCreated("abc"))]);
    var t2 := Handle(t1.next, open, HostMessage("other-host", CreateRoom("abc")));
    SessionDuplicate();
    assert t2 == Transition(s1, [Out("other-host", Error(RoomExistsText))]);
    var t3 := Handle(t2.next, open, ClientMessage("a", JoinRoom("abc")));
    SessionFirstJoin();
    assert t3 == Transition(s3, out3);
    forall i | 0 <= i < |out3| ensures !out3[i].msg.GameReady? {
      if i == 0 { } else if i == 1 { } else { assert out3[i] == Out("host", PlayerJoined("a", 1, 1)); }
    }
    var t4 := Handle(t3.next, open, ClientMessage("b", JoinRoom("abc")));
    SessionSecondJoin();
    assert t4 == Transition(s4, out4);
    assert out4[3] in out4;
    var t5 := Handle(t4.next, open, ClientClosed("a"));
    SessionFirstLeaves();
    assert t5 == Transition(s5, [Out("host", PlayerLeft("a", 1, 1, "abc"))]);
    var t6 := Handle(t5.next, open - {"a"}, HostClosed("host"));
    SessionHostLeaves();
    assert t6 == Transition(State([], BothCurrent), [Out("b", ResetMsg)]);
  }

  /** Four single-message sends, concatenated, form the literal list. */
  lemma Singletons4<T>(a: T, b: T, c: T, d: T)
    ensures [a] + [b] + [c] + [d] == [a, b, c, d]
  {
  }
}
