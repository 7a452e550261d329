/** A game room (`GameRoom` in src/conection/GameRoom.ts): its capacity
    policy and its insertion-ordered player table, whose display numbers are
    kept dense (1..size in join order) by renumbering on removal. */
module Rooms {
  import opened Common
  import OM = OrderedMap

  datatype GameType = Pong | Galaga

  /** A player entry. `attached` records whether the relay has stored the
      player's connection on it (`player.ws = ws`); the connection is the one
      whose identifier is `socketId`. */
  datatype PlayerInfo = PlayerInfo(socketId: ConnId, playerNumber: int, attached: bool)

  type Players = OM.Table<ConnId, PlayerInfo>

  /** `hostAttached` records whether the relay has stored the host's
      connection on the room (`room.hostWs = ws`). */
  datatype GameRoom = GameRoom(
    roomId: RoomId,
    gameType: GameType,
    minPlayers: int,
    maxPlayers: int,
    hostSocketId: ConnId,
    hostAttached: bool,
    players: Players)

  /** What `addPlayer` and `removePlayer` leave behind and return. */
  datatype Outcome = Outcome(room: GameRoom, player: Option<PlayerInfo>)

  const MaxPlayers: int := 2

  function MinPlayersFor(gameType: GameType): int
  {
    if gameType == Pong then 2 else 1
  }

  /** Distinct keys, and every entry is filed under its own socket id. */
  predicate WellKeyed(ps: Players)
  {
    && OM.KeysUnique(ps)
    && forall i :: 0 <= i < |ps| ==> ps[i].1.socketId == ps[i].0
  }

  /** Player numbers are exactly 1..size, in table order. */
  predicate Dense(ps: Players)
  {
    forall i :: 0 <= i < |ps| ==> ps[i].1.playerNumber == i + 1
  }

  /** Every player has its connection stored on it. */
  predicate AllAttached(ps: Players)
  {
    forall i :: 0 <= i < |ps| ==> ps[i].1.attached
  }

  /** The invariant every room keeps whatever its clients do. */
  predicate Valid(r: GameRoom)
  {
    && r.maxPlayers == MaxPlayers
    && r.minPlayers == MinPlayersFor(r.gameType)
    && |r.players| <= r.maxPlayers
    && WellKeyed(r.players)
  }

  /** The constructor: capacity 2, and a minimum of 2 players for pong and 1
      otherwise; no host connection stored yet. */
  function New(roomId: RoomId, gameType: GameType, hostSocketId: ConnId): (r: GameRoom)
    ensures Valid(r) && Dense(r.players) && |r.players| == 0
    ensures r.roomId == roomId && r.gameType == gameType && r.hostSocketId == hostSocketId
    ensures !r.hostAttached
    ensures r.maxPlayers == 2 && r.minPlayers == (if gameType == Pong then 2 else 1)
  {
    GameRoom(roomId, gameType, MinPlayersFor(gameType), MaxPlayers, hostSocketId, false, [])
  }

  function PlayerCount(r: GameRoom): int
  {
    |r.players|
  }

  predicate IsFull(r: GameRoom)
  {
    PlayerCount(r) >= r.maxPlayers
  }

  predicate IsReady(r: GameRoom)
  {
    PlayerCount(r) >= r.minPlayers
  }

  /** `getPlayer`: the entry stored for `socketId`, if it is a member. */
  function GetPlayer(r: GameRoom, socketId: ConnId): (p: Option<PlayerInfo>)
    ensures p.Some? <==> OM.HasKey(r.players, socketId)
    ensures WellKeyed(r.players) && p.Some? ==> p.value.socketId == socketId
  {
    OM.Get(r.players, socketId)
  }

  /** `addPlayer`: refuse when full; otherwise store a record numbered
      size + 1 under `socketId` (replacing, in place, a record already filed
      under that id). */
  function AddPlayer(r: GameRoom, socketId: ConnId): (res: Outcome)
    ensures IsFull(r) ==> res == Outcome(r, None)
    ensures !IsFull(r) ==> res.player == Some(PlayerInfo(socketId, PlayerCount(r) + 1, false))
    ensures !IsFull(r) ==> res.room == r.(players := res.room.players)
    ensures !IsFull(r) ==> GetPlayer(res.room, socketId) == res.player
    ensures Valid(r) ==> Valid(res.room)
  {
    if IsFull(r) then Outcome(r, None)
    else
      var p := PlayerInfo(socketId, PlayerCount(r) + 1, false);
      var ps := OM.Set(r.players, socketId, p);
      OM.GetSetSame(r.players, socketId, p);
      assert WellKeyed(r.players) ==> WellKeyed(ps) by {
        if WellKeyed(r.players) {
          OM.SetKeepsKeysUnique(r.players, socketId, p);
          forall i | 0 <= i < |ps| ensures ps[i].1.socketId == ps[i].0 {
            assert ps[i] in ps;
            if ps[i] != (socketId, p) {
              var j :| 0 <= j < |r.players| && r.players[j] == ps[i];
            }
          }
        }
      }
      Outcome(r.(players := ps), Some(p))
  }

  /** Gives players `first`, `first + 1`, ... in table order (the loop of
      `removePlayer`). */
  function Renumber(ps: Players, first: int): (r: Players)
    ensures |r| == |ps|
    ensures forall i :: 0 <= i < |ps| ==> r[i] == (ps[i].0, ps[i].1.(playerNumber := first + i))
  {
    if |ps| == 0 then []
    else [(ps[0].0, ps[0].1.(playerNumber := first))] + Renumber(ps[1..], first + 1)
  }

  /** `removePlayer`: nothing happens for a non-member; otherwise its entry is
      deleted, the others are renumbered from 1, and the removed record is
      returned with the number it had. */
  function RemovePlayer(r: GameRoom, socketId: ConnId): (res: Outcome)
    ensures !OM.HasKey(r.players, socketId) ==> res == Outcome(r, None)
    ensures OM.HasKey(r.players, socketId) ==>
      && res.player == GetPlayer(r, socketId)
      && res.room == r.(players := res.room.players)
      && PlayerCount(res.room) == PlayerCount(r) - 1
      && Dense(res.room.players)
    ensures Valid(r) ==> Valid(res.room) && !OM.HasKey(res.room.players, socketId)
    ensures AllAttached(r.players) ==> AllAttached(res.room.players)
  {
    match OM.Get(r.players, socketId)
    case None => Outcome(r, None)
    case Some(p) =>
      var rest := OM.Delete(r.players, socketId);
      var ps := Renumber(rest, 1);
      assert WellKeyed(r.players) ==> WellKeyed(ps) && !OM.HasKey(ps, socketId) by {
        if WellKeyed(r.players) {
          OM.DeleteRemovesKey(r.players, socketId);
          forall i | 0 <= i < |ps| ensures ps[i].1.socketId == ps[i].0 {
            assert rest[i] in rest;
          }
          forall i | 0 <= i < |ps| ensures ps[i].0 != socketId {
            assert ps[i].0 == rest[i].0;
          }
        }
      }
      assert AllAttached(r.players) ==> AllAttached(ps) by {
        if AllAttached(r.players) {
          forall i | 0 <= i < |ps| ensures ps[i].1.attached {
            assert rest[i] in rest;
            var j :| 0 <= j < |r.players| && r.players[j] == rest[i];
          }
        }
      }
      Outcome(r.(players := ps), Some(p))
  }

  /** The relays' `player.ws = ws` right after a successful `addPlayer`:
      marks the entry filed under `socketId` as attached and changes nothing
      else. */
  function AttachPlayer(r: GameRoom, socketId: ConnId): (r': GameRoom)
    ensures r' == r.(players := r'.players)
    ensures |r'.players| == |r.players|
    ensures forall j :: 0 <= j < |r.players| && j != OM.IndexOf(r.players, socketId) ==>
      r'.players[j] == r.players[j]
    ensures forall j :: 0 <= j < |r.players| ==>
      r'.players[j].0 == r.players[j].0 &&
      r'.players[j].1 == r.players[j].1.(attached := r'.players[j].1.attached)
    ensures OM.HasKey(r.players, socketId) ==>
      r'.players[OM.IndexOf(r.players, socketId)].1.attached
    ensures forall j :: 0 <= j < |r.players| && r.players[j].1.attached ==> r'.players[j].1.attached
  {
    match GetPlayer(r, socketId)
    case None => r
    case Some(p) => r.(players := OM.Set(r.players, socketId, p.(attached := true)))
  }

  /** Looking a player up after the attachment: the attached entry reads
      back with its socket and every other entry reads as before. */
  lemma AttachedLookup(r: GameRoom, socketId: ConnId, other: ConnId)
    ensures GetPlayer(r, socketId).Some? ==>
      GetPlayer(AttachPlayer(r, socketId), socketId) == Some(GetPlayer(r, socketId).value.(attached := true))
    ensures other != socketId ==> GetPlayer(AttachPlayer(r, socketId), other) == GetPlayer(r, other)
  {
    if GetPlayer(r, socketId).Some? {
      var p := GetPlayer(r, socketId).value;
      OM.GetSetSame(r.players, socketId, p.(attached := true));
      if other != socketId {
        OM.GetSetOther(r.players, socketId, p.(attached := true), other);
      }
    }
  }

  /** Attaching a connection keeps a room valid and keeps its numbering. */
  lemma AttachKeepsValid(r: GameRoom, socketId: ConnId)
    requires Valid(r)
    ensures Valid(AttachPlayer(r, socketId))
    ensures Dense(r.players) <==> Dense(AttachPlayer(r, socketId).players)
  {
    var ps := AttachPlayer(r, socketId).players;
    forall i, j | 0 <= i < j < |ps| ensures ps[i].0 != ps[j].0 {
      assert ps[i].0 == r.players[i].0 && ps[j].0 == r.players[j].0;
    }
  }

  /** A successful join (`addPlayer` then `player.ws = ws`) on a room whose
      players all have their connections stored leaves every player of the
      room with a stored connection, the newcomer included. */
  lemma {:induction false} JoinKeepsAllAttached(r: GameRoom, socketId: ConnId)
    requires Valid(r) && AllAttached(r.players) && !IsFull(r)
    ensures AllAttached(AttachPlayer(AddPlayer(r, socketId).room, socketId).players)
    ensures OM.HasKey(AttachPlayer(AddPlayer(r, socketId).room, socketId).players, socketId)
  {
    var added := AddPlayer(r, socketId);
    var ps := added.room.players;
    var p := added.player.value;
    assert GetPlayer(added.room, socketId) == Some(p);
    var i := OM.IndexOf(ps, socketId);
    assert 0 <= i;
    var qs := AttachPlayer(added.room, socketId).players;
    forall j | 0 <= j < |qs| ensures qs[j].1.attached {
      if j != i {
        assert ps[j] in ps;
        assert ps[j].0 != ps[i].0;
        var j' :| 0 <= j' < |r.players| && r.players[j'] == ps[j];
      }
    }
    assert qs[i].0 == socketId;
  }

  /** `addPlayer` with an id that is not yet a member, on a room that is not
      full, appends exactly one entry at the end, numbered old size + 1, and
      so keeps the numbering dense. */
  lemma AddFreshPlayer(r: GameRoom, socketId: ConnId)
    requires !IsFull(r) && !OM.HasKey(r.players, socketId)
    ensures AddPlayer(r, socketId).room.players
      == r.players + [(socketId, PlayerInfo(socketId, PlayerCount(r) + 1, false))]
    ensures PlayerCount(AddPlayer(r, socketId).room) == PlayerCount(r) + 1
    ensures Dense(r.players) ==> Dense(AddPlayer(r, socketId).room.players)
  {
    var ps := AddPlayer(r, socketId).room.players;
    assert ps == r.players + [ps[|r.players|]];
  }

  /** `addPlayer` with an id that is already a member overwrites that entry
      where it stands with the number size + 1: the table does not grow and
      the numbering is no longer dense. */
  lemma {:induction false} AddDuplicatePlayerBreaksDensity(r: GameRoom, socketId: ConnId)
    requires Valid(r) && Dense(r.players)
    requires !IsFull(r) && OM.HasKey(r.players, socketId)
    ensures PlayerCount(AddPlayer(r, socketId).room) == PlayerCount(r)
    ensures !Dense(AddPlayer(r, socketId).room.players)
  {
    var ps := AddPlayer(r, socketId).room.players;
    var i := OM.IndexOf(r.players, socketId);
    assert ps == r.players[i := (socketId, PlayerInfo(socketId, PlayerCount(r) + 1, false))];
    assert ps[i].1.playerNumber == PlayerCount(r) + 1 != i + 1;
  }

  /** `removePlayer` on a member deletes only that member's entry and gives
      the others the numbers 1..n in their existing order; the returned record
      is the deleted entry, still carrying its old number. */
  lemma {:induction false} RemovePlayerRenumbers(r: GameRoom, socketId: ConnId)
    requires WellKeyed(r.players) && OM.HasKey(r.players, socketId)
    ensures
      var i := OM.IndexOf(r.players, socketId);
      var res := RemovePlayer(r, socketId);
      && res.player == Some(r.players[i].1)
      && |res.room.players| == |r.players| - 1
      && forall j :: 0 <= j < |res.room.players| ==>
           var k := if j < i then j else j + 1;
           res.room.players[j] == (r.players[k].0, r.players[k].1.(playerNumber := j + 1))
  {
    var i := OM.IndexOf(r.players, socketId);
    OM.DeleteShape(r.players, socketId);
  }

  /** `removePlayer` keeps every other member. */
  lemma RemoveKeepsOthers(r: GameRoom, socketId: ConnId, other: ConnId)
    requires WellKeyed(r.players) && other != socketId
    ensures OM.HasKey(RemovePlayer(r, socketId).room.players, other) <==> OM.HasKey(r.players, other)
  {
    if OM.HasKey(r.players, socketId) {
      OM.GetDeleteOther(r.players, socketId, other);
      var rest := OM.Delete(r.players, socketId);
      var ps := Renumber(rest, 1);
      if OM.HasKey(rest, other) {
        var i :| 0 <= i < |rest| && rest[i].0 == other;
        assert ps[i].0 == other;
      }
      if OM.HasKey(ps, other) {
        var i :| 0 <= i < |ps| && ps[i].0 == other;
        assert rest[i].0 == other;
      }
    }
  }

  /** A newcomer added, given its socket, and removed again leaves the
      room exactly as it was; the removed record carries number size + 1. */
  lemma {:induction false} JoinThenRemoveRestores(r: GameRoom, socketId: ConnId)
    requires Valid(r) && Dense(r.players)
    requires !IsFull(r) && !OM.HasKey(r.players, socketId)
    ensures RemovePlayer(AttachPlayer(AddPlayer(r, socketId).room, socketId), socketId)
      == Outcome(r, Some(PlayerInfo(socketId, PlayerCount(r) + 1, true)))
  {
    var joined := AttachPlayer(AddPlayer(r, socketId).room, socketId);
    var info := PlayerInfo(socketId, PlayerCount(r) + 1, true);
    JoinedAppends(r, socketId);
    OM.AppendFresh(r.players, socketId, info);
    OM.DeleteLast(r.players, socketId, info);
    RenumberDense(r.players);
    var res := RemovePlayer(joined, socketId);
    assert res.room == joined.(players := r.players);
  }

  /** A newcomer's join, socket included, appends one entry to the table. */
  lemma JoinedAppends(r: GameRoom, socketId: ConnId)
    requires !IsFull(r) && !OM.HasKey(r.players, socketId)
    ensures
      var joined := AttachPlayer(AddPlayer(r, socketId).room, socketId);
      && joined == r.(players := joined.players)
      && joined.players == r.players + [(socketId, PlayerInfo(socketId, PlayerCount(r) + 1, true))]
  {
    var added := AddPlayer(r, socketId).room;
    var p := PlayerInfo(socketId, PlayerCount(r) + 1, false);
    AddFreshPlayer(r, socketId);
    assert added.players == r.players + [(socketId, p)];
    assert GetPlayer(added, socketId) == Some(p);
    OM.SetLast(r.players, socketId, p, p.(attached := true));
  }

  /** Renumbering a table that is already numbered 1..size changes nothing. */
  lemma RenumberDense(ps: Players)
    requires Dense(ps)
    ensures Renumber(ps, 1) == ps
  {
    var r := Renumber(ps, 1);
    forall i | 0 <= i < |ps| ensures r[i] == ps[i] {
      assert ps[i].1.(playerNumber := 1 + i) == ps[i].1;
    }
  }

  /** Capacity queries on a valid room: it is full exactly at 2 players, a
      pong room is ready exactly at 2 and a galaga room from 1 on. */
  lemma CapacityQueries(r: GameRoom)
    requires Valid(r)
    ensures 0 <= PlayerCount(r) <= MaxPlayers
    ensures IsFull(r) <==> PlayerCount(r) == MaxPlayers
    ensures r.gameType == Pong ==> (IsReady(r) <==> PlayerCount(r) == 2)
    ensures r.gameType == Galaga ==> (IsReady(r) <==> PlayerCount(r) >= 1)
  {
  }

  /** Offers the connections `ids` to `r` one after another. */
  function AdmitAll(r: GameRoom, ids: seq<ConnId>): GameRoom
    decreases |ids|
  {
    if |ids| == 0 then r else AdmitAll(AddPlayer(r, ids[0]).room, ids[1..])
  }

  /** Admitting distinct newcomers one after another: the count is the
      number of successful admissions, which stop at the capacity, the room
      is full exactly when the admissions reached it, and the numbering stays
      dense. */
  lemma {:induction false} AdmitAllCounts(r: GameRoom, ids: seq<ConnId>)
    requires Valid(r) && Dense(r.players)
    requires forall i, j :: 0 <= i < j < |ids| ==> ids[i] != ids[j]
    requires forall i :: 0 <= i < |ids| ==> !OM.HasKey(r.players, ids[i])
    ensures Valid(AdmitAll(r, ids)) && Dense(AdmitAll(r, ids).players)
    ensures PlayerCount(AdmitAll(r, ids)) ==
      if PlayerCount(r) + |ids| <= MaxPlayers then PlayerCount(r) + |ids| else MaxPlayers
    ensures IsFull(AdmitAll(r, ids)) <==> PlayerCount(r) + |ids| >= MaxPlayers
    decreases |ids|
  {
    if |ids| > 0 {
      var r1 := AddPlayer(r, ids[0]).room;
      if IsFull(r) {
        assert r1 == r;
      } else {
        AddFreshPlayer(r, ids[0]);
        forall i | 0 <= i < |ids[1..]| ensures !OM.HasKey(r1.players, ids[1..][i]) {
          AddKeepsOthersFresh(r, ids[0], ids[i + 1]);
        }
      }
      AdmitAllCounts(r1, ids[1..]);
    }
  }

  /** Adding one newcomer leaves every other id a non-member. */
  lemma AddKeepsOthersFresh(r: GameRoom, x: ConnId, y: ConnId)
    requires !IsFull(r) && !OM.HasKey(r.players, x) && !OM.HasKey(r.players, y) && x != y
    ensures !OM.HasKey(AddPlayer(r, x).room.players, y)
  {
    AddFreshPlayer(r, x);
    var ps := AddPlayer(r, x).room.players;
    forall j | 0 <= j < |ps| ensures ps[j].0 != y {
      if j < |r.players| { assert ps[j] == r.players[j]; }
    }
  }
}
