/** The lobby transactions of app.js: joining a room, starting the game and
    restarting a finished one. Start and restart are offered to the host
    only; the host check reads the client's copy of the room, which carries
    the same hostUid since no transaction changes it. */
module RoomLobby {
  import opened Basics
  import opened RoomState
  import opened RoomTurn

  /** The join callback, with the form's name check before it: a name of 1
      to 20 UTF-16 code units; the room must be waiting and the password hash
      must match; a uid already seated changes nothing; a new uid is seated
      at seat number len with score 0, unless six seats are taken. Joining
      commits exactly when all of that allows it, and touches only the
      players and the seats. */
  function JoinResult(cur: Room, caller: string, passHash: string, name: string): (res: Option<Room>)
    ensures res.Some? <==>
              && name != [] && Utf16Length(name) <= MAX_NAME && cur.status == Waiting && cur.passHash == passHash
              && (caller in cur.players || |cur.playerOrder| < MAX_ROOM_PLAYERS)
    ensures res.Some? ==> res.value == cur.(players := res.value.players, playerOrder := res.value.playerOrder)
    ensures res.Some? ==> caller in res.value.players
  {
    if |name| == 0 || Utf16Length(name) > MAX_NAME then None
    else if cur.status != Waiting || cur.passHash != passHash then None
    else
      var len := |cur.playerOrder|;
      if len >= MAX_ROOM_PLAYERS && caller !in cur.players then None
      else if caller in cur.players then Some(cur)
      else Some(cur.(players := cur.players[caller := RPlayer(name, 0)], playerOrder := cur.playerOrder[len := caller]))
  }

  /** A new player is seated at the end: seat len gets the caller, the
      caller's record has the name and score 0, and no one else moves. */
  lemma JoinSeatsNewPlayer(cur: Room, caller: string, passHash: string, name: string)
    requires JoinResult(cur, caller, passHash, name).Some? && caller !in cur.players
    requires forall k: nat :: k in cur.playerOrder <==> k < |cur.playerOrder|
    ensures var r := JoinResult(cur, caller, passHash, name).value;
            var len := |cur.playerOrder|;
            && len < MAX_ROOM_PLAYERS
            && |r.playerOrder| == len + 1 && r.playerOrder[len] == caller
            && (forall k: nat :: k in r.playerOrder <==> k < |r.playerOrder|)
            && (forall k :: k in cur.playerOrder ==> r.playerOrder[k] == cur.playerOrder[k])
            && r.players.Keys == cur.players.Keys + {caller} && r.players[caller] == RPlayer(name, 0)
            && (forall uid :: uid in cur.players ==> r.players[uid] == cur.players[uid])
  {
    var len := |cur.playerOrder|;
    assert len !in cur.playerOrder;
  }

  /** The form counts UTF-16 code units: eleven dice emoji (each outside the
      Basic Multilingual Plane) make 22 units and the name is refused,
      though it has only eleven characters. */
  lemma JoinCountsCodeUnits(cur: Room, caller: string, passHash: string)
    ensures var name := seq(11, _ => '\U{1F3B2}');
            |name| <= MAX_NAME && Utf16Length(name) == 22 && JoinResult(cur, caller, passHash, name).None?
  {
  }

  /** Joining again changes nothing: a seated caller leaves the room as it is. */
  lemma JoinIdempotent(cur: Room, caller: string, passHash: string, name: string)
    requires JoinResult(cur, caller, passHash, name).Some?
    ensures var once := JoinResult(cur, caller, passHash, name).value;
            JoinResult(once, caller, passHash, name) == Some(once)
  {
  }

  /** The start callback: the host moves a waiting room to playing, seat 0
      (or the host, failing that) gets the turn, and the game's message
      names that player ("Player" when there is no name). Dice and points
      are left as they are. A start commits exactly for the host of a
      waiting room with a new token, and then seat 0's player has the turn
      and no seat, score, die or point changes. */
  function StartResult(cur: Room, caller: string, token: string): (res: Option<Room>)
    ensures res.Some? <==> caller == cur.hostUid && cur.status == Waiting && cur.lastActionId != Some(token)
    ensures res.Some? ==>
              var r := res.value;
              && r == cur.(lastActionId := Some(token), status := Playing, turnIndex := 0, turnUid := r.turnUid,
                           game := cur.game.(message := r.game.message))
              && r.turnUid == FirstTurnUid(cur, caller)
              && (0 in cur.playerOrder && cur.playerOrder[0] != "" ==> r.turnUid == cur.playerOrder[0])
              && r.game.message == RoomTurnMessage(
                   if r.turnUid in cur.players && cur.players[r.turnUid].name != "" then cur.players[r.turnUid].name
                   else DEFAULT_NAME)
  {
    if caller != cur.hostUid then None
    else if cur.status != Waiting || cur.lastActionId == Some(token) then None
    else
      var uid := FirstTurnUid(cur, caller);
      var name := if uid in cur.players && cur.players[uid].name != "" then cur.players[uid].name else DEFAULT_NAME;
      Some(cur.(lastActionId := Some(token), status := Playing, turnIndex := 0, turnUid := uid,
                game := cur.game.(message := RoomTurnMessage(name))))
  }

  /** Every player's score set to 0. */
  function ZeroScores(players: map<string, RPlayer>): (r: map<string, RPlayer>)
    ensures r.Keys == players.Keys
    ensures forall uid :: uid in players ==> r[uid] == players[uid].(score := 0)
  {
    map uid | uid in players :: players[uid].(score := 0)
  }

  /** The restart callback: the host sends a finished room back to the
      lobby with no winner, seat 0 (or the host) to play first, every score
      0 and a fresh game. A restart commits exactly for the host of a
      finished room with a new token; the seats, the names, the host and
      the password stay. */
  function RestartResult(cur: Room, caller: string, token: string): (res: Option<Room>)
    ensures res.Some? <==> caller == cur.hostUid && cur.status == Finished && cur.lastActionId != Some(token)
    ensures res.Some? ==>
              var r := res.value;
              && r.status == Waiting && r.winnerUid.None? && r.turnIndex == 0
              && r.turnUid == FirstTurnUid(cur, caller) && r.lastActionId == Some(token)
              && r.hostUid == cur.hostUid && r.passHash == cur.passHash
              && r.players.Keys == cur.players.Keys && r.playerOrder == cur.playerOrder
              && (forall uid :: uid in r.players ==> r.players[uid] == RPlayer(cur.players[uid].name, 0))
              && r.game == FreshGame(WAITING_MSG)
  {
    if caller != cur.hostUid then None
    else if cur.status != Finished || cur.lastActionId == Some(token) then None
    else
      Some(cur.(lastActionId := Some(token), status := Waiting, winnerUid := None, turnIndex := 0,
                turnUid := FirstTurnUid(cur, caller), players := ZeroScores(cur.players),
                game := FreshGame(WAITING_MSG)))
  }

  /** The zeroing loop of the restart callback, uid by uid. */
  method ZeroEach(players: map<string, RPlayer>) returns (r: map<string, RPlayer>)
    ensures r == ZeroScores(players)
  {
    r := players;
    var keys := players.Keys;
    while keys != {}
      invariant keys <= players.Keys && r.Keys == players.Keys
      invariant forall uid :: uid in keys ==> r[uid] == players[uid]
      invariant forall uid :: uid in players && uid !in keys ==> r[uid] == players[uid].(score := 0)
      decreases |keys|
    {
      var uid :| uid in keys;
      r := r[uid := r[uid].(score := 0)];
      keys := keys - {uid};
    }
  }

  /** The restart callback step by step. */
  method RestartTxn(cur: Room, caller: string, token: string) returns (res: Option<Room>)
    ensures res == RestartResult(cur, caller, token)
  {
    if caller != cur.hostUid {
      return None;
    }
    if cur.status != Finished || cur.lastActionId == Some(token) {
      return None;
    }
    var room := cur.(lastActionId := Some(token));
    room := room.(status := Waiting, winnerUid := None, turnIndex := 0);
    room := room.(turnUid := if 0 in room.playerOrder && room.playerOrder[0] != "" then room.playerOrder[0] else caller);
    var players := ZeroEach(room.players);
    room := room.(players := players);
    room := room.(game := FreshGame(WAITING_MSG));
    return Some(room);
  }
}
