/** What every transaction of app.js keeps true of a room, from createRoom
    on: one to six seats numbered 0, 1, …, each seating a player; the host
    seated; banked scores multiples of 50 between 0 and 5000, pairwise
    different unless 0; turn points multiples of 50, and none before the
    turn's first roll; a player holding the
    turn while the game is on; a seated winner once it is finished. And the
    action token: a callback that committed with a token aborts when run
    again with it. */
module RoomInv {
  import opened Basics
  import opened Rules
  import opened Scoring
  import opened ScoringLaws
  import opened RoomState
  import opened RoomTurn
  import opened RoomPlay
  import opened RoomLobby
  import SoloRoll

  ghost predicate SeatsDense(r: Room)
  {
    forall k: nat :: k in r.playerOrder <==> k < |r.playerOrder|
  }

  predicate ScoresOk(players: map<string, RPlayer>)
  {
    forall uid :: uid in players ==>
      0 <= players[uid].score <= WINNING_SCORE && players[uid].score % 50 == 0
  }

  /** No two players share a non-zero score. */
  predicate NonzeroDistinct(players: map<string, RPlayer>)
  {
    forall u, v :: u in players && v in players && u != v && players[u].score != 0 ==>
      players[u].score != players[v].score
  }

  /** Turn points are multiples of 50, and there are none before the turn's first roll. */
  predicate PointsOk(g: Game)
  {
    && g.turnScore >= 0 && g.turnScore % 50 == 0 && g.rollScore >= 0 && g.rollScore % 50 == 0
    && g.rollCount >= 0 && (g.rollCount == 0 ==> g.turnScore == 0 && g.rollScore == 0)
  }

  ghost predicate RoomInv(r: Room)
  {
    && 1 <= |r.playerOrder| <= MAX_ROOM_PLAYERS
    && SeatsDense(r)
    && (forall k :: k in r.playerOrder ==> r.playerOrder[k] in r.players)
    && r.hostUid in r.players
    && ScoresOk(r.players) && NonzeroDistinct(r.players)
    && PointsOk(r.game)
    && (r.status == Playing ==> r.turnUid in r.players)
    && (r.status == Finished ==> r.winnerUid.Some? && r.winnerUid.value in r.players)
  }

  /** The host and the password never change. */
  predicate SameHost(r: Room, cur: Room)
  {
    r.hostUid == cur.hostUid && r.passHash == cur.passHash
  }

  lemma CreateEstablishes(host: string, passHash: string, name: string)
    ensures RoomInv(CreateRoom(host, passHash, name))
  {
    var order := map[0 := host];
    assert order.Keys == {0};
    assert |order| == 1;
    forall k: nat ensures k in order <==> k < |order| {
    }
  }

  /** A change of the token and the game alone keeps the invariant when the
      new turn points are multiples of 50. */
  lemma GameChangePreserves(cur: Room, r: Room)
    requires RoomInv(cur) && PointsOk(r.game)
    requires r == cur.(lastActionId := r.lastActionId, game := r.game)
    ensures RoomInv(r)
  {
  }

  /** What the bump leaves behind: the banker at `total`, every other player
      either at 0 or at an unchanged score different from `total`. */
  predicate BumpShape(players: map<string, RPlayer>, b: map<string, RPlayer>, banker: string, total: int)
  {
    && b.Keys == players.Keys && banker in b && b[banker].score == total
    && forall uid :: uid in b && uid != banker ==>
         b[uid].score == 0 || (b[uid].score == players[uid].score && players[uid].score != total)
  }

  lemma BumpedShape(players: map<string, RPlayer>, banker: string, total: int)
    requires banker in players
    ensures BumpShape(players, Bumped(players[banker := players[banker].(score := total)], banker, total), banker, total)
  {
  }

  lemma ShapeKeepsScores(players: map<string, RPlayer>, b: map<string, RPlayer>, banker: string, total: int)
    requires ScoresOk(players) && NonzeroDistinct(players) && BumpShape(players, b, banker, total)
    requires 0 < total <= WINNING_SCORE && total % 50 == 0
    ensures ScoresOk(b) && NonzeroDistinct(b)
  {
    forall u, v | u in b && v in b && u != v && b[u].score != 0
      ensures b[u].score != b[v].score
    {
      if u != banker && v != banker && b[v].score != 0 {
        assert players[u].score != players[v].score;
      }
    }
  }

  /** The bump after a bank keeps scores in range and non-zero scores apart. */
  lemma BumpPreserves(players: map<string, RPlayer>, banker: string, total: int)
    requires ScoresOk(players) && NonzeroDistinct(players) && banker in players
    requires 0 < total <= WINNING_SCORE && total % 50 == 0
    ensures var b := Bumped(players[banker := players[banker].(score := total)], banker, total);
            b.Keys == players.Keys && ScoresOk(b) && NonzeroDistinct(b)
  {
    var b := Bumped(players[banker := players[banker].(score := total)], banker, total);
    BumpedShape(players, banker, total);
    ShapeKeepsScores(players, b, banker, total);
  }

  /** advanceTurn keeps the invariant and, with a seat taken, always finds a player. */
  lemma AdvancePreserves(r: Room)
    requires RoomInv(r)
    ensures RoomInv(AdvanceTurn(r)) && SameHost(AdvanceTurn(r), r)
    ensures FirstOccupied(r, 1).Some?
  {
    AdvanceFindsNoneIff(r);
    assert Occupied(r, 0);
    AdvancePicksPlayer(r);
  }

  lemma JoinPreserves(cur: Room, caller: string, passHash: string, name: string)
    requires RoomInv(cur) && JoinResult(cur, caller, passHash, name).Some?
    ensures var r := JoinResult(cur, caller, passHash, name).value; RoomInv(r) && SameHost(r, cur)
  {
    if caller !in cur.players {
      JoinSeatsNewPlayer(cur, caller, passHash, name);
    }
  }

  lemma StartPreserves(cur: Room, caller: string, token: string)
    requires RoomInv(cur) && StartResult(cur, caller, token).Some?
    ensures var r := StartResult(cur, caller, token).value; RoomInv(r) && SameHost(r, cur)
  {
    assert 0 in cur.playerOrder;
  }

  lemma RestartPreserves(cur: Room, caller: string, token: string)
    requires RoomInv(cur) && RestartResult(cur, caller, token).Some?
    ensures var r := RestartResult(cur, caller, token).value; RoomInv(r) && SameHost(r, cur)
  {
  }

  lemma TogglePreserves(cur: Room, i: nat)
    requires RoomInv(cur) && ToggleHold(cur, i).Some?
    ensures var r := ToggleHold(cur, i).value; RoomInv(r) && SameHost(r, cur)
  {
  }

  /** The points a roll leaves are multiples of 50: each is 0, earlier
      points, or the score of the new dice. */
  lemma RollPointsOk(before: Game, g: Game, rolled: seq<Die>)
    requires PointsOk(before) && g.rollCount == before.rollCount + 1
    requires g.rollScore == 0 || g.rollScore == Score(rolled)
    requires g.turnScore == 0 || g.turnScore == before.turnScore || g.turnScore == before.turnScore + before.rollScore
    ensures PointsOk(g)
  {
    SumOf50s(before.turnScore, before.rollScore);
  }

  /** A roll keeps the invariant: the new roll score is a score of the dice,
      a multiple of 50. */
  lemma RollPreserves(cur: Room, caller: string, token: string, draws: seq<Face>)
    requires RoomInv(cur) && |draws| == |RollDice(cur)| && RollResult(cur, caller, token, draws).Some?
    ensures var r := RollResult(cur, caller, token, draws).value; RoomInv(r) && SameHost(r, cur)
  {
    var r := RollResult(cur, caller, token, draws).value;
    var rolled := SoloRoll.Redraw(RollDice(cur), draws);
    assert r == cur.(lastActionId := Some(token), game := r.game) by {
      RollDiceOutcome(cur, caller, token, draws);
    }
    assert PointsOk(r.game) by {
      RollScoreOutcome(cur, caller, token, draws);
      RollPointsOk(cur.game, r.game, rolled);
    }
    GameChangePreserves(cur, r);
  }

  /** No points are lost between rolls: a roll that scores carries the turn
      total and the previous roll's points forward in full. */
  lemma RollKeepsPoints(cur: Room, caller: string, token: string, draws: seq<Face>)
    requires RoomInv(cur) && |draws| == |RollDice(cur)| && RollResult(cur, caller, token, draws).Some?
    ensures var g := RollResult(cur, caller, token, draws).value.game;
            g.rollScore != 0 ==> g.turnScore == cur.game.turnScore + cur.game.rollScore
  {
    RollScoreOutcome(cur, caller, token, draws);
  }

  /** The scoring part of a bank keeps the invariant. */
  lemma BankedPreserves(r: Room, banker: string, total: int)
    requires RoomInv(r) && banker in r.players
    requires 0 < total <= WINNING_SCORE && total % 50 == 0
    ensures RoomInv(Banked(r, banker, total)) && SameHost(Banked(r, banker, total), r)
  {
    BumpPreserves(r.players, banker, total);
  }

  /** A bank that scores keeps the invariant. */
  lemma BankScoringPreserves(cur: Room, caller: string, token: string)
    requires RoomInv(cur) && caller in cur.players && TurnPoints(cur) != 0
    requires cur.players[caller].score + TurnPoints(cur) <= WINNING_SCORE
    ensures var next := AdvanceTurn(Banked(cur.(lastActionId := Some(token)), caller, cur.players[caller].score + TurnPoints(cur)));
            RoomInv(next) && SameHost(next, cur)
  {
    var r := cur.(lastActionId := Some(token));
    var total := cur.players[caller].score + TurnPoints(cur);
    assert 0 < total && total % 50 == 0 by {
      SumOf50s(cur.game.turnScore, cur.game.rollScore);
      SumOf50s(cur.players[caller].score, TurnPoints(cur));
    }
    assert RoomInv(r) && SameHost(r, cur) by {
      GameChangePreserves(cur, r);
    }
    var b := Banked(r, caller, total);
    assert RoomInv(b) && SameHost(b, cur) by {
      BankedPreserves(r, caller, total);
    }
    AdvancePreserves(b);
  }

  /** The predicate of the banks that change no score. */
  predicate QuietBank(cur: Room, caller: string, threshold: nat)
  {
    TurnPoints(cur) == 0 ||
    (caller in cur.players &&
     ((cur.players[caller].score == 0 && TurnPoints(cur) < threshold) ||
      cur.players[caller].score + TurnPoints(cur) > WINNING_SCORE))
  }

  lemma QuietBankPreserves(cur: Room, caller: string, token: string, threshold: nat)
    requires RoomInv(cur) && cur.turnUid == caller && cur.lastActionId != Some(token) && QuietBank(cur, caller, threshold)
    ensures var r := BankResult(cur, caller, token, threshold).value; RoomInv(r) && SameHost(r, cur)
  {
    var r := cur.(lastActionId := Some(token));
    BankNoScoreChange(cur, caller, token, threshold);
    GameChangePreserves(cur, r);
    AdvancePreserves(r);
    InvOfResult(BankResult(cur, caller, token, threshold), AdvanceTurn(r), cur);
  }

  lemma ScoringBankPreserves(cur: Room, caller: string, token: string, threshold: nat)
    requires RoomInv(cur) && cur.turnUid == caller && cur.lastActionId != Some(token)
    requires caller in cur.players && !QuietBank(cur, caller, threshold)
    ensures var r := BankResult(cur, caller, token, threshold).value; RoomInv(r) && SameHost(r, cur)
  {
    var r := cur.(lastActionId := Some(token));
    BankScoringShape(cur, caller, token, threshold);
    BankScoringPreserves(cur, caller, token);
    InvOfResult(BankResult(cur, caller, token, threshold), AdvanceTurn(Banked(r, caller, cur.players[caller].score + TurnPoints(cur))), cur);
  }

  /** A bank keeps the invariant: a new total is at most 5000 and a multiple
      of 50, and the bump clears every other player holding it. */
  lemma BankPreserves(cur: Room, caller: string, token: string, threshold: nat)
    requires RoomInv(cur) && BankResult(cur, caller, token, threshold).Some?
    ensures var r := BankResult(cur, caller, token, threshold).value; RoomInv(r) && SameHost(r, cur)
  {
    if QuietBank(cur, caller, threshold) {
      QuietBankPreserves(cur, caller, token, threshold);
    } else {
      ScoringBankPreserves(cur, caller, token, threshold);
    }
  }

  lemma InvOfResult(res: Option<Room>, next: Room, cur: Room)
    requires res == Some(next) && RoomInv(next) && SameHost(next, cur)
    ensures RoomInv(res.value) && SameHost(res.value, cur)
  {
  }

  // ---------------------------------------------------------------------
  // The action token

  /** A committed roll records its token, and the same token never commits again. */
  lemma RollTokenOnce(cur: Room, caller: string, token: string, draws: seq<Face>, draws2: seq<Face>)
    requires |draws| == |RollDice(cur)| && RollResult(cur, caller, token, draws).Some?
    requires |draws2| == |RollDice(RollResult(cur, caller, token, draws).value)|
    ensures var r := RollResult(cur, caller, token, draws).value;
            r.lastActionId == Some(token) && RollResult(r, caller, token, draws2).None?
  {
  }

  /** A committed bank records its token, and the same token never commits
      again, so a repeated bank has the effect of one. */
  lemma BankTokenOnce(cur: Room, caller: string, token: string, threshold: nat)
    requires BankResult(cur, caller, token, threshold).Some?
    ensures var r := BankResult(cur, caller, token, threshold).value;
            && r.lastActionId == Some(token) && BankResult(r, caller, token, threshold).None?
            && Commit(r, BankResult(r, caller, token, threshold)) == r
  {
  }

  /** Start and restart record their token too, and the same token never commits again. */
  lemma LobbyTokenOnce(cur: Room, caller: string, token: string)
    ensures StartResult(cur, caller, token).Some? ==>
              var r := StartResult(cur, caller, token).value;
              r.lastActionId == Some(token) && StartResult(r, caller, token).None?
    ensures RestartResult(cur, caller, token).Some? ==>
              var r := RestartResult(cur, caller, token).value;
              r.lastActionId == Some(token) && RestartResult(r, caller, token).None?
  {
  }
}
