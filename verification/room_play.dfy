/** The in-game transactions of app.js: the roll, the bank and the hold
    toggle. The roll and the bank abort unless the caller holds the turn and
    the action's token differs from the last committed one. */
module RoomPlay {
  import opened Basics
  import opened Rules
  import opened Scoring
  import opened ScoringLaws
  import opened NetScore
  import opened RoomState
  import opened RoomTurn
  import SoloState
  import SoloRoll

  // ---------------------------------------------------------------------
  // Roll

  /** The auto-hold of a roll: every scoring die is flagged scoring and held. */
  function AutoHold(dice: seq<Die>): (r: seq<Die>)
    ensures |r| == |dice|
    ensures forall i :: 0 <= i < |r| ==>
              && r[i].face == dice[i].face
              && (r[i].held <==> dice[i].held || i in ScoringSet(dice))
              && (r[i].scoring <==> dice[i].scoring || i in ScoringSet(dice))
  {
    seq(|dice|, i requires 0 <= i < |dice| =>
      if i in ScoringSet(dice) then dice[i].(scoring := true, held := true) else dice[i])
  }

  /** The dice the roll works on, as the callback finds them. */
  function RollDice(cur: Room): seq<Die>
  {
    NormaliseDice(cur.game.dice)
  }

  /** The roll callback. After the guards: a re-roll moves rollScore into
      turnScore; the dice are normalised, released if all were held, and the
      unheld ones re-drawn; the new roll is scored and its scoring dice are
      held; a zero score clears the turn with the Farkle message, any other
      score says "Hot Dice!" when all five dice are now held and "Roll or
      Bank" otherwise. The roll commits exactly when the caller holds the
      turn and the token is new, and then changes only the game and the token. */
  function RollResult(cur: Room, caller: string, token: string, draws: seq<Face>): (res: Option<Room>)
    requires |draws| == |RollDice(cur)|
    ensures res.Some? <==> cur.turnUid == caller && cur.lastActionId != Some(token)
    ensures res.Some? ==> res.value == cur.(lastActionId := Some(token), game := res.value.game)
    ensures res.Some? ==> res.value.game.rollCount == cur.game.rollCount + 1
  {
    if cur.turnUid != caller || cur.lastActionId == Some(token) then None
    else
      var g := cur.game;
      var turnScore := if g.rollCount > 0 then g.turnScore + g.rollScore else g.turnScore;
      var rolled := SoloRoll.Redraw(RollDice(cur), draws);
      var score := Score(rolled);
      var dice := AutoHold(rolled);
      var g' :=
        if score == 0 then Game(DiceArray(dice), 0, 0, g.rollCount + 1, SoloState.FARKLE_MSG)
        else Game(DiceArray(dice), turnScore, score, g.rollCount + 1,
                  if SoloState.HeldCount(dice) == NUM_DICE then ROOM_HOT_DICE_MSG else ROLL_OR_BANK_MSG);
      Some(cur.(lastActionId := Some(token), game := g'))
  }

  /** The roll callback step by step, scoring with calcScore and holding its
      dice one index at a time. */
  method RollTxn(cur: Room, caller: string, token: string, draws: seq<Face>) returns (res: Option<Room>)
    requires |draws| == |RollDice(cur)|
    ensures res == RollResult(cur, caller, token, draws)
  {
    if cur.turnUid != caller {
      return None;
    }
    if cur.lastActionId == Some(token) {
      return None;
    }
    var room := cur.(lastActionId := Some(token));
    var g := room.game;
    if g.rollCount > 0 {
      g := g.(turnScore := g.turnScore + g.rollScore);
    }
    var dice := NormaliseDice(g.dice);
    dice := SoloRoll.RedrawDice(dice, draws);
    var score;
    score, dice := ScoreAndHold(dice);
    g := g.(dice := DiceArray(dice), rollScore := score, rollCount := g.rollCount + 1);
    if score == 0 {
      g := g.(message := SoloState.FARKLE_MSG, turnScore := 0, rollScore := 0);
    } else {
      var heldCnt := SoloState.HeldCount(dice);
      g := g.(message := if heldCnt == NUM_DICE then ROOM_HOT_DICE_MSG else ROLL_OR_BANK_MSG);
    }
    room := room.(game := g);
    return Some(room);
  }

  /** Scores the new roll with calcScore and holds its scoring dice, one
      index at a time. */
  method ScoreAndHold(rolled: seq<Die>) returns (score: nat, dice: seq<Die>)
    ensures score == Score(rolled) && dice == AutoHold(rolled)
  {
    var scoringIdx;
    score, scoringIdx := CalcScore(rolled);
    dice := rolled;
    for j := 0 to |scoringIdx|
      invariant |dice| == |rolled|
      invariant forall i :: 0 <= i < |rolled| ==>
                  dice[i] == if i in scoringIdx[..j] then rolled[i].(scoring := true, held := true) else rolled[i]
    {
      var idx := scoringIdx[j];
      assert idx in ScoringSet(rolled);
      assert scoringIdx[..j + 1] == scoringIdx[..j] + [idx];
      dice := dice[idx := dice[idx].(scoring := true, held := true)];
    }
    assert scoringIdx[..|scoringIdx|] == scoringIdx;
  }

  /** What a committed roll does to the dice: a held die keeps its face and
      stays held unless all were held, every other die shows its draw; a die
      is flagged scoring exactly when it scores in the new roll, and every
      scoring die is held. Nothing outside the game changes but the token. */
  lemma RollDiceOutcome(cur: Room, caller: string, token: string, draws: seq<Face>)
    requires |draws| == |RollDice(cur)|
    requires RollResult(cur, caller, token, draws).Some?
    ensures var r := RollResult(cur, caller, token, draws).value;
            var old_ := RollDice(cur);
            var rolled := SoloRoll.Redraw(old_, draws);
            && r == cur.(lastActionId := Some(token), game := r.game)
            && r.game.dice.DiceArray? && |r.game.dice.list| == |old_|
            && r.game.rollCount == cur.game.rollCount + 1
            && (forall i :: 0 <= i < |old_| && !SoloRoll.AllHeld(old_) && old_[i].held ==>
                  r.game.dice.list[i].face == old_[i].face && r.game.dice.list[i].held && !r.game.dice.list[i].scoring)
            && (forall i :: 0 <= i < |old_| && (SoloRoll.AllHeld(old_) || !old_[i].held) ==>
                  r.game.dice.list[i].face == draws[i])
            && (forall i :: 0 <= i < |old_| ==> (r.game.dice.list[i].scoring <==> i in ScoringSet(rolled)))
            && (forall i :: 0 <= i < |old_| && r.game.dice.list[i].scoring ==> r.game.dice.list[i].held)
  {
  }

  /** The points and the message of a committed roll: a zero score (no die
      scoring) clears the turn with the Farkle message; otherwise the roll
      score is the score of the new dice, earlier points are kept (the
      previous roll folded in on a re-roll), and "Hot Dice!" shows exactly
      when five dice are held after the auto-hold. */
  lemma RollScoreOutcome(cur: Room, caller: string, token: string, draws: seq<Face>)
    requires |draws| == |RollDice(cur)|
    requires RollResult(cur, caller, token, draws).Some?
    ensures var g := RollResult(cur, caller, token, draws).value.game;
            var rolled := SoloRoll.Redraw(RollDice(cur), draws);
            var before := if cur.game.rollCount > 0 then cur.game.turnScore + cur.game.rollScore else cur.game.turnScore;
            && (Score(rolled) == 0 <==> forall i :: 0 <= i < |g.dice.list| ==> !g.dice.list[i].scoring)
            && (Score(rolled) == 0 ==> g.turnScore == 0 && g.rollScore == 0 && g.message == SoloState.FARKLE_MSG)
            && (Score(rolled) != 0 ==>
                  && g.rollScore == Score(rolled) && g.turnScore == before
                  && (g.message == ROOM_HOT_DICE_MSG <==> SoloState.HeldCount(g.dice.list) == NUM_DICE)
                  && (g.message == ROOM_HOT_DICE_MSG || g.message == ROLL_OR_BANK_MSG))
  {
    var rolled := SoloRoll.Redraw(RollDice(cur), draws);
    ScoreZeroIffNoScoringDice(rolled);
    var g := RollResult(cur, caller, token, draws).value.game;
    if Score(rolled) != 0 {
      var i :| i in ScoringSet(rolled);
      assert g.dice.list[i].scoring;
    }
  }

  /** With five dice, "Hot Dice!" means the roll scored and every die is now held. */
  lemma RollHotDiceAllHeld(cur: Room, caller: string, token: string, draws: seq<Face>)
    requires |draws| == |RollDice(cur)| && |RollDice(cur)| == NUM_DICE
    requires RollResult(cur, caller, token, draws).Some?
    ensures var g := RollResult(cur, caller, token, draws).value.game;
            g.message == ROOM_HOT_DICE_MSG <==> g.rollScore > 0 && SoloRoll.AllHeld(g.dice.list)
  {
    var g := RollResult(cur, caller, token, draws).value.game;
    SoloRoll.HeldCountAll(g.dice.list);
    RollScoreOutcome(cur, caller, token, draws);
  }

  // ---------------------------------------------------------------------
  // Bank

  /** The bump: every player other than the banker whose score equals `total` drops to 0. */
  function Bumped(players: map<string, RPlayer>, banker: string, total: int): (r: map<string, RPlayer>)
    ensures r.Keys == players.Keys
    ensures forall uid :: uid in players && (uid == banker || players[uid].score != total) ==> r[uid] == players[uid]
    ensures forall uid :: uid in players && uid != banker && players[uid].score == total ==> r[uid] == players[uid].(score := 0)
  {
    map uid | uid in players :: if uid != banker && players[uid].score == total then players[uid].(score := 0) else players[uid]
  }

  /** A scoring bank before the turn passes: the banker's score becomes
      `total`, the others holding it are bumped, and exactly 5000 finishes
      the game with the banker as winner. */
  function Banked(r: Room, banker: string, total: int): (b: Room)
    requires banker in r.players
    ensures b.players.Keys == r.players.Keys
    ensures b.players[banker] == r.players[banker].(score := total)
    ensures forall uid :: uid in r.players && uid != banker ==>
              b.players[uid] == if r.players[uid].score == total then r.players[uid].(score := 0) else r.players[uid]
    ensures if total == WINNING_SCORE then b.status == Finished && b.winnerUid == Some(banker)
            else b.status == r.status && b.winnerUid == r.winnerUid
    ensures b == r.(players := b.players, status := b.status, winnerUid := b.winnerUid)
  {
    var r2 := r.(players := Bumped(r.players[banker := r.players[banker].(score := total)], banker, total));
    if total == WINNING_SCORE then r2.(status := Finished, winnerUid := Some(banker)) else r2
  }

  /** The points the turn would bank. */
  function TurnPoints(cur: Room): int
  {
    cur.game.turnScore + cur.game.rollScore
  }

  /** The bank callback, for an entry threshold `threshold` (app.js uses
      ENTRY_THRESHOLD, 600). After the guards: nothing to bank, a player
      still at 0 banking under the threshold, or a total past 5000 only pass
      the turn; otherwise the banker's score becomes the total, every other
      player holding that total is bumped to 0, exactly 5000 finishes the
      game with the banker as winner, and the turn passes in every case. A
      caller without a player record aborts the callback (reading its score
      fails) once there are points to bank. The bank commits exactly when
      the caller holds the turn, the token is new, and either there is
      nothing to bank or the caller has a player record; it records the
      token and keeps the host, the password and the seats. */
  function BankResult(cur: Room, caller: string, token: string, threshold: nat): (res: Option<Room>)
    ensures res.Some? <==>
              cur.turnUid == caller && cur.lastActionId != Some(token) && (TurnPoints(cur) == 0 || caller in cur.players)
    ensures res.Some? ==> && res.value.lastActionId == Some(token) && res.value.hostUid == cur.hostUid
                          && res.value.passHash == cur.passHash && res.value.playerOrder == cur.playerOrder
                          && res.value.players.Keys == cur.players.Keys
  {
    if cur.turnUid != caller || cur.lastActionId == Some(token) then None
    else
      var r := cur.(lastActionId := Some(token));
      var pts := TurnPoints(cur);
      if pts == 0 then Some(AdvanceTurn(r))
      else if caller !in cur.players then None
      else
        var p := cur.players[caller];
        if p.score == 0 && pts < threshold then Some(AdvanceTurn(r))
        else if p.score + pts > WINNING_SCORE then Some(AdvanceTurn(r))
        else
          Some(AdvanceTurn(Banked(r, caller, p.score + pts)))
  }

  /** The bump loop of the bank callback, over every uid of the record. */
  method BumpOthers(players: map<string, RPlayer>, banker: string, total: int) returns (r: map<string, RPlayer>)
    ensures r == Bumped(players, banker, total)
  {
    r := players;
    var keys := players.Keys;
    while keys != {}
      invariant keys <= players.Keys && r.Keys == players.Keys
      invariant forall uid :: uid in keys ==> r[uid] == players[uid]
      invariant forall uid :: uid in players && uid !in keys ==> r[uid] == Bumped(players, banker, total)[uid]
      decreases |keys|
    {
      var uid :| uid in keys;
      if uid != banker && r[uid].score == total {
        r := r[uid := r[uid].(score := 0)];
      }
      keys := keys - {uid};
    }
  }

  /** The bank callback step by step. */
  method BankTxn(cur: Room, caller: string, token: string, threshold: nat) returns (res: Option<Room>)
    ensures res == BankResult(cur, caller, token, threshold)
  {
    if cur.turnUid != caller || cur.lastActionId == Some(token) {
      return None;
    }
    var room := cur.(lastActionId := Some(token));
    var g := room.game;
    var pts := g.turnScore + g.rollScore;
    if pts == 0 {
      room := AdvanceTurnLoop(room);
      return Some(room);
    }
    if caller !in room.players {
      return None;
    }
    var p := room.players[caller];
    if p.score == 0 && pts < threshold {
      room := AdvanceTurnLoop(room);
      return Some(room);
    }
    var newTotal := p.score + pts;
    if newTotal > WINNING_SCORE {
      room := AdvanceTurnLoop(room);
      return Some(room);
    }
    room := room.(players := room.players[caller := p.(score := newTotal)]);
    var bumped := BumpOthers(room.players, caller, newTotal);
    room := room.(players := bumped);
    if newTotal == WINNING_SCORE {
      room := room.(status := Finished, winnerUid := Some(caller));
    }
    room := AdvanceTurnLoop(room);
    return Some(room);
  }

  /** The banks that change no score: nothing to bank, the entry rule, or an
      overshoot. The token is recorded and the turn passes; nothing else changes. */
  lemma BankNoScoreChange(cur: Room, caller: string, token: string, threshold: nat)
    requires cur.turnUid == caller && cur.lastActionId != Some(token)
    requires TurnPoints(cur) == 0 ||
             (caller in cur.players &&
              ((cur.players[caller].score == 0 && TurnPoints(cur) < threshold) ||
               cur.players[caller].score + TurnPoints(cur) > WINNING_SCORE))
    ensures BankResult(cur, caller, token, threshold) == Some(AdvanceTurn(cur.(lastActionId := Some(token))))
    ensures BankResult(cur, caller, token, threshold).value.players == cur.players
    ensures BankResult(cur, caller, token, threshold).value.status == cur.status
  {
  }

  /** A bank that scores: the banker's score becomes old score + points (at
      most 5000); every other player holding that total, and only those,
      drops to 0 — on a winning bank too; the game finishes, with the banker
      as winner, exactly at 5000; and the turn passes either way. */
  lemma BankScores(cur: Room, caller: string, token: string, threshold: nat)
    requires cur.turnUid == caller && cur.lastActionId != Some(token) && caller in cur.players
    requires TurnPoints(cur) != 0
    requires !(cur.players[caller].score == 0 && TurnPoints(cur) < threshold)
    requires cur.players[caller].score + TurnPoints(cur) <= WINNING_SCORE
    ensures var r := BankResult(cur, caller, token, threshold).value;
            var total := cur.players[caller].score + TurnPoints(cur);
            && r.players.Keys == cur.players.Keys
            && r.players[caller].score == total && r.players[caller].name == cur.players[caller].name
            && (forall uid :: uid in cur.players && uid != caller ==>
                  r.players[uid] == if cur.players[uid].score == total then cur.players[uid].(score := 0) else cur.players[uid])
            && (total == WINNING_SCORE ==> r.status == Finished && r.winnerUid == Some(caller))
            && (total != WINNING_SCORE ==> r.status == cur.status && r.winnerUid == cur.winnerUid)
            && r.lastActionId == Some(token)
  {
    var total := cur.players[caller].score + TurnPoints(cur);
  }

  /** The shape of a scoring bank: the scoring step, then the turn passes. */
  lemma BankScoringShape(cur: Room, caller: string, token: string, threshold: nat)
    requires cur.turnUid == caller && cur.lastActionId != Some(token) && caller in cur.players
    requires TurnPoints(cur) != 0
    requires !(cur.players[caller].score == 0 && TurnPoints(cur) < threshold)
    requires cur.players[caller].score + TurnPoints(cur) <= WINNING_SCORE
    ensures BankResult(cur, caller, token, threshold) ==
              Some(AdvanceTurn(Banked(cur.(lastActionId := Some(token)), caller, cur.players[caller].score + TurnPoints(cur))))
  {
  }

  /** The entry rule: a player at 0 who banks less than the threshold (600
      in app.js) stays at 0. */
  lemma EntryRule(cur: Room, caller: string, token: string, threshold: nat)
    requires BankResult(cur, caller, token, threshold).Some? && caller in cur.players
    requires cur.players[caller].score == 0 && TurnPoints(cur) < threshold
    ensures BankResult(cur, caller, token, threshold).value.players[caller].score == 0
  {
  }

  /** With threshold 0 there is no entry rule: every positive bank that
      does not pass 5000 adds to the banker's score, from 0 as from any other
      score. */
  lemma NoEntryRuleAtZero(cur: Room, caller: string, token: string)
    requires cur.turnUid == caller && cur.lastActionId != Some(token) && caller in cur.players
    requires TurnPoints(cur) > 0 && cur.players[caller].score + TurnPoints(cur) <= WINNING_SCORE
    ensures BankResult(cur, caller, token, 0).value.players[caller].score == cur.players[caller].score + TurnPoints(cur)
  {
    BankScores(cur, caller, token, 0);
  }

  // ---------------------------------------------------------------------
  // Hold toggle

  /** toggleHold(i): only a die flagged scoring may be toggled; the update
      flips its held flag. A die that is not there makes the click fail. */
  function ToggleHold(cur: Room, i: nat): (res: Option<Room>)
    ensures res.Some? <==>
              || (cur.game.dice.DiceArray? && i < |cur.game.dice.list| && cur.game.dice.list[i].scoring)
              || (cur.game.dice.DiceObject? && i in cur.game.dice.entries && cur.game.dice.entries[i].scoring)
  {
    match cur.game.dice
    case DiceArray(list) =>
      if i < |list| && list[i].scoring
      then Some(cur.(game := cur.game.(dice := DiceArray(list[i := list[i].(held := !list[i].held)]))))
      else None
    case DiceObject(m) =>
      if i in m && m[i].scoring
      then Some(cur.(game := cur.game.(dice := DiceObject(m[i := m[i].(held := !m[i].held)]))))
      else None
    case NoDice => None
  }

  /** The toggle flips the held flag of die i alone, keeps it scoring, and
      changes nothing else in the room. */
  lemma ToggleHoldFlips(cur: Room, i: nat)
    requires ToggleHold(cur, i).Some?
    ensures var r := ToggleHold(cur, i).value;
            && r == cur.(game := cur.game.(dice := r.game.dice))
            && (cur.game.dice.DiceArray? ==>
                  r.game.dice.DiceArray? && |r.game.dice.list| == |cur.game.dice.list|
                  && r.game.dice.list[i] == cur.game.dice.list[i].(held := !cur.game.dice.list[i].held)
                  && forall j :: 0 <= j < |cur.game.dice.list| && j != i ==> r.game.dice.list[j] == cur.game.dice.list[j])
            && (cur.game.dice.DiceObject? ==>
                  r.game.dice.DiceObject? && r.game.dice.entries.Keys == cur.game.dice.entries.Keys
                  && r.game.dice.entries[i] == cur.game.dice.entries[i].(held := !cur.game.dice.entries[i].held)
                  && forall j :: j in cur.game.dice.entries && j != i ==> r.game.dice.entries[j] == cur.game.dice.entries[j])
  {
  }

  /** Toggling the same die twice restores the room. */
  lemma ToggleHoldTwice(cur: Room, i: nat)
    requires ToggleHold(cur, i).Some?
    ensures ToggleHold(ToggleHold(cur, i).value, i) == Some(cur)
  {
    match cur.game.dice
    case DiceArray(list) =>
      var l2 := list[i := list[i].(held := !list[i].held)];
      assert l2[i := l2[i].(held := !l2[i].held)] == list;
    case DiceObject(m) =>
      var m2 := m[i := m[i].(held := !m[i].held)];
      assert m2[i := m2[i].(held := !m2[i].held)] == m;
  }
}
