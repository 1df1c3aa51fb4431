/** Banking in the solo game (handleBank of App.tsx) and the invariant the
    solo game keeps: every banked score is a multiple of 50 below 5000 while
    the game is on, and no two players hold the same non-zero score. */
module SoloBank {
  import opened Basics
  import opened Rules
  import opened Scoring
  import opened ScoringLaws
  import opened SoloState
  import opened SoloRoll

  /** The players after a bank: the banker gets `newTotal`; unless the bank
      wins, every other player whose score equals a non-zero `newTotal` is
      bumped back to 0. */
  function Bumped(players: seq<Player>, banker: nat, newTotal: int, isWinner: bool): (r: seq<Player>)
    requires banker < |players|
    ensures |r| == |players|
    ensures r[banker] == players[banker].(score := newTotal)
    ensures forall i :: 0 <= i < |players| && i != banker ==>
              r[i] == if players[i].score == newTotal && newTotal != 0 && !isWinner then players[i].(score := 0) else players[i]
  {
    seq(|players|, idx requires 0 <= idx < |players| =>
      if idx == banker then players[idx].(score := newTotal)
      else if players[idx].score == newTotal && newTotal != 0 && !isWinner then players[idx].(score := 0)
      else players[idx])
  }

  /** handleBank. Nothing to bank passes the dice on. Otherwise the banker's
      total grows by the points, unless it would pass 5000, in which case it
      stays as it was; the bump rule then runs against that total. Exactly
      5000 ends the game with the banker as winner; any other outcome passes
      the dice to the next player. */
  function Bank(s: GameState): (r: GameState)
    requires 0 <= s.current < |s.players|
    ensures |r.players| == |s.players|
    ensures forall i :: 0 <= i < |s.players| ==> r.players[i].id == s.players[i].id && r.players[i].name == s.players[i].name
    ensures var pts, old_ := s.accumulated + s.rollScore, s.players[s.current].score;
            r.players[s.current].score == if pts != 0 && old_ + pts <= WINNING_SCORE then old_ + pts else old_
    ensures var pts, old_ := s.accumulated + s.rollScore, s.players[s.current].score;
            if pts != 0 && old_ + pts == WINNING_SCORE then
              && r.phase == GameOver && r.current == s.current && r.winner == Some(r.players[s.current])
              && r.dice == s.dice && r.accumulated == s.accumulated && r.rollScore == s.rollScore
              && r.rollCount == s.rollCount && r.message == Some(r.players[s.current].name + " Wins!")
            else
              && r == SwitchTurn(s, (s.current + 1) % |s.players|, r.players)
              && r.phase == s.phase && r.current == (s.current + 1) % |s.players|
              && r.accumulated == 0 && r.rollScore == 0 && r.rollCount == 0
  {
    var n := |s.players|;
    var next := (s.current + 1) % n;
    var pointsToBank := s.accumulated + s.rollScore;
    if pointsToBank == 0 then SwitchTurn(s, next, s.players)
    else
      var banker := s.players[s.current];
      var newTotal := if banker.score + pointsToBank > WINNING_SCORE then banker.score else banker.score + pointsToBank;
      var isWinner := banker.score + pointsToBank == WINNING_SCORE;
      var updated := Bumped(s.players, s.current, newTotal, isWinner);
      if isWinner then
        s.(phase := GameOver, players := updated, winner := Some(updated[s.current]),
           message := Some(updated[s.current].name + " Wins!"))
      else SwitchTurn(s, next, updated)
  }

  /** handleBank as the screen runs it: `newTotal` and `isWinner` are set
      step by step, then the bump runs over the players and the state is
      either the finished game or the next player's turn. */
  method HandleBank(s: GameState) returns (next: GameState)
    requires 0 <= s.current < |s.players|
    ensures next == Bank(s)
  {
    var pointsToBank := s.accumulated + s.rollScore;
    if pointsToBank == 0 {
      next := SwitchTurn(s, (s.current + 1) % |s.players|, s.players);
      return;
    }
    var currentPlayer := s.players[s.current];
    var newTotal := currentPlayer.score + pointsToBank;
    var isWinner := false;
    if newTotal > WINNING_SCORE {
      newTotal := currentPlayer.score;
    } else if newTotal == WINNING_SCORE {
      isWinner := true;
    }
    var updatedPlayers := Bumped(s.players, s.current, newTotal, isWinner);
    if isWinner {
      next := s.(phase := GameOver, players := updatedPlayers, winner := Some(updatedPlayers[s.current]),
                 message := Some(updatedPlayers[s.current].name + " Wins!"));
    } else {
      next := SwitchTurn(s, (s.current + 1) % |s.players|, updatedPlayers);
    }
  }

  /** Scores in the list are pairwise different unless they are 0. */
  predicate NonzeroDistinct(players: seq<Player>)
  {
    forall i, j :: 0 <= i < j < |players| && players[i].score != 0 ==> players[i].score != players[j].score
  }

  /** Nothing to bank: no score changes and the next player, cyclically, is up. */
  lemma BankNothing(s: GameState)
    requires 0 <= s.current < |s.players| && s.accumulated + s.rollScore == 0
    ensures Bank(s).players == s.players
    ensures Bank(s).current == (s.current + 1) % |s.players| && Bank(s).phase == s.phase
    ensures Bank(s).accumulated == 0 && Bank(s).rollScore == 0 && Bank(s).rollCount == 0
  {
  }

  /** Overshoot, as written: the banker keeps the old score and the turn still
      passes, but the bump check runs against that old score, so another
      player with the same non-zero score would be reset. */
  lemma BankOvershoot(s: GameState)
    requires 0 <= s.current < |s.players|
    requires s.accumulated + s.rollScore != 0
    requires s.players[s.current].score + s.accumulated + s.rollScore > WINNING_SCORE
    ensures var r := Bank(s);
            var old_ := s.players[s.current].score;
            && r.players[s.current] == s.players[s.current]
            && r.current == (s.current + 1) % |s.players| && r.phase == s.phase
            && forall i :: 0 <= i < |s.players| && i != s.current ==>
                 r.players[i].score == if s.players[i].score == old_ && old_ != 0 then 0 else s.players[i].score
  {
  }

  /** That bump cannot fire: while non-zero scores are pairwise different, an
      overshoot leaves every score as it was. */
  lemma OvershootChangesNoScore(s: GameState)
    requires 0 <= s.current < |s.players| && NonzeroDistinct(s.players)
    requires s.accumulated + s.rollScore != 0
    requires s.players[s.current].score + s.accumulated + s.rollScore > WINNING_SCORE
    ensures Bank(s).players == s.players
  {
    var r := Bank(s);
    forall i | 0 <= i < |s.players| ensures r.players[i] == s.players[i] {
    }
  }

  /** Exactly 5000: the game is over, the banker is the winner with 5000, no
      one is bumped and the dice stay with the banker. */
  lemma BankWins(s: GameState)
    requires 0 <= s.current < |s.players|
    requires s.accumulated + s.rollScore != 0
    requires s.players[s.current].score + s.accumulated + s.rollScore == WINNING_SCORE
    ensures var r := Bank(s);
            && r.phase == GameOver && r.current == s.current && r.dice == s.dice
            && r.winner == Some(s.players[s.current].(score := WINNING_SCORE))
            && |r.players| == |s.players| && r.players[s.current].score == WINNING_SCORE
            && forall i :: 0 <= i < |s.players| && i != s.current ==> r.players[i] == s.players[i]
  {
  }

  /** An ordinary bank: the banker's score grows by the points, every other
      player holding the new total drops to 0, nobody else changes, and the
      next player is up. */
  lemma BankAdds(s: GameState)
    requires 0 <= s.current < |s.players|
    requires s.accumulated + s.rollScore > 0
    requires s.players[s.current].score + s.accumulated + s.rollScore < WINNING_SCORE
    ensures var r := Bank(s);
            var total := s.players[s.current].score + s.accumulated + s.rollScore;
            && r.phase == s.phase && r.current == (s.current + 1) % |s.players|
            && |r.players| == |s.players| && r.players[s.current].score == total
            && (forall i :: 0 <= i < |s.players| && i != s.current ==>
                  r.players[i].score == if s.players[i].score == total then 0 else s.players[i].score)
            && (forall i :: 0 <= i < |s.players| ==> r.players[i].name == s.players[i].name)
  {
  }

  // ---------------------------------------------------------------------
  // The invariant of a game in progress

  predicate ScoreOk(v: int)
  {
    0 <= v && v % 50 == 0
  }

  /** A game in progress: at least one player, a current player, five dice,
      banked scores that are multiples of 50 below 5000 and pairwise different
      unless 0, and turn points that are multiples of 50, none of them before
      the turn's first roll. */
  predicate SoloInv(s: GameState)
  {
    && s.phase == Playing
    && |s.players| >= 1 && 0 <= s.current < |s.players|
    && |s.dice| == NUM_DICE
    && (forall i :: 0 <= i < |s.players| ==> ScoreOk(s.players[i].score) && s.players[i].score < WINNING_SCORE)
    && NonzeroDistinct(s.players)
    && ScoreOk(s.accumulated) && ScoreOk(s.rollScore)
    && s.rollCount >= 0 && (s.rollCount == 0 ==> s.accumulated == 0 && s.rollScore == 0)
  }

  /** A game started with one to six names is in progress. */
  lemma StartEstablishes(prev: GameState, names: seq<string>)
    requires 1 <= |names| <= 6
    ensures SoloInv(StartGame(prev, names))
  {
  }

  /** A roll keeps the game in progress (roll scores are multiples of 50). */
  lemma RollPreserves(s: GameState, draws: seq<Face>)
    requires SoloInv(s) && |draws| == |s.dice|
    ensures SoloInv(Roll(s, draws))
  {
  }

  /** So does the click that starts a roll. */
  lemma RollClickPreserves(s: GameState, draws: seq<Face>)
    requires SoloInv(s) && |draws| == |s.dice|
    ensures SoloInv(RollClick(s, draws))
  {
    if s.rollCount > 0 {
      assert SoloInv(PreRoll(s));
      RollPreserves(PreRoll(s), draws);
    } else {
      RollPreserves(s, draws);
    }
  }

  /** No points are lost between rolls: a roll that scores carries the turn
      total and the previous roll's points forward in full. */
  lemma RollClickKeepsPoints(s: GameState, draws: seq<Face>)
    requires SoloInv(s) && |draws| == |s.dice|
    ensures var r := RollClick(s, draws);
            r.rollScore != 0 ==> r.accumulated == s.accumulated + s.rollScore
  {
    if s.rollCount == 0 {
      assert s.rollScore == 0;
    }
  }

  /** The bump keeps non-zero scores apart: whoever else held the new total
      drops to 0, unless the bank wins and no one else can hold 5000. */
  lemma BumpedDistinct(players: seq<Player>, banker: nat, total: int, isWinner: bool)
    requires banker < |players| && NonzeroDistinct(players)
    requires isWinner ==> forall i :: 0 <= i < |players| && i != banker ==> players[i].score != total
    ensures NonzeroDistinct(Bumped(players, banker, total, isWinner))
  {
    var r := Bumped(players, banker, total, isWinner);
    forall i, j | 0 <= i < j < |r| && r[i].score != 0 ensures r[i].score != r[j].score {
      if i != banker && j != banker {
        assert players[i].score != players[j].score;
      }
    }
  }

  /** A bank that reaches exactly 5000: the banker alone holds 5000 and wins. */
  lemma WinningBankPreserves(s: GameState)
    requires SoloInv(s) && s.accumulated + s.rollScore != 0
    requires s.players[s.current].score + s.accumulated + s.rollScore == WINNING_SCORE
    ensures Bank(s).phase == GameOver && NonzeroDistinct(Bank(s).players)
    ensures Bank(s).winner.Some? && Bank(s).winner.value.score == WINNING_SCORE
  {
    BankWins(s);
    BumpedDistinct(s.players, s.current, WINNING_SCORE, true);
  }

  /** A bank that adds below 5000: the new total is a multiple of 50 and the
      bump clears whoever else held it. */
  lemma AddingBankPreserves(s: GameState)
    requires SoloInv(s) && s.accumulated + s.rollScore != 0
    requires s.players[s.current].score + s.accumulated + s.rollScore < WINNING_SCORE
    ensures SoloInv(Bank(s))
  {
    var pts := s.accumulated + s.rollScore;
    var total := s.players[s.current].score + pts;
    SumOf50s(s.accumulated, s.rollScore);
    SumOf50s(s.players[s.current].score, pts);
    BumpedDistinct(s.players, s.current, total, false);
  }

  /** A bank either ends the game with the banker at exactly 5000, or keeps it
      in progress; either way non-zero scores stay pairwise different. */
  lemma BankPreserves(s: GameState)
    requires SoloInv(s)
    ensures var r := Bank(s);
            && NonzeroDistinct(r.players)
            && (r.phase == GameOver ==> r.winner.Some? && r.winner.value.score == WINNING_SCORE)
            && (r.phase != GameOver ==> SoloInv(r))
  {
    var pts := s.accumulated + s.rollScore;
    if pts == 0 {
      BankNothing(s);
    } else if s.players[s.current].score + pts > WINNING_SCORE {
      OvershootChangesNoScore(s);
    } else if s.players[s.current].score + pts == WINNING_SCORE {
      WinningBankPreserves(s);
    } else {
      AddingBankPreserves(s);
    }
  }

  /** After the game is over, the winner is the only player at 5000. */
  lemma WinnerUnique(s: GameState)
    requires SoloInv(s) && Bank(s).phase == GameOver
    ensures forall i :: 0 <= i < |s.players| ==>
              (Bank(s).players[i].score == WINNING_SCORE <==> i == s.current)
  {
  }
}
