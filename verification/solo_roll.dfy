/** The roll of the solo game (App.tsx): the state update of handleRoll and the
    pre-roll step of onRollClick, which moves the roll on the table into the
    turn total and holds its scoring dice before the next roll. The random
    faces come in as `draws`: draws[i] is the face die i gets if it is rolled. */
module SoloRoll {
  import opened Basics
  import opened Rules
  import opened Scoring
  import opened ScoringLaws
  import opened SoloState

  predicate AllHeld(dice: seq<Die>)
  {
    forall i :: 0 <= i < |dice| ==> dice[i].held
  }

  /** Steps 1 and 2 of handleRoll: when every die is held all are released
      first; then each held die keeps its face and stops scoring, and each
      other die gets its drawn face, unheld and not scoring. */
  function Redraw(dice: seq<Die>, draws: seq<Face>): (r: seq<Die>)
    requires |draws| == |dice|
    ensures |r| == |dice|
    ensures forall i :: 0 <= i < |r| && !AllHeld(dice) && dice[i].held ==> r[i].face == dice[i].face && r[i].held
    ensures forall i :: 0 <= i < |r| && (AllHeld(dice) || !dice[i].held) ==> r[i].face == draws[i] && !r[i].held
    ensures forall i :: 0 <= i < |r| ==> !r[i].scoring
  {
    var toRoll := if AllHeld(dice) then seq(|dice|, i requires 0 <= i < |dice| => dice[i].(held := false)) else dice;
    seq(|dice|, i requires 0 <= i < |dice| =>
      if toRoll[i].held then toRoll[i].(scoring := false) else Die(draws[i], false, false))
  }

  /** The dice of the roll with `scoring` set exactly on the scoring positions. */
  function MarkScoring(dice: seq<Die>): (r: seq<Die>)
    ensures |r| == |dice|
    ensures forall i :: 0 <= i < |r| ==> r[i].face == dice[i].face && r[i].held == dice[i].held
    ensures forall i :: 0 <= i < |r| ==> (r[i].scoring <==> i in ScoringSet(dice))
  {
    seq(|dice|, i requires 0 <= i < |dice| => dice[i].(scoring := i in ScoringSet(dice)))
  }

  /** The state handleRoll produces: the re-drawn dice, flagged; the roll's
      score; a bust clears the turn total and shows the Farkle message; the
      players, the current player and the phase stay. */
  function Roll(prev: GameState, draws: seq<Face>): (next: GameState)
    requires |draws| == |prev.dice|
    ensures next.dice == MarkScoring(Redraw(prev.dice, draws)) && |next.dice| == |prev.dice|
    ensures next.rollScore == Score(Redraw(prev.dice, draws))
    ensures next.accumulated == if next.rollScore == 0 then 0 else prev.accumulated
    ensures next.rollScore == 0 ==> next.message == Some(FARKLE_MSG)
    ensures var rolled := Redraw(prev.dice, draws);
            next.rollScore != 0 ==>
              next.message == if HeldCount(rolled) + |ScoringSet(rolled)| == NUM_DICE then Some(HOT_DICE_MSG) else None
    ensures next.rollCount == prev.rollCount + 1
    ensures next.players == prev.players && next.current == prev.current
    ensures next.phase == prev.phase && next.winner == prev.winner
  {
    var rolled := Redraw(prev.dice, draws);
    var score := Score(rolled);
    var dice := MarkScoring(rolled);
    if score == 0 then
      prev.(dice := dice, rollScore := 0, accumulated := 0, message := Some(FARKLE_MSG), rollCount := prev.rollCount + 1)
    else
      var message := if HeldCount(rolled) + |ScoringSet(rolled)| == NUM_DICE then Some(HOT_DICE_MSG) else None;
      prev.(dice := dice, rollScore := score, message := message, rollCount := prev.rollCount + 1)
  }

  /** Steps 1 and 2 of handleRoll as written: release every die when all are
      held, then re-draw each die that is not held. */
  method RedrawDice(dice: seq<Die>, draws: seq<Face>) returns (newDice: seq<Die>)
    requires |draws| == |dice|
    ensures newDice == Redraw(dice, draws)
  {
    var allHeld := forall i :: 0 <= i < |dice| ==> dice[i].held;
    var diceToRoll := if allHeld then seq(|dice|, i requires 0 <= i < |dice| => dice[i].(held := false))
                      else dice;
    newDice := seq(|diceToRoll|, i requires 0 <= i < |diceToRoll| =>
                 if diceToRoll[i].held then diceToRoll[i].(scoring := false) else Die(draws[i], false, false));
  }

  /** Scores the roll with calculateScore and flags each scoring die, one
      index at a time; also reports how many dice score. */
  method ScoreAndFlag(rolled: seq<Die>) returns (score: nat, scoringCount: nat, newDice: seq<Die>)
    requires forall i :: 0 <= i < |rolled| ==> !rolled[i].scoring
    ensures score == Score(rolled) && scoringCount == |ScoringSet(rolled)|
    ensures newDice == MarkScoring(rolled)
  {
    var scoringIndices;
    score, scoringIndices := CalculateScore(rolled);
    newDice := rolled;
    for j := 0 to |scoringIndices|
      invariant |newDice| == |rolled|
      invariant forall i :: 0 <= i < |rolled| ==> newDice[i] == rolled[i].(scoring := newDice[i].scoring)
      invariant forall i :: 0 <= i < |rolled| ==> (newDice[i].scoring <==> i in scoringIndices[..j])
    {
      var idx := scoringIndices[j];
      assert idx in ScoringSet(rolled);
      assert scoringIndices[..j + 1] == scoringIndices[..j] + [idx];
      newDice := newDice[idx := newDice[idx].(scoring := true)];
    }
    assert scoringIndices[..|scoringIndices|] == scoringIndices;
    DistinctCard(scoringIndices, ScoringSet(rolled));
    scoringCount := |scoringIndices|;
  }

  /** handleRoll's state update, step by step: draw, score with
      calculateScore, then flag each scoring die. */
  method HandleRoll(prev: GameState, draws: seq<Face>) returns (next: GameState)
    requires |draws| == |prev.dice|
    ensures next == Roll(prev, draws)
  {
    var rolled := RedrawDice(prev.dice, draws);
    var score, scoringCount, newDice := ScoreAndFlag(rolled);
    var message: Option<string> := None;
    var turnAccumulatedScore := prev.accumulated;
    var currentRollScore := score;
    if score == 0 {
      message := Some(FARKLE_MSG);
      turnAccumulatedScore := 0;
      currentRollScore := 0;
    } else {
      var heldCount := HeldCount(newDice);
      HeldCountIgnoresScoring(rolled, newDice);
      if heldCount + scoringCount == NUM_DICE {
        message := Some(HOT_DICE_MSG);
      }
    }
    next := prev.(dice := newDice, rollScore := currentRollScore, accumulated := turnAccumulatedScore,
                  message := message, rollCount := prev.rollCount + 1);
  }

  lemma {:induction false} HeldCountIgnoresScoring(d1: seq<Die>, d2: seq<Die>)
    requires |d1| == |d2| && forall i :: 0 <= i < |d1| ==> d1[i].held == d2[i].held
    ensures HeldCount(d1) == HeldCount(d2)
    decreases |d1|
  {
    if d1 != [] {
      HeldCountIgnoresScoring(d1[..|d1| - 1], d2[..|d2| - 1]);
    }
  }

  // ---------------------------------------------------------------------
  // What a roll does to the dice

  /** A roll keeps five dice; a held die keeps its face and stays held (unless
      all were held, when every die is rolled); every rolled die shows its draw;
      and `scoring` marks exactly the scoring positions of the new roll, none of
      them held. */
  lemma RollDice(prev: GameState, draws: seq<Face>)
    requires |draws| == |prev.dice|
    ensures var next := Roll(prev, draws);
            var rolled := Redraw(prev.dice, draws);
            && |next.dice| == |prev.dice|
            && (forall i :: 0 <= i < |prev.dice| && !AllHeld(prev.dice) && prev.dice[i].held ==>
                  next.dice[i].face == prev.dice[i].face && next.dice[i].held)
            && (forall i :: 0 <= i < |prev.dice| && (AllHeld(prev.dice) || !prev.dice[i].held) ==>
                  next.dice[i].face == draws[i] && !next.dice[i].held)
            && (forall i :: 0 <= i < |prev.dice| ==> (next.dice[i].scoring <==> i in ScoringSet(rolled)))
            && (forall i :: 0 <= i < |prev.dice| && next.dice[i].held ==> !next.dice[i].scoring)
  {
  }

  /** The flags the roll writes do not change what the dice score. */
  lemma MarkScoringSameActive(dice: seq<Die>)
    ensures SameActive(MarkScoring(dice), dice)
    ensures HeldCount(MarkScoring(dice)) == HeldCount(dice)
    ensures Score(MarkScoring(dice)) == Score(dice) && ScoringSet(MarkScoring(dice)) == ScoringSet(dice)
  {
    HeldCountIgnoresScoring(MarkScoring(dice), dice);
    HeldDiceIgnored(MarkScoring(dice), dice);
  }

  /** A roll busts exactly when no die is flagged as scoring; a bust clears
      both the roll and the turn total and shows the Farkle message, and the
      roll count goes up either way. */
  lemma RollBust(prev: GameState, draws: seq<Face>)
    requires |draws| == |prev.dice|
    ensures var next := Roll(prev, draws);
            && next.rollCount == prev.rollCount + 1
            && (next.rollScore == 0 <==> forall i :: 0 <= i < |next.dice| ==> !next.dice[i].scoring)
            && (next.rollScore == 0 ==> next.accumulated == 0 && IsFarkle(next))
            && (next.rollScore != 0 ==> next.accumulated == prev.accumulated && !IsFarkle(next))
  {
    var rolled := Redraw(prev.dice, draws);
    ScoreZeroIffNoScoringDice(rolled);
    var next := Roll(prev, draws);
    if Score(rolled) != 0 {
      var i :| i in ScoringSet(rolled);
      assert next.dice[i].scoring;
      assert |HOT_DICE_MSG| != |FARKLE_MSG|;
    }
  }

  /** The "Hot Dice" message appears exactly when the roll scored and the
      dice held plus the dice scoring make five, which is also exactly when the
      screen's isHotDice holds of the new state. */
  lemma RollHotDice(prev: GameState, draws: seq<Face>)
    requires |draws| == |prev.dice|
    ensures var next := Roll(prev, draws);
            var rolled := Redraw(prev.dice, draws);
            && (next.message == Some(HOT_DICE_MSG) <==>
                  Score(rolled) > 0 && HeldCount(rolled) + |ScoringSet(rolled)| == NUM_DICE)
            && (next.message == Some(HOT_DICE_MSG) <==> IsHotDice(next))
  {
    var rolled := Redraw(prev.dice, draws);
    MarkScoringSameActive(rolled);
    assert |HOT_DICE_MSG| != |FARKLE_MSG|;
  }

  // ---------------------------------------------------------------------
  // onRollClick

  /** The state update onRollClick makes before a re-roll: the roll on the
      table moves into the turn total and every scoring die becomes held. */
  function PreRoll(s: GameState): (r: GameState)
    ensures r.accumulated == s.accumulated + s.rollScore && r.rollScore == 0
    ensures |r.dice| == |s.dice|
    ensures forall i :: 0 <= i < |s.dice| ==>
              r.dice[i].face == s.dice[i].face && r.dice[i].scoring == s.dice[i].scoring &&
              (r.dice[i].held <==> s.dice[i].held || i in ScoringSet(s.dice))
    ensures r.players == s.players && r.current == s.current && r.rollCount == s.rollCount && r.message == s.message
  {
    var scoring := ScoringSet(s.dice);
    var dice := seq(|s.dice|, i requires 0 <= i < |s.dice| => s.dice[i].(held := s.dice[i].held || i in scoring));
    s.(accumulated := s.accumulated + s.rollScore, rollScore := 0, dice := dice)
  }

  /** onRollClick: a re-roll first runs the pre-roll step; the first roll of
      a turn does not. A roll that scores keeps the turn total plus, on a
      re-roll, the points of the roll before; a bust loses them all. */
  function RollClick(s: GameState, draws: seq<Face>): (r: GameState)
    requires |draws| == |s.dice|
    ensures r.rollScore != 0 ==> r.accumulated == s.accumulated + (if s.rollCount > 0 then s.rollScore else 0)
    ensures r.rollScore == 0 ==> r.accumulated == 0 && IsFarkle(r)
    ensures r.rollCount == s.rollCount + 1
    ensures r.players == s.players && r.current == s.current && r.phase == s.phase && r.winner == s.winner
  {
    if s.rollCount > 0 then Roll(PreRoll(s), draws) else Roll(s, draws)
  }

  /** onRollClick, as the screen runs it: calculateScore on the dice on the
      table, hold its dice, then handleRoll. */
  method OnRollClick(s: GameState, draws: seq<Face>) returns (next: GameState)
    requires |draws| == |s.dice|
    ensures next == RollClick(s, draws)
  {
    if s.rollCount > 0 {
      var _, scoringIndices := CalculateScore(s.dice);
      var nextDice := seq(|s.dice|, i requires 0 <= i < |s.dice| =>
                        s.dice[i].(held := s.dice[i].held || i in scoringIndices));
      var prepared := s.(accumulated := s.accumulated + s.rollScore, rollScore := 0, dice := nextDice);
      assert prepared == PreRoll(s);
      next := HandleRoll(prepared, draws);
    } else {
      next := HandleRoll(s, draws);
    }
  }

  /** The pre-roll step holds every die that was held or scoring and releases none. */
  lemma PreRollHoldsScoring(s: GameState)
    ensures forall i :: 0 <= i < |s.dice| && (s.dice[i].held || i in ScoringSet(s.dice)) ==> PreRoll(s).dice[i].held
    ensures forall i :: 0 <= i < |s.dice| && !s.dice[i].held ==> (PreRoll(s).dice[i].held <==> i in ScoringSet(s.dice))
    ensures HeldCount(PreRoll(s).dice) >= HeldCount(s.dice)
  {
    HeldCountMonotone(s.dice, PreRoll(s).dice);
  }

  lemma {:induction false} HeldCountMonotone(d1: seq<Die>, d2: seq<Die>)
    requires |d1| == |d2| && forall i :: 0 <= i < |d1| && d1[i].held ==> d2[i].held
    ensures HeldCount(d1) <= HeldCount(d2)
    decreases |d1|
  {
    if d1 != [] {
      HeldCountMonotone(d1[..|d1| - 1], d2[..|d2| - 1]);
    }
  }

  lemma {:induction false} HeldCountAll(dice: seq<Die>)
    ensures HeldCount(dice) == |dice| <==> AllHeld(dice)
    decreases |dice|
  {
    if dice != [] {
      var n := |dice| - 1;
      HeldCountAll(dice[..n]);
      if AllHeld(dice[..n]) && dice[n].held {
        assert AllHeld(dice);
      }
    }
  }

  /** The unheld positions: there are |dice| - HeldCount(dice) of them. */
  lemma {:induction false} UnheldCount(dice: seq<Die>)
    ensures |set i: nat | i < |dice| && !dice[i].held| == |dice| - HeldCount(dice)
    decreases |dice|
  {
    if dice != [] {
      var n := |dice| - 1;
      UnheldCount(dice[..n]);
      var before := set i: nat | i < n && !dice[..n][i].held;
      var all := set i: nat | i < |dice| && !dice[i].held;
      if dice[n].held {
        assert all == before;
      } else {
        assert all == before + {n};
      }
    }
  }

  /** Hot dice carry on: when every die is held or scoring and the roll
      scored, the pre-roll step holds all five, so the next roll releases them
      and rolls all five afresh. */
  lemma HotDiceRollsAllFive(s: GameState, draws: seq<Face>)
    requires |s.dice| == NUM_DICE && IsHotDice(s) && s.rollCount > 0
    requires |draws| == |s.dice|
    ensures AllHeld(PreRoll(s).dice)
    ensures var next := RollClick(s, draws);
            forall i :: 0 <= i < NUM_DICE ==> next.dice[i].face == draws[i]
  {
    var dice := s.dice;
    var unheld := set i: nat | i < |dice| && !dice[i].held;
    UnheldCount(dice);
    assert ScoringSet(dice) <= unheld;
    if exists i: nat :: i < |dice| && !dice[i].held && i !in ScoringSet(dice) {
      var i: nat :| i < |dice| && !dice[i].held && i !in ScoringSet(dice);
      assert ScoringSet(dice) <= unheld - {i};
      SubsetCard(ScoringSet(dice), unheld - {i});
      assert false;
    }
    assert AllHeld(PreRoll(s).dice);
    RollDice(PreRoll(s), draws);
  }

  lemma SubsetCard(a: set<nat>, b: set<nat>)
    requires a <= b
    ensures |a| <= |b|
  {
    assert b == a + (b - a);
  }
}
