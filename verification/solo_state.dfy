/** The state of the solo (pass-and-play) game of App.tsx: the GameState
    record of types.ts, the start of a game, the hand-over to the next player,
    and the predicates the screen derives from the state to decide which
    buttons are live. */
module SoloState {
  import opened Basics
  import opened Rules
  import opened Scoring

  datatype Phase = SetupPhase | Playing | GameOver

  /** A player: `p-<position>` id, display name, banked score. */
  datatype Player = Player(id: string, name: string, score: int)

  /** The GameState record. `accumulated` is the score of the earlier rolls of
      the turn, `rollScore` that of the roll on the table. */
  datatype GameState = GameState(
    phase: Phase,
    players: seq<Player>,
    current: int,
    dice: seq<Die>,
    accumulated: int,
    rollScore: int,
    rollCount: int,
    winner: Option<Player>,
    message: Option<string>)

  const FIRST_ROLL_MSG: string := "First Roll!"
  const FARKLE_MSG: string := "Farkle! 0 Points."
  const HOT_DICE_MSG: string := "Hot Dice! Roll again!"
  const FARKLE_WORD: string := "Farkle"

  /** Five unheld, non-scoring dice showing 6. */
  function FreshDice(): (dice: seq<Die>)
    ensures |dice| == NUM_DICE
    ensures forall i :: 0 <= i < |dice| ==> dice[i] == Die(Six, false, false)
  {
    seq(NUM_DICE, _ => Die(Six, false, false))
  }

  /** The state the application opens with, on the setup screen. */
  function InitialState(): (s: GameState)
    ensures s.phase == SetupPhase && s.players == [] && s.current == 0
    ensures s.dice == FreshDice() && |s.dice| == NUM_DICE
    ensures s.accumulated == 0 && s.rollScore == 0 && s.rollCount == 0
    ensures s.winner == None && s.message == None
  {
    GameState(SetupPhase, [], 0, FreshDice(), 0, 0, 0, None, None)
  }

  function TurnMessage(name: string): string
  {
    name + "'s Turn"
  }

  /** startGame: one zero-score player per name, with id `p-<position>`, and a fresh turn for the first. */
  function StartGame(prev: GameState, names: seq<string>): (s: GameState)
    ensures s.phase == Playing && s.current == 0 && s.dice == FreshDice()
    ensures |s.players| == |names|
    ensures forall i :: 0 <= i < |names| ==> s.players[i] == Player("p-" + Decimal(i), names[i], 0)
    ensures s.accumulated == 0 && s.rollScore == 0 && s.rollCount == 0 && s.message == Some(FIRST_ROLL_MSG)
    ensures s.winner == prev.winner
  {
    var players := seq(|names|, i requires 0 <= i < |names| => Player("p-" + Decimal(i), names[i], 0));
    prev.(phase := Playing, players := players, current := 0, accumulated := 0, rollScore := 0,
          rollCount := 0, message := Some(FIRST_ROLL_MSG), dice := FreshDice())
  }

  /** Player ids are pairwise distinct. */
  lemma StartGameIdsDistinct(prev: GameState, names: seq<string>)
    ensures var s := StartGame(prev, names);
            forall i, j :: 0 <= i < j < |s.players| ==> s.players[i].id != s.players[j].id
  {
    var s := StartGame(prev, names);
    forall i, j | 0 <= i < j < |s.players| ensures s.players[i].id != s.players[j].id {
      if s.players[i].id == s.players[j].id {
        assert Decimal(i) == s.players[i].id[2..];
        assert Decimal(j) == s.players[j].id[2..];
        DecimalInjective(i, j);
      }
    }
  }

  /** switchTurn: installs the (re-scored) players, hands the dice to player
      `next` with every die released and not scoring, faces unchanged, and
      clears the turn. */
  function SwitchTurn(prev: GameState, next: nat, players: seq<Player>): (s: GameState)
    requires next < |players|
    ensures s.players == players && s.current == next && s.phase == prev.phase && s.winner == prev.winner
    ensures s.accumulated == 0 && s.rollScore == 0 && s.rollCount == 0
    ensures s.message == Some(TurnMessage(players[next].name))
    ensures |s.dice| == |prev.dice|
    ensures forall i :: 0 <= i < |s.dice| ==> s.dice[i] == Die(prev.dice[i].face, false, false)
  {
    var dice := seq(|prev.dice|, i requires 0 <= i < |prev.dice| => prev.dice[i].(held := false, scoring := false));
    prev.(players := players, current := next, accumulated := 0, rollScore := 0, rollCount := 0,
          message := Some(TurnMessage(players[next].name)), dice := dice)
  }

  // ---------------------------------------------------------------------
  // Derived predicates

  /** How many dice are held (`dice.filter(d => d.isHeld).length`). */
  function HeldCount(dice: seq<Die>): (n: nat)
    ensures n <= |dice|
  {
    if dice == [] then 0 else HeldCount(dice[..|dice| - 1]) + (if dice[|dice| - 1].held then 1 else 0)
  }

  /** isFarkle as the screen computes it: the message mentions "Farkle". */
  predicate IsFarkleAsWritten(s: GameState)
    ensures s.message == Some(FARKLE_MSG) ==> IsFarkleAsWritten(s)
    ensures IsFarkleAsWritten(s) ==> s.message.Some? && |s.message.value| >= |FARKLE_WORD|
  {
    assert FARKLE_MSG == FARKLE_WORD + "! 0 Points.";
    PrefixContained(FARKLE_WORD, "! 0 Points.");
    s.message.Some? && Contains(s.message.value, FARKLE_WORD)
  }

  /** isFarkle as intended: the message is the one a zero-score roll sets.
      Whatever it recognises the screen's test recognises too. */
  predicate IsFarkle(s: GameState)
    ensures IsFarkle(s) ==> IsFarkleAsWritten(s)
  {
    s.message == Some(FARKLE_MSG)
  }

  /** canBank as the screen computes it, with the as-written Farkle test. */
  predicate CanBankAsWritten(s: GameState)
    ensures CanBankAsWritten(s) ==> s.rollScore > 0 || s.accumulated > 0
    ensures s.rollScore > 0 ==> CanBankAsWritten(s)
    ensures IsFarkleAsWritten(s) ==> (CanBankAsWritten(s) <==> s.rollScore > 0)
  {
    s.rollScore > 0 || (s.accumulated > 0 && !IsFarkleAsWritten(s))
  }

  /** canBank: points on the table, or points banked from earlier rolls and no bust. */
  predicate CanBank(s: GameState)
    ensures CanBank(s) ==> s.rollScore > 0 || s.accumulated > 0
    ensures s.rollScore > 0 ==> CanBank(s)
    ensures !IsFarkle(s) ==> (CanBank(s) <==> s.rollScore > 0 || s.accumulated > 0)
  {
    s.rollScore > 0 || (s.accumulated > 0 && !IsFarkle(s))
  }

  /** isHotDice: every die is held or scoring, and the roll on the table scored. */
  predicate IsHotDice(s: GameState)
    ensures IsHotDice(s) <==> s.rollScore > 0 && HeldCount(s.dice) + |ScoringSet(s.dice)| == NUM_DICE
  {
    HeldCount(s.dice) + |ScoringSet(s.dice)| == NUM_DICE && s.rollScore > 0
  }

  /** canRoll as the screen computes it, with the as-written Farkle test. */
  predicate CanRollAsWritten(s: GameState)
    ensures IsFarkleAsWritten(s) ==> !CanRollAsWritten(s)
    ensures !IsFarkleAsWritten(s) && s.rollCount == 0 ==> CanRollAsWritten(s)
    ensures s.rollCount != 0 && s.rollScore <= 0 ==> !CanRollAsWritten(s)
  {
    !IsFarkleAsWritten(s) && (s.rollCount == 0 || s.rollScore > 0)
  }

  /** canRoll: no bust, and either the turn has not rolled yet or the last roll scored. */
  predicate CanRoll(s: GameState)
    ensures CanRoll(s) ==> !IsFarkle(s)
    ensures !IsFarkle(s) && s.rollCount == 0 ==> CanRoll(s)
    ensures s.rollCount != 0 && s.rollScore <= 0 ==> !CanRoll(s)
  {
    !IsFarkle(s) && (s.rollCount == 0 || s.rollScore > 0)
  }

  // ---------------------------------------------------------------------
  // The "Farkle" test on the message

  lemma {:induction false} ContainsExtended(s: string, sub: string, t: string)
    requires Contains(s, sub)
    ensures Contains(s + t, sub)
    decreases |s|
  {
    if (s + t)[..|sub|] != sub {
      assert s[..|sub|] != sub;
      ContainsExtended(s[1..], sub, t);
      assert (s + t)[1..] == s[1..] + t;
    }
  }

  /** As written, a player whose name contains "Farkle" starts every turn
      looking bust: the turn message mentions "Farkle", so although nothing has
      been rolled yet that player can neither roll nor bank. */
  lemma FarkleNameBlocksTurn(prev: GameState, next: nat, players: seq<Player>)
    requires next < |players| && Contains(players[next].name, FARKLE_WORD)
    ensures var s := SwitchTurn(prev, next, players);
            s.rollCount == 0 && IsFarkleAsWritten(s) && !CanRollAsWritten(s) && !CanBankAsWritten(s)
  {
    ContainsExtended(players[next].name, FARKLE_WORD, "'s Turn");
  }

  /** The same, for a concrete name. */
  lemma FarkleFanCannotRoll(prev: GameState)
    ensures var s := SwitchTurn(prev, 0, [Player("p-0", "Farkle Fan", 0)]);
            s.rollCount == 0 && !CanRollAsWritten(s)
  {
    PrefixContained(FARKLE_WORD, " Fan");
    assert FARKLE_WORD + " Fan" == "Farkle Fan";
    FarkleNameBlocksTurn(prev, 0, [Player("p-0", "Farkle Fan", 0)]);
  }

  /** With the intended test every player can roll at the start of a turn, whatever the name. */
  lemma TurnStartCanRoll(prev: GameState, next: nat, players: seq<Player>)
    requires next < |players|
    ensures var s := SwitchTurn(prev, next, players);
            !IsFarkle(s) && CanRoll(s) && !CanBank(s)
  {
    var m := TurnMessage(players[next].name);
    assert m[|m| - 1] == 'n' && FARKLE_MSG[|FARKLE_MSG| - 1] == '.';
  }

  /** The first turn of a game can roll too. */
  lemma GameStartCanRoll(prev: GameState, names: seq<string>)
    ensures var s := StartGame(prev, names);
            !IsFarkle(s) && CanRoll(s) && !CanBank(s)
  {
    var s := StartGame(prev, names);
    assert |FIRST_ROLL_MSG| != |FARKLE_MSG|;
  }
}
