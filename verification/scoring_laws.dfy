/** Properties of the scoring rule of utils/gameLogic.ts, stated over the
    reference definitions of module Scoring (which CalculateScore is proved to
    compute): held dice do not matter, a bust is exactly a roll with no triple
    and no A or K, a zero score is exactly an empty index list, a face is
    tripled at most once and then with exactly three dice, and every score is
    a multiple of 50. */
module ScoringLaws {
  import opened Rules
  import opened Scoring

  // ---------------------------------------------------------------------
  // Held dice are ignored

  /** Two rolls agree on which dice are held and on the faces of the dice that are not. */
  predicate SameActive(d1: seq<Die>, d2: seq<Die>)
  {
    |d1| == |d2| &&
    forall i :: 0 <= i < |d1| ==> d1[i].held == d2[i].held && (!d1[i].held ==> d1[i].face == d2[i].face)
  }

  lemma SameActivePrefix(d1: seq<Die>, d2: seq<Die>, n: nat)
    requires SameActive(d1, d2) && n <= |d1|
    ensures SameActive(d1[..n], d2[..n])
  {
  }

  lemma {:induction false} ActiveCountSame(d1: seq<Die>, d2: seq<Die>, f: Face)
    requires SameActive(d1, d2)
    ensures ActiveCount(d1, f) == ActiveCount(d2, f)
    decreases |d1|
  {
    if d1 != [] {
      var n := |d1| - 1;
      SameActivePrefix(d1, d2, n);
      ActiveCountSame(d1[..n], d2[..n], f);
    }
  }

  lemma {:induction false} TriplesTotalSame(d1: seq<Die>, d2: seq<Die>, n: nat)
    requires SameActive(d1, d2) && n <= |TRIPLES_ORDER|
    ensures TriplesTotal(d1, n) == TriplesTotal(d2, n)
  {
    if n > 0 {
      TriplesTotalSame(d1, d2, n - 1);
      ActiveCountSame(d1, d2, TRIPLES_ORDER[n - 1]);
    }
  }

  /** The score and the scoring positions depend only on which dice are held
      and on the faces of the others. */
  lemma HeldDiceIgnored(d1: seq<Die>, d2: seq<Die>)
    requires SameActive(d1, d2)
    ensures Score(d1) == Score(d2)
    ensures ScoringSet(d1) == ScoringSet(d2)
  {
    TriplesTotalSame(d1, d2, |TRIPLES_ORDER|);
    ActiveCountSame(d1, d2, Ace);
    ActiveCountSame(d1, d2, King);
    forall i | 0 <= i < |d1| ensures Marked(d1, i) == Marked(d2, i) {
      SameActivePrefix(d1, d2, i);
      ActiveCountSame(d1, d2, d1[i].face);
      ActiveCountSame(d1[..i], d2[..i], d1[i].face);
    }
  }

  /** In particular, giving a held die another face changes neither the score nor the scoring positions. */
  lemma HeldFaceChangeIgnored(dice: seq<Die>, i: nat, f: Face)
    requires i < |dice| && dice[i].held
    ensures Score(dice[i := dice[i].(face := f)]) == Score(dice)
    ensures ScoringSet(dice[i := dice[i].(face := f)]) == ScoringSet(dice)
  {
    HeldDiceIgnored(dice[i := dice[i].(face := f)], dice);
  }

  // ---------------------------------------------------------------------
  // Counting active dice

  lemma {:induction false} ActiveCountPrefixAtMost(dice: seq<Die>, j: nat, f: Face)
    requires j <= |dice|
    ensures ActiveCount(dice[..j], f) <= ActiveCount(dice, f)
    decreases |dice|
  {
    if j < |dice| {
      var n := |dice| - 1;
      assert dice[..n][..j] == dice[..j];
      ActiveCountPrefixAtMost(dice[..n], j, f);
    } else {
      assert dice[..j] == dice;
    }
  }

  /** An unheld die is counted: its face has more active dice in the roll than before it. */
  lemma ActiveDieCounted(dice: seq<Die>, i: nat)
    requires i < |dice| && !dice[i].held
    ensures ActiveCount(dice[..i], dice[i].face) < ActiveCount(dice, dice[i].face)
  {
    ActiveCountSnoc(dice, i, dice[i].face);
    ActiveCountPrefixAtMost(dice, i + 1, dice[i].face);
  }

  /** A face with an active die has a first active die, and nothing of that face is active before it. */
  lemma {:induction false} FirstActiveOfFace(dice: seq<Die>, f: Face) returns (i: nat)
    requires ActiveCount(dice, f) >= 1
    ensures i < |dice| && !dice[i].held && dice[i].face == f && ActiveCount(dice[..i], f) == 0
    decreases |dice|
  {
    var n := |dice| - 1;
    if ActiveCount(dice[..n], f) >= 1 {
      i := FirstActiveOfFace(dice[..n], f);
      assert dice[..n][..i] == dice[..i];
    } else {
      i := n;
    }
  }

  lemma {:induction false} TriplesTotalPositive(dice: seq<Die>, n: nat)
    requires n <= |TRIPLES_ORDER|
    ensures TriplesTotal(dice, n) > 0 <==> exists t :: 0 <= t < n && ActiveCount(dice, TRIPLES_ORDER[t]) >= 3
  {
    if n > 0 {
      TriplesTotalPositive(dice, n - 1);
    }
  }

  // ---------------------------------------------------------------------
  // Busts

  /** A bust (score 0) is exactly a roll where no face has three active dice
      and no active die shows A or K. */
  lemma BustIff(dice: seq<Die>)
    ensures Score(dice) == 0 <==>
              (forall f :: ActiveCount(dice, f) < 3) && ActiveCount(dice, Ace) == 0 && ActiveCount(dice, King) == 0
  {
    TriplesTotalPositive(dice, |TRIPLES_ORDER|);
    var total := TriplesTotal(dice, |TRIPLES_ORDER|);
    var aces, kings := ActiveCount(dice, Ace), ActiveCount(dice, King);
    assert SingleValue(Ace) == 100 && SingleValue(King) == 50;
    assert Score(dice) == total + 100 * Leftover(dice, Ace) + 50 * Leftover(dice, King);
    if exists f :: ActiveCount(dice, f) >= 3 {
      var f :| ActiveCount(dice, f) >= 3;
      assert TRIPLES_ORDER[Rank(f)] == f;
      assert total > 0;
    } else if aces > 0 {
      assert Leftover(dice, Ace) > 0;
    } else if kings > 0 {
      assert Leftover(dice, King) > 0;
    } else {
      assert total == 0;
    }
  }

  /** The score is 0 exactly when no die scores. */
  lemma ScoreZeroIffNoScoringDice(dice: seq<Die>)
    ensures Score(dice) == 0 <==> ScoringSet(dice) == {}
  {
    BustIff(dice);
    if Score(dice) == 0 && ScoringSet(dice) != {} {
      var i :| i in ScoringSet(dice);
      ActiveDieCounted(dice, i);
      assert false;
    }
    if Score(dice) != 0 {
      var f: Face;
      if ActiveCount(dice, Ace) != 0 {
        f := Ace;
      } else if ActiveCount(dice, King) != 0 {
        f := King;
      } else {
        f :| ActiveCount(dice, f) >= 3;
      }
      var i := FirstActiveOfFace(dice, f);
      assert Marked(dice, i);
      assert i in ScoringSet(dice);
    }
  }

  /** A roll whose dice are all held scores nothing, and no die scores. */
  lemma AllHeldScoresNothing(dice: seq<Die>)
    requires forall i :: 0 <= i < |dice| ==> dice[i].held
    ensures Score(dice) == 0 && ScoringSet(dice) == {}
  {
    ScoreZeroIffNoScoringDice(dice);
  }

  // ---------------------------------------------------------------------
  // Triples

  /** How many of the first n dice score and show face f. */
  function MarkedOfFace(dice: seq<Die>, n: nat, f: Face): nat
    requires n <= |dice|
  {
    if n == 0 then 0
    else MarkedOfFace(dice, n - 1, f) + (if Marked(dice, n - 1) && dice[n - 1].face == f then 1 else 0)
  }

  lemma {:induction false} MarkedOfFacePrefix(dice: seq<Die>, n: nat, f: Face)
    requires n <= |dice| && f != Ace && f != King
    ensures MarkedOfFace(dice, n, f)
         == if ActiveCount(dice, f) >= 3 then (if ActiveCount(dice[..n], f) < 3 then ActiveCount(dice[..n], f) else 3) else 0
  {
    if n == 0 {
      assert dice[..0] == [];
    } else {
      MarkedOfFacePrefix(dice, n - 1, f);
      ActiveCountSnoc(dice, n - 1, f);
    }
  }

  /** A face other than A and K scores with exactly three dice when it has at
      least three active dice, and with none otherwise. */
  lemma TripleUsesExactlyThree(dice: seq<Die>, f: Face)
    requires f != Ace && f != King
    ensures MarkedOfFace(dice, |dice|, f) == if ActiveCount(dice, f) >= 3 then 3 else 0
  {
    MarkedOfFacePrefix(dice, |dice|, f);
    assert dice[..|dice|] == dice;
  }

  /** Every active A and every active K scores, whether in a triple or as a single. */
  lemma {:induction false} AcesAndKingsAllScore(dice: seq<Die>, n: nat, f: Face)
    requires n <= |dice| && (f == Ace || f == King)
    ensures MarkedOfFace(dice, n, f) == ActiveCount(dice[..n], f)
  {
    if n == 0 {
      assert dice[..0] == [];
    } else {
      AcesAndKingsAllScore(dice, n - 1, f);
      ActiveCountSnoc(dice, n - 1, f);
    }
  }

  // ---------------------------------------------------------------------
  // An example

  /** A A K K K, nothing held: the K triple (500) and two single A (200) make 700, and every die scores. */
  lemma AceAceKingKingKing()
    ensures var dice := [Die(Ace, false, false), Die(Ace, false, false), Die(King, false, false),
                         Die(King, false, false), Die(King, false, false)];
            Score(dice) == 700 && ScoringSet(dice) == {0, 1, 2, 3, 4}
  {
    var dice := [Die(Ace, false, false), Die(Ace, false, false), Die(King, false, false),
                 Die(King, false, false), Die(King, false, false)];
    var a, k := Die(Ace, false, false), Die(King, false, false);
    assert dice[..4] == [a, a, k, k] && [a, a, k, k][..3] == [a, a, k];
    assert [a, a, k][..2] == [a, a] && [a, a][..1] == [a] && [a][..0] == [];
    forall f ensures ActiveCount([a], f) == if f == Ace then 1 else 0 { }
    forall f ensures ActiveCount([a, a], f) == if f == Ace then 2 else 0 { }
    forall f ensures ActiveCount([a, a, k], f) == if f == Ace then 2 else if f == King then 1 else 0 { }
    forall f ensures ActiveCount([a, a, k, k], f) == if f == Ace then 2 else if f == King then 2 else 0 { }
    forall f ensures ActiveCount(dice, f) == if f == Ace then 2 else if f == King then 3 else 0 { }
    assert TriplesTotal(dice, 1) == 0;
    assert TriplesTotal(dice, 2) == 500;
    assert TriplesTotal(dice, 4) == 500;
    assert TriplesTotal(dice, 6) == 500;
  }
}
