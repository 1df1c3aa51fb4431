/** calcScore of app.js, the networked game's own copy of the scoring rule. It
    differs from calculateScore of utils/gameLogic.ts in how it goes about it:
    it marks positions among the unheld dice (not positions in the roll), adds
    the single A and K values die by die instead of multiplying the leftover
    counts, and finally maps the marked local positions back to positions in
    the roll, in ascending order. CalcScore is proved to meet the same
    reference definitions as CalculateScore (Scoring.Score and
    Scoring.ScoringSet), so the two always agree. */
module NetScore {
  import opened Rules
  import opened Scoring

  // ---------------------------------------------------------------------
  // Triples, over positions among the unheld dice

  /** The inner `active.forEach` of a triple: marks the first three active dice
      of `face` that are not yet used (`n` counts them). */
  method MarkTripleLocal(fs: seq<Face>, face: Face, used: set<nat>) returns (used': set<nat>)
    requires forall k :: 0 <= k < |fs| && fs[k] == face ==> k !in used
    ensures forall k: nat :: k in used' <==> k in used || (k < |fs| && fs[k] == face && Count(fs[..k], face) < 3)
  {
    var n := 0;
    used' := used;
    for i := 0 to |fs|
      invariant n == if Count(fs[..i], face) < 3 then Count(fs[..i], face) else 3
      invariant forall k: nat :: k in used' <==> k in used || (k < i && fs[k] == face && Count(fs[..k], face) < 3)
    {
      CountSnoc(fs, i, face);
      if n < 3 && fs[i] == face && i !in used' {
        used' := used' + {i};
        n := n + 1;
      }
    }
  }

  /** The facts the triple pass keeps after the first t faces of the order. */
  ghost predicate LocalTriplesSoFar(dice: seq<Die>, fs: seq<Face>, t: nat, total: int, counts: map<Face, int>, used: set<nat>)
    requires t <= |TRIPLES_ORDER|
  {
    && TallySoFar(dice, t, total, counts)
    && (forall k: nat :: k in used <==> k < |fs| && TripleMarked(fs, k) && Rank(fs[k]) < t)
  }

  lemma TripleStepLocal(fs: seq<Face>, t: nat, before: set<nat>, after: set<nat>)
    requires t < |TRIPLES_ORDER|
    requires forall k: nat :: k in before <==> k < |fs| && TripleMarked(fs, k) && Rank(fs[k]) < t
    requires Count(fs, TRIPLES_ORDER[t]) >= 3 ==>
               forall k: nat :: k in after <==>
                 k in before || (k < |fs| && fs[k] == TRIPLES_ORDER[t] && Count(fs[..k], TRIPLES_ORDER[t]) < 3)
    requires Count(fs, TRIPLES_ORDER[t]) < 3 ==> after == before
    ensures forall k: nat :: k in after <==> k < |fs| && TripleMarked(fs, k) && Rank(fs[k]) < t + 1
  {
    RankOfOrder(t);
  }

  /** One round of `order.forEach`, for face TRIPLES_ORDER[t]. */
  method TripleRoundLocal(ghost dice: seq<Die>, fs: seq<Face>, t: nat, total: int, counts: map<Face, int>, used: set<nat>)
    returns (total': int, counts': map<Face, int>, used': set<nat>)
    requires t < |TRIPLES_ORDER|
    requires forall f :: Count(fs, f) == ActiveCount(dice, f)
    requires LocalTriplesSoFar(dice, fs, t, total, counts, used)
    ensures LocalTriplesSoFar(dice, fs, t + 1, total', counts', used')
  {
    var face := TRIPLES_ORDER[t];
    RankOfOrder(t);
    assert counts[face] == Count(fs, face);
    total', counts', used' := total, counts, used;
    if counts[face] >= 3 {
      total' := total + TripleValue(face);
      counts' := counts[face := counts[face] - 3];
      used' := MarkTripleLocal(fs, face, used);
    }
    TripleStepLocal(fs, t, used, used');
    TallyStep(dice, t, total, counts, total', counts');
  }

  /** The triple pass: the triple total, and the active dice marked by triples. */
  method TriplesLocal(ghost dice: seq<Die>, fs: seq<Face>, counts0: map<Face, int>)
    returns (total: nat, used: set<nat>)
    requires forall f :: Count(fs, f) == ActiveCount(dice, f)
    requires forall f :: f in counts0 && counts0[f] == ActiveCount(dice, f)
    ensures total == TriplesTotal(dice, |TRIPLES_ORDER|)
    ensures forall k: nat :: k in used <==> k < |fs| && TripleMarked(fs, k)
  {
    var sum := 0;
    var counts := counts0;
    used := {};
    for t := 0 to |TRIPLES_ORDER|
      invariant LocalTriplesSoFar(dice, fs, t, sum, counts, used)
    {
      sum, counts, used := TripleRoundLocal(dice, fs, t, sum, counts, used);
    }
    total := sum;
    forall k: nat | k < |fs| ensures k in used <==> TripleMarked(fs, k) {
      assert Rank(fs[k]) < |TRIPLES_ORDER|;
    }
  }

  // ---------------------------------------------------------------------
  // Singles, die by die

  /** How many of the first n active dice show `face` and are not in `used`. */
  function Unused(fs: seq<Face>, n: nat, face: Face, used: set<nat>): nat
    requires n <= |fs|
  {
    if n == 0 then 0
    else Unused(fs, n - 1, face, used) + (if fs[n - 1] == face && n - 1 !in used then 1 else 0)
  }

  /** `active.forEach(...)` for a single face: every unused active die of
      `face` adds its single value and becomes used. */
  method AddSingles(fs: seq<Face>, face: Face, used: set<nat>) returns (points: nat, used': set<nat>)
    ensures points == SingleValue(face) * Unused(fs, |fs|, face, used)
    ensures forall k: nat :: k in used' <==> k in used || (k < |fs| && fs[k] == face)
  {
    points := 0;
    used' := used;
    for i := 0 to |fs|
      invariant points == SingleValue(face) * Unused(fs, i, face, used)
      invariant forall k: nat :: k in used' <==> k in used || (k < i && fs[k] == face)
    {
      if fs[i] == face && i !in used' {
        points := points + SingleValue(face);
        used' := used' + {i};
      }
    }
  }

  /** After the triples, the unused dice of a face are exactly its leftovers. */
  lemma {:induction false} UnusedAfterTriples(fs: seq<Face>, n: nat, face: Face, used: set<nat>)
    requires n <= |fs|
    requires forall k: nat :: k < |fs| && fs[k] == face ==> (k in used <==> TripleMarked(fs, k))
    ensures Unused(fs, n, face, used)
         == Count(fs[..n], face)
            - (if Count(fs, face) >= 3 then (if Count(fs[..n], face) < 3 then Count(fs[..n], face) else 3) else 0)
  {
    if n == 0 {
      assert fs[..0] == [];
    } else {
      UnusedAfterTriples(fs, n - 1, face, used);
      CountSnoc(fs, n - 1, face);
    }
  }

  lemma LeftoverUnused(fs: seq<Face>, face: Face, used: set<nat>)
    requires forall k: nat :: k < |fs| && fs[k] == face ==> (k in used <==> TripleMarked(fs, k))
    ensures Unused(fs, |fs|, face, used) == LeftoverIn(fs, face)
  {
    UnusedAfterTriples(fs, |fs|, face, used);
    assert fs[..|fs|] == fs;
  }

  // ---------------------------------------------------------------------
  // Back to positions in the roll

  /** An unheld die scores exactly when its position among the unheld dice is marked locally. */
  lemma LocalPositionMarked(dice: seq<Die>, j: nat, used: set<nat>)
    requires j < |dice| && !dice[j].held
    requires forall k: nat :: k in used <==> k < |ActiveFaces(dice)| && LocalMarked(ActiveFaces(dice), k)
    ensures |ActiveIndices(dice[..j])| in used <==> Marked(dice, j)
  {
    LocalIndexOf(dice, j);
    MarkedIffLocal(dice, |ActiveIndices(dice[..j])|);
  }

  /** After both singles passes the used local positions are exactly the locally marked ones. */
  lemma SinglesLocalMarks(fs: seq<Face>, triples: set<nat>, withAces: set<nat>, withKings: set<nat>)
    requires forall k: nat :: k in triples <==> k < |fs| && TripleMarked(fs, k)
    requires forall k: nat :: k in withAces <==> k in triples || (k < |fs| && fs[k] == Ace)
    requires forall k: nat :: k in withKings <==> k in withAces || (k < |fs| && fs[k] == King)
    ensures forall k: nat :: k in withKings <==> k < |fs| && LocalMarked(fs, k)
  {
  }

  /** The positions found after looking at the first i dice: the marked
      ones among them, ascending. */
  ghost predicate PositionsSoFar(dice: seq<Die>, i: nat, s: seq<nat>)
    requires i <= |dice|
  {
    && (forall j: nat :: j in s <==> j < i && Marked(dice, j))
    && (forall p, q :: 0 <= p < q < |s| ==> s[p] < s[q])
    && (forall p :: 0 <= p < |s| ==> s[p] < i)
  }

  lemma PositionsStep(dice: seq<Die>, i: nat, s: seq<nat>, s': seq<nat>)
    requires i < |dice| && PositionsSoFar(dice, i, s)
    requires s' == if Marked(dice, i) then s + [i] else s
    ensures PositionsSoFar(dice, i + 1, s')
  {
  }

  /** The final `dice.forEach` of calcScore: the positions, in ascending
      order, of the unheld dice whose position among the unheld dice
      (`dice.slice(0, i).filter(x => !x.held).length`) is marked. */
  method RollPositions(dice: seq<Die>, used: set<nat>) returns (scoringIdx: seq<nat>)
    requires forall k: nat :: k in used <==> k < |ActiveFaces(dice)| && LocalMarked(ActiveFaces(dice), k)
    ensures forall j :: j in scoringIdx <==> j in ScoringSet(dice)
    ensures forall p, q :: 0 <= p < q < |scoringIdx| ==> scoringIdx[p] < scoringIdx[q]
  {
    scoringIdx := [];
    for i := 0 to |dice|
      invariant PositionsSoFar(dice, i, scoringIdx)
    {
      ghost var before := scoringIdx;
      if !dice[i].held {
        var localIdx := |ActiveIndices(dice[..i])|;
        LocalPositionMarked(dice, i, used);
        if localIdx in used {
          scoringIdx := scoringIdx + [i];
        }
      }
      PositionsStep(dice, i, before, scoringIdx);
    }
  }

  /** calcScore: the score of the unheld dice and the ascending positions of
      the dice that make it up. */
  method CalcScore(dice: seq<Die>) returns (score: nat, scoringIdx: seq<nat>)
    ensures score == Score(dice)
    ensures forall i :: i in scoringIdx <==> i in ScoringSet(dice)
    ensures forall p, q :: 0 <= p < q < |scoringIdx| ==> scoringIdx[p] < scoringIdx[q]
  {
    var active := ActiveFaces(dice);
    var counts := TallyFaces(active);
    forall f ensures Count(active, f) == ActiveCount(dice, f) {
      CountActiveFaces(dice, f);
    }
    var triples, used := TriplesLocal(dice, active, counts);
    var aces, withAces := AddSingles(active, Ace, used);
    var kings, withKings := AddSingles(active, King, withAces);
    LeftoverUnused(active, Ace, used);
    LeftoverUnused(active, King, withAces);
    assert LeftoverIn(active, Ace) == Leftover(dice, Ace) && LeftoverIn(active, King) == Leftover(dice, King);
    assert SingleValue(Ace) == 100 && SingleValue(King) == 50;
    score := triples + aces + kings;
    SinglesLocalMarks(active, used, withAces, withKings);
    scoringIdx := RollPositions(dice, withKings);
  }

  /** The two scoring engines agree: same score and same scoring positions. */
  method EnginesAgree(dice: seq<Die>) returns (solo: nat, soloIdx: seq<nat>, net: nat, netIdx: seq<nat>)
    ensures solo == net
    ensures forall i :: i in soloIdx <==> i in netIdx
    ensures |soloIdx| == |netIdx|
  {
    solo, soloIdx := CalculateScore(dice);
    net, netIdx := CalcScore(dice);
    DistinctCard(soloIdx, ScoringSet(dice));
    DistinctCard(netIdx, ScoringSet(dice));
  }
}
