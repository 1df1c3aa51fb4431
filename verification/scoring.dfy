/** The scoring engine of utils/gameLogic.ts: the score of a roll and the dice
    that make it up. Only dice that are not held take part. Triples are looked
    for face by face in the order A, K, Q, J, 7, 6, each face scoring at most
    one triple made of its first three active dice; every remaining active A
    scores 100 and every remaining active K scores 50.

    The reference definitions (ActiveCount, Marked, ScoringSet, Score) state
    this directly over the dice; CalculateScore is the loop-based computation
    of the source, proved to agree with them. */
module Scoring {
  import opened Rules

  /** One die: its face, whether it is held from an earlier roll of the turn,
      and whether it contributed to the latest roll's score. */
  datatype Die = Die(face: Face, held: bool, scoring: bool)

  /** Positions of the dice that are not held, ascending (`activeIndices`). */
  function ActiveIndices(dice: seq<Die>): (r: seq<nat>)
    ensures |r| <= |dice|
    ensures forall k :: 0 <= k < |r| ==> r[k] < |dice| && !dice[r[k]].held
    ensures forall k, l :: 0 <= k < l < |r| ==> r[k] < r[l]
    ensures forall i :: 0 <= i < |dice| && !dice[i].held ==> i in r
  {
    if dice == [] then []
    else
      var n := |dice| - 1;
      var before := ActiveIndices(dice[..n]);
      if dice[n].held then before else before + [n]
  }

  /** Faces of the dice that are not held, in position order (`activeFaces`). */
  function ActiveFaces(dice: seq<Die>): seq<Face>
  {
    var ai := ActiveIndices(dice);
    seq(|ai|, k requires 0 <= k < |ai| => dice[ai[k]].face)
  }

  /** How many dice that are not held show face f (the `counts` record). */
  function ActiveCount(dice: seq<Die>, f: Face): (c: nat)
    ensures c <= |dice|
  {
    if dice == [] then 0
    else
      var n := |dice| - 1;
      ActiveCount(dice[..n], f) + (if !dice[n].held && dice[n].face == f then 1 else 0)
  }

  /** How many entries of a face list are f. */
  function Count(fs: seq<Face>, f: Face): (c: nat)
    ensures c <= |fs|
  {
    if fs == [] then 0
    else Count(fs[..|fs| - 1], f) + (if fs[|fs| - 1] == f then 1 else 0)
  }

  /** Die i contributes to the score: it is not held, and it shows A or K, or
      its face forms a triple and fewer than three active dice of that face
      come before it. */
  predicate Marked(dice: seq<Die>, i: nat)
    requires i < |dice|
    ensures Marked(dice, i) ==> !dice[i].held
    ensures !dice[i].held && (dice[i].face == Ace || dice[i].face == King) ==> Marked(dice, i)
    ensures Marked(dice, i) && dice[i].face != Ace && dice[i].face != King ==> ActiveCount(dice, dice[i].face) >= 3
  {
    var f := dice[i].face;
    !dice[i].held &&
    (f == Ace || f == King || (ActiveCount(dice, f) >= 3 && ActiveCount(dice[..i], f) < 3))
  }

  /** The set of positions that contribute to the score (`scoringIndices`). */
  function ScoringSet(dice: seq<Die>): (s: set<nat>)
    ensures forall i :: i in s ==> i < |dice| && !dice[i].held
    ensures forall i :: i in s ==> dice[i].face == Ace || dice[i].face == King || ActiveCount(dice, dice[i].face) >= 3
    ensures forall i :: 0 <= i < |dice| && !dice[i].held && (dice[i].face == Ace || dice[i].face == King) ==> i in s
  {
    set i: nat | i < |dice| && Marked(dice, i)
  }

  /** The triple award of face f: its value when at least three active dice show it. */
  function TripleAward(dice: seq<Die>, f: Face): nat
  {
    if ActiveCount(dice, f) >= 3 then TripleValue(f) else 0
  }

  /** Active dice of face f left over once a triple of f has been taken. */
  function Leftover(dice: seq<Die>, f: Face): nat
  {
    if ActiveCount(dice, f) >= 3 then ActiveCount(dice, f) - 3 else ActiveCount(dice, f)
  }

  /** Sum of the triple awards of the first n faces of TRIPLES_ORDER. */
  function TriplesTotal(dice: seq<Die>, n: nat): (t: nat)
    requires n <= |TRIPLES_ORDER|
    ensures t % 50 == 0
  {
    if n == 0 then 0 else TriplesTotal(dice, n - 1) + TripleAward(dice, TRIPLES_ORDER[n - 1])
  }

  /** The score of a roll: all triple awards, plus the single values of the
      leftover A and K dice. Every score is a multiple of 50. */
  function Score(dice: seq<Die>): (s: nat)
    ensures s % 50 == 0
  {
    var t, a, k := TriplesTotal(dice, |TRIPLES_ORDER|), Leftover(dice, Ace), Leftover(dice, King);
    assert SingleValue(Ace) == 100 && SingleValue(King) == 50;
    assert t + 100 * a + 50 * k == 50 * (t / 50 + 2 * a + k);
    t + SingleValue(Ace) * a + SingleValue(King) * k
  }

  // ---------------------------------------------------------------------
  // Active positions and prefixes

  lemma CountSnoc(fs: seq<Face>, i: nat, f: Face)
    requires i < |fs|
    ensures Count(fs[..i + 1], f) == Count(fs[..i], f) + (if fs[i] == f then 1 else 0)
  {
    assert fs[..i + 1][..i] == fs[..i];
  }

  lemma ActiveCountSnoc(dice: seq<Die>, i: nat, f: Face)
    requires i < |dice|
    ensures ActiveCount(dice[..i + 1], f)
         == ActiveCount(dice[..i], f) + (if !dice[i].held && dice[i].face == f then 1 else 0)
  {
    assert dice[..i + 1][..i] == dice[..i];
  }

  lemma {:induction false} CountPrefixAtMost(fs: seq<Face>, j: nat, f: Face)
    requires j <= |fs|
    ensures Count(fs[..j], f) <= Count(fs, f)
    decreases |fs|
  {
    if j < |fs| {
      var n := |fs| - 1;
      assert fs[..n][..j] == fs[..j];
      CountPrefixAtMost(fs[..n], j, f);
    } else {
      assert fs[..j] == fs;
    }
  }

  /** A die of face f sees strictly fewer f's before it than the whole list holds. */
  lemma CountBeforeLess(fs: seq<Face>, k: nat, f: Face)
    requires k < |fs| && fs[k] == f
    ensures Count(fs[..k], f) < Count(fs, f)
  {
    CountSnoc(fs, k, f);
    CountPrefixAtMost(fs, k + 1, f);
  }

  lemma ActiveIndicesSnoc(dice: seq<Die>)
    requires dice != []
    ensures ActiveIndices(dice) == ActiveIndices(dice[..|dice| - 1]) + (if dice[|dice| - 1].held then [] else [|dice| - 1])
  {
  }

  /** The active positions before the k-th active die are the first k active positions. */
  lemma {:induction false} ActiveIndicesBefore(dice: seq<Die>, k: nat)
    requires k < |ActiveIndices(dice)|
    ensures ActiveIndices(dice[..ActiveIndices(dice)[k]]) == ActiveIndices(dice)[..k]
    decreases |dice|
  {
    var n := |dice| - 1;
    var ai := ActiveIndices(dice);
    var before := ActiveIndices(dice[..n]);
    assert ai == before + (if dice[n].held then [] else [n]) by {
      ActiveIndicesSnoc(dice);
    }
    if k < |before| {
      assert before[k] == ai[k] && before[..k] == ai[..k];
      assert dice[..n][..before[k]] == dice[..ai[k]];
      ActiveIndicesBefore(dice[..n], k);
    } else {
      assert ai[k] == n && before == ai[..k];
      assert dice[..n] == dice[..ai[k]];
    }
  }

  /** For an active die i, the number of active dice before it is its rank among the active dice. */
  lemma LocalIndexOf(dice: seq<Die>, i: nat)
    requires i < |dice| && !dice[i].held
    ensures |ActiveIndices(dice[..i])| < |ActiveIndices(dice)|
    ensures ActiveIndices(dice)[|ActiveIndices(dice[..i])|] == i
  {
    var ai := ActiveIndices(dice);
    var k :| 0 <= k < |ai| && ai[k] == i;
    ActiveIndicesBefore(dice, k);
  }

  lemma ActiveFacesSnoc(dice: seq<Die>)
    requires dice != []
    ensures ActiveFaces(dice)
         == ActiveFaces(dice[..|dice| - 1]) + (if dice[|dice| - 1].held then [] else [dice[|dice| - 1].face])
  {
  }

  lemma {:induction false} CountActiveFaces(dice: seq<Die>, f: Face)
    ensures Count(ActiveFaces(dice), f) == ActiveCount(dice, f)
    decreases |dice|
  {
    if dice != [] {
      var n := |dice| - 1;
      ActiveFacesSnoc(dice);
      CountActiveFaces(dice[..n], f);
      var fs := ActiveFaces(dice);
      if !dice[n].held {
        assert fs[..|fs| - 1] == ActiveFaces(dice[..n]);
        assert Count(fs, f) == Count(ActiveFaces(dice[..n]), f) + (if dice[n].face == f then 1 else 0);
      } else {
        assert fs == ActiveFaces(dice[..n]);
      }
    }
  }

  /** The local face list before the k-th active die is the face list of the dice before it. */
  lemma ActiveFacesBefore(dice: seq<Die>, k: nat)
    requires k < |ActiveIndices(dice)|
    ensures ActiveFaces(dice[..ActiveIndices(dice)[k]]) == ActiveFaces(dice)[..k]
  {
    ActiveIndicesBefore(dice, k);
  }

  /** The rule as the loops apply it to the list of active faces (local positions). */
  predicate TripleMarked(fs: seq<Face>, k: nat)
    requires k < |fs|
  {
    Count(fs, fs[k]) >= 3 && Count(fs[..k], fs[k]) < 3
  }

  predicate LocalMarked(fs: seq<Face>, k: nat)
    requires k < |fs|
  {
    fs[k] == Ace || fs[k] == King || TripleMarked(fs, k)
  }

  lemma MarkedIffLocal(dice: seq<Die>, k: nat)
    requires k < |ActiveIndices(dice)|
    ensures ActiveIndices(dice)[k] < |dice|
    ensures Marked(dice, ActiveIndices(dice)[k]) <==> LocalMarked(ActiveFaces(dice), k)
  {
    var ai := ActiveIndices(dice);
    var fs := ActiveFaces(dice);
    var f := fs[k];
    ActiveFacesBefore(dice, k);
    CountActiveFaces(dice, f);
    CountActiveFaces(dice[..ai[k]], f);
  }

  /** A list of positions that holds exactly the images of the locally marked
      active dice lists the scoring set. */
  lemma LocalToGlobal(dice: seq<Die>, fs: seq<Face>, ai: seq<nat>, s: seq<nat>)
    requires fs == ActiveFaces(dice) && ai == ActiveIndices(dice)
    requires forall k :: 0 <= k < |fs| ==> (ai[k] in s <==> LocalMarked(fs, k))
    requires forall j :: j in s ==> j in ai
    ensures forall j :: j in s <==> j in ScoringSet(dice)
  {
    forall j | j in s ensures j in ScoringSet(dice) {
      var k :| 0 <= k < |ai| && ai[k] == j;
      MarkedIffLocal(dice, k);
    }
    forall j | j in ScoringSet(dice) ensures j in s {
      var k :| 0 <= k < |ai| && ai[k] == j;
      MarkedIffLocal(dice, k);
    }
  }

  /** Distinct entries: the list holds each position once. */
  predicate Distinct(s: seq<nat>)
  {
    forall p, q :: 0 <= p < q < |s| ==> s[p] != s[q]
  }

  /** A duplicate-free list has as many entries as the set it lists. */
  lemma {:induction false} DistinctCard(s: seq<nat>, t: set<nat>)
    requires Distinct(s)
    requires forall x :: x in s <==> x in t
    ensures |s| == |t|
  {
    if s == [] {
      assert t == {};
    } else {
      var n := |s| - 1;
      var x := s[n];
      forall y ensures y in s[..n] <==> y in t - {x} {
        if y in s[..n] {
          var p :| 0 <= p < n && s[p] == y;
        }
      }
      DistinctCard(s[..n], t - {x});
    }
  }

  // ---------------------------------------------------------------------
  // calculateScore, step by step

  /** Builds the `counts` record: every face starts at 0, then each active face adds one. */
  method TallyFaces(fs: seq<Face>) returns (counts: map<Face, int>)
    ensures forall f :: f in counts && counts[f] == Count(fs, f)
  {
    counts := map[];
    for t := 0 to |FACES|
      invariant forall u :: 0 <= u < t ==> FACES[u] in counts
      invariant forall f :: f in counts ==> counts[f] == 0
    {
      counts := counts[FACES[t] := 0];
    }
    forall f ensures f in counts {
      assert FACES[5 - Rank(f)] == f;
    }
    for i := 0 to |fs|
      invariant forall f :: f in counts && counts[f] == Count(fs[..i], f)
    {
      forall f ensures Count(fs[..i + 1], f) == Count(fs[..i], f) + (if fs[i] == f then 1 else 0) {
        CountSnoc(fs, i, f);
      }
      counts := counts[fs[i] := counts[fs[i]] + 1];
    }
    assert fs[..|fs|] == fs;
  }

  /** `usedIndices.add(x)` for an x not yet in the list. */
  function Append(used: seq<nat>, x: nat): (r: seq<nat>)
    requires Distinct(used) && x !in used
    ensures Distinct(r) && forall j :: j in r <==> j in used || j == x
  {
    used + [x]
  }

  /** The inner loop of a triple: walks the active dice in order and marks the
      first three of `face` that are not yet used (`found` counts them). */
  method MarkTriple(fs: seq<Face>, ai: seq<nat>, face: Face, used: seq<nat>) returns (used': seq<nat>)
    requires |ai| == |fs|
    requires forall k, l :: 0 <= k < l < |ai| ==> ai[k] < ai[l]
    requires forall k :: 0 <= k < |fs| && fs[k] == face ==> ai[k] !in used
    requires Distinct(used)
    ensures Distinct(used')
    ensures forall j :: j in used' ==> j in used || j in ai
    ensures forall k :: 0 <= k < |fs| ==>
              (ai[k] in used' <==> ai[k] in used || (fs[k] == face && Count(fs[..k], face) < 3))
  {
    var found := 0;
    used' := used;
    for i := 0 to |fs|
      invariant found == if Count(fs[..i], face) < 3 then Count(fs[..i], face) else 3
      invariant Distinct(used')
      invariant forall j :: j in used' ==> j in used || j in ai
      invariant forall k :: 0 <= k < |fs| ==>
                  (ai[k] in used' <==> ai[k] in used || (k < i && fs[k] == face && Count(fs[..k], face) < 3))
    {
      CountSnoc(fs, i, face);
      if found < 3 && fs[i] == face && ai[i] !in used' {
        ghost var before := used';
        used' := Append(used', ai[i]);
        found := found + 1;
        forall k | 0 <= k < |fs| ensures ai[k] in used' <==> ai[k] in before || k == i {
          if k < i { assert ai[k] < ai[i]; } else if k > i { assert ai[i] < ai[k]; }
        }
      }
    }
  }

  /** Marks every active die of `face` that is not yet used. */
  method MarkRemaining(fs: seq<Face>, ai: seq<nat>, face: Face, used: seq<nat>) returns (used': seq<nat>)
    requires |ai| == |fs|
    requires forall k, l :: 0 <= k < l < |ai| ==> ai[k] < ai[l]
    requires Distinct(used)
    ensures Distinct(used')
    ensures forall j :: j in used' ==> j in used || j in ai
    ensures forall k :: 0 <= k < |fs| ==> (ai[k] in used' <==> ai[k] in used || fs[k] == face)
  {
    used' := used;
    for i := 0 to |fs|
      invariant Distinct(used')
      invariant forall j :: j in used' ==> j in used || j in ai
      invariant forall k :: 0 <= k < |fs| ==> (ai[k] in used' <==> ai[k] in used || (k < i && fs[k] == face))
    {
      if fs[i] == face && ai[i] !in used' {
        ghost var before := used';
        used' := Append(used', ai[i]);
        forall k | 0 <= k < |fs| ensures ai[k] in used' <==> ai[k] in before || k == i {
          if k < i { assert ai[k] < ai[i]; } else if k > i { assert ai[i] < ai[k]; }
        }
      }
    }
  }

  /** When no die of f is left over after triples, every active f was taken by the triple. */
  lemma NoLeftoverAllTripled(fs: seq<Face>, k: nat)
    requires k < |fs|
    requires (if Count(fs, fs[k]) >= 3 then Count(fs, fs[k]) - 3 else Count(fs, fs[k])) == 0
    ensures TripleMarked(fs, k)
  {
    CountBeforeLess(fs, k, fs[k]);
  }

  /** The facts the triple pass keeps after handling the first t faces of TRIPLES_ORDER. */
  predicate TriplesSoFar(dice: seq<Die>, fs: seq<Face>, ai: seq<nat>, t: nat,
                         total: int, counts: map<Face, int>, used: seq<nat>)
    requires |ai| == |fs| && t <= |TRIPLES_ORDER|
  {
    && TallySoFar(dice, t, total, counts)
    && Distinct(used)
    && (forall j :: j in used ==> j in ai)
    && (forall k :: 0 <= k < |fs| ==> (ai[k] in used <==> TripleMarked(fs, k) && Rank(fs[k]) < t))
  }

  /** One round of the triple pass, for face TRIPLES_ORDER[t]: with at least
      three of it left, adds its triple value, takes three off its count and
      marks its first three active dice. */
  method TripleRound(ghost dice: seq<Die>, fs: seq<Face>, ai: seq<nat>, t: nat,
                     total: int, counts: map<Face, int>, used: seq<nat>)
    returns (total': int, counts': map<Face, int>, used': seq<nat>)
    requires |ai| == |fs| && t < |TRIPLES_ORDER|
    requires forall k, l :: 0 <= k < l < |ai| ==> ai[k] < ai[l]
    requires forall f :: Count(fs, f) == ActiveCount(dice, f)
    requires TriplesSoFar(dice, fs, ai, t, total, counts, used)
    ensures TriplesSoFar(dice, fs, ai, t + 1, total', counts', used')
  {
    var face := TRIPLES_ORDER[t];
    RankOfOrder(t);
    assert counts[face] == Count(fs, face);
    total', counts', used' := total, counts, used;
    if counts[face] >= 3 {
      total' := total + TripleValue(face);
      counts' := counts[face := counts[face] - 3];
      used' := MarkTriple(fs, ai, face, used);
    }
    TripleStep(fs, ai, t, used, used');
    TallyStep(dice, t, total, counts, total', counts');
  }

  /** The triple pass of calculateScore: for each face in TRIPLES_ORDER with at
      least three active dice, adds its triple value, takes three off its count
      and marks its first three active dice. */
  method TakeTriples(ghost dice: seq<Die>, activeFaces: seq<Face>, activeIndices: seq<nat>, counts0: map<Face, int>)
    returns (total: nat, counts: map<Face, int>, used: seq<nat>)
    requires |activeIndices| == |activeFaces|
    requires forall k, l :: 0 <= k < l < |activeIndices| ==> activeIndices[k] < activeIndices[l]
    requires forall f :: Count(activeFaces, f) == ActiveCount(dice, f)
    requires forall f :: f in counts0 && counts0[f] == ActiveCount(dice, f)
    ensures total == TriplesTotal(dice, |TRIPLES_ORDER|)
    ensures forall f :: f in counts && counts[f] == Leftover(dice, f)
    ensures Distinct(used)
    ensures forall j :: j in used ==> j in activeIndices
    ensures forall k :: 0 <= k < |activeFaces| ==> (activeIndices[k] in used <==> TripleMarked(activeFaces, k))
  {
    var sum := 0;
    counts := counts0;
    used := [];
    for t := 0 to |TRIPLES_ORDER|
      invariant TriplesSoFar(dice, activeFaces, activeIndices, t, sum, counts, used)
    {
      sum, counts, used := TripleRound(dice, activeFaces, activeIndices, t, sum, counts, used);
    }
    total := sum;
    forall k | 0 <= k < |activeFaces|
      ensures activeIndices[k] in used <==> TripleMarked(activeFaces, k)
    {
      assert Rank(activeFaces[k]) < |TRIPLES_ORDER|;
    }
  }

  /** The counts and the running total after a round of the triple pass,
      whether or not the face of that round has a triple. */
  predicate TallySoFar(dice: seq<Die>, t: nat, total: int, counts: map<Face, int>)
    requires t <= |TRIPLES_ORDER|
  {
    && total == TriplesTotal(dice, t)
    && (forall f :: f in counts && counts[f] == if Rank(f) < t then Leftover(dice, f) else ActiveCount(dice, f))
  }

  /** One round of the triple pass moves the counts and the total from t faces to t + 1. */
  lemma TallyStep(dice: seq<Die>, t: nat, total: int, counts: map<Face, int>, total': int, counts': map<Face, int>)
    requires t < |TRIPLES_ORDER| && TallySoFar(dice, t, total, counts)
    requires counts[TRIPLES_ORDER[t]] >= 3 ==>
               total' == total + TripleValue(TRIPLES_ORDER[t])
               && counts' == counts[TRIPLES_ORDER[t] := counts[TRIPLES_ORDER[t]] - 3]
    requires counts[TRIPLES_ORDER[t]] < 3 ==> total' == total && counts' == counts
    ensures TallySoFar(dice, t + 1, total', counts')
  {
    RankOfOrder(t);
  }

  /** One round of the triple pass keeps "marked so far = triples of the faces seen so far". */
  lemma TripleStep(fs: seq<Face>, ai: seq<nat>, t: nat, before: seq<nat>, after: seq<nat>)
    requires |ai| == |fs| && t < |TRIPLES_ORDER|
    requires forall k :: 0 <= k < |fs| ==> (ai[k] in before <==> TripleMarked(fs, k) && Rank(fs[k]) < t)
    requires Count(fs, TRIPLES_ORDER[t]) >= 3 ==>
               forall k :: 0 <= k < |fs| ==>
                 (ai[k] in after <==> ai[k] in before || (fs[k] == TRIPLES_ORDER[t] && Count(fs[..k], TRIPLES_ORDER[t]) < 3))
    requires Count(fs, TRIPLES_ORDER[t]) < 3 ==> after == before
    ensures forall k :: 0 <= k < |fs| ==> (ai[k] in after <==> TripleMarked(fs, k) && Rank(fs[k]) < t + 1)
  {
    RankOfOrder(t);
  }

  /** After the singles pass, the marked active dice are exactly the locally marked ones. */
  lemma SinglesMarks(fs: seq<Face>, ai: seq<nat>, triples: seq<nat>, withAces: seq<nat>, withKings: seq<nat>)
    requires |ai| == |fs|
    requires forall k :: 0 <= k < |fs| ==> (ai[k] in triples <==> TripleMarked(fs, k))
    requires LeftoverIn(fs, Ace) > 0 ==>
               forall k :: 0 <= k < |fs| ==> (ai[k] in withAces <==> ai[k] in triples || fs[k] == Ace)
    requires LeftoverIn(fs, Ace) == 0 ==> withAces == triples
    requires LeftoverIn(fs, King) > 0 ==>
               forall k :: 0 <= k < |fs| ==> (ai[k] in withKings <==> ai[k] in withAces || fs[k] == King)
    requires LeftoverIn(fs, King) == 0 ==> withKings == withAces
    ensures forall k :: 0 <= k < |fs| ==> (ai[k] in withKings <==> LocalMarked(fs, k))
  {
    forall k | 0 <= k < |fs|
      ensures ai[k] in withKings <==> LocalMarked(fs, k)
    {
      if (fs[k] == Ace && LeftoverIn(fs, Ace) == 0) || (fs[k] == King && LeftoverIn(fs, King) == 0) {
        NoLeftoverAllTripled(fs, k);
      }
    }
  }

  /** Leftover counted on a face list. */
  function LeftoverIn(fs: seq<Face>, f: Face): nat
  {
    if Count(fs, f) >= 3 then Count(fs, f) - 3 else Count(fs, f)
  }

  /** The singles pass of calculateScore: every active A left over after the
      triples scores 100 and every active K 50, and each of them is marked. */
  method TakeSingles(ghost dice: seq<Die>, fs: seq<Face>, ai: seq<nat>, counts: map<Face, int>, triples: seq<nat>)
    returns (singles: nat, used: seq<nat>)
    requires |ai| == |fs|
    requires forall k, l :: 0 <= k < l < |ai| ==> ai[k] < ai[l]
    requires forall f :: Count(fs, f) == ActiveCount(dice, f)
    requires forall f :: f in counts && counts[f] == Leftover(dice, f)
    requires Distinct(triples)
    requires forall j :: j in triples ==> j in ai
    requires forall k :: 0 <= k < |fs| ==> (ai[k] in triples <==> TripleMarked(fs, k))
    ensures singles == SingleValue(Ace) * Leftover(dice, Ace) + SingleValue(King) * Leftover(dice, King)
    ensures Distinct(used)
    ensures forall j :: j in used ==> j in ai
    ensures forall k :: 0 <= k < |fs| ==> (ai[k] in used <==> LocalMarked(fs, k))
  {
    singles := 0;
    used := triples;
    if counts[Ace] > 0 {
      assert SingleValue(Ace) == 100;
      singles := singles + counts[Ace] * SingleValue(Ace);
      used := MarkRemaining(fs, ai, Ace, used);
    }
    ghost var withAces := used;
    if counts[King] > 0 {
      assert SingleValue(King) == 50;
      singles := singles + counts[King] * SingleValue(King);
      used := MarkRemaining(fs, ai, King, used);
    }
    SinglesMarks(fs, ai, triples, withAces, used);
  }

  /** calculateScore: the score of the dice that are not held, and the positions
      that make it up, each listed once (in the order they were marked). */
  method CalculateScore(dice: seq<Die>) returns (score: nat, scoringIndices: seq<nat>)
    ensures score == Score(dice)
    ensures forall i :: i in scoringIndices <==> i in ScoringSet(dice)
    ensures Distinct(scoringIndices)
  {
    var activeFaces := ActiveFaces(dice);
    var activeIndices := ActiveIndices(dice);
    var counts := TallyFaces(activeFaces);
    forall f ensures Count(activeFaces, f) == ActiveCount(dice, f) {
      CountActiveFaces(dice, f);
    }
    var total, triples, singles, used;
    total, counts, triples := TakeTriples(dice, activeFaces, activeIndices, counts);
    singles, used := TakeSingles(dice, activeFaces, activeIndices, counts, triples);
    LocalToGlobal(dice, activeFaces, activeIndices, used);
    score := total + singles;
    scoringIndices := used;
  }
}
