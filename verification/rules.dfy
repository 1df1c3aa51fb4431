/** The rule constants of the game: the six die faces, the number of dice, the
    target score, and the value of every scoring combination. The solo game reads
    them from constants.ts; the networked game repeats the same values at the top
    of app.js. */
module Rules {

  /** The six faces, lowest first: 6, 7, J, Q, K, A. */
  datatype Face = Six | Seven | Jack | Queen | King | Ace

  const WINNING_SCORE: nat := 5000
  const NUM_DICE: nat := 5

  /** The faces in the order of the FACES table. */
  const FACES: seq<Face> := [Six, Seven, Jack, Queen, King, Ace]

  /** The order in which triples are looked for: highest value first. */
  const TRIPLES_ORDER: seq<Face> := [Ace, King, Queen, Jack, Seven, Six]

  /** The symbol a face is shown and stored as. */
  function Symbol(f: Face): char
  {
    match f
    case Six => '6'
    case Seven => '7'
    case Jack => 'J'
    case Queen => 'Q'
    case King => 'K'
    case Ace => 'A'
  }

  /** Points for three dice of one face. */
  function TripleValue(f: Face): (v: nat)
    ensures v % 50 == 0 && 100 <= v <= 1000
  {
    match f
    case Ace => 1000
    case King => 500
    case Queen => 400
    case Jack => 300
    case Seven => 200
    case Six => 100
  }

  /** Points for one die that is not part of a triple. */
  function SingleValue(f: Face): (v: nat)
    ensures v % 50 == 0
    ensures v > 0 <==> f == Ace || f == King
  {
    match f
    case Ace => 100
    case King => 50
    case _ => 0
  }

  /** The position of a face in TRIPLES_ORDER. */
  function Rank(f: Face): (r: nat)
    ensures r < |TRIPLES_ORDER| && TRIPLES_ORDER[r] == f
  {
    match f
    case Ace => 0
    case King => 1
    case Queen => 2
    case Jack => 3
    case Seven => 4
    case Six => 5
  }

  /** FACES lists six distinct faces, every face appears in it, and their symbols read 6 7 J Q K A. */
  lemma FacesAreSixDistinct()
    ensures |FACES| == 6
    ensures forall i, j :: 0 <= i < j < |FACES| ==> FACES[i] != FACES[j] && Symbol(FACES[i]) != Symbol(FACES[j])
    ensures forall f: Face :: f in FACES
    ensures seq(|FACES|, i requires 0 <= i < |FACES| => Symbol(FACES[i])) == "67JQKA"
  {
    forall f: Face ensures f in FACES {
      assert FACES[5 - Rank(f)] == f;
    }
  }

  /** TRIPLES_ORDER holds each face once, and triple values strictly decrease along it. */
  lemma TripleOrderDecreasing()
    ensures |TRIPLES_ORDER| == 6
    ensures forall i, j :: 0 <= i < j < |TRIPLES_ORDER| ==> TRIPLES_ORDER[i] != TRIPLES_ORDER[j]
    ensures forall i, j :: 0 <= i < j < |TRIPLES_ORDER| ==> TripleValue(TRIPLES_ORDER[i]) > TripleValue(TRIPLES_ORDER[j])
  {
  }

  /** Rank undoes indexing into TRIPLES_ORDER. */
  lemma RankOfOrder(t: nat)
    requires t < |TRIPLES_ORDER|
    ensures Rank(TRIPLES_ORDER[t]) == t
  {
  }

  /** Points that are multiples of 50 add up to a multiple of 50. */
  lemma SumOf50s(a: int, b: int)
    requires a % 50 == 0 && b % 50 == 0
    ensures (a + b) % 50 == 0
  {
    assert a + b == 50 * (a / 50 + b / 50);
  }
}
