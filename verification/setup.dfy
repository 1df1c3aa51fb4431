/** The player-list editor of components/SetupScreen.tsx: the names the solo
    game will start with. Each handler builds a new list from the old one;
    together they keep between one and six names. */
module Setup {
  import opened Basics

  const MAX_PLAYERS: nat := 6

  /** The label of the n-th player (`Player ${n}`). */
  function PlayerLabel(n: nat): string
  {
    "Player " + Decimal(n)
  }

  /** The list the editor opens with. */
  function InitialNames(): (names: seq<string>)
    ensures |names| == 2
    ensures forall i :: 0 <= i < |names| ==> names[i] == PlayerLabel(i + 1)
  {
    [PlayerLabel(1), PlayerLabel(2)]
  }

  /** addPlayer: appends the next default label while there are fewer than six names. */
  function AddPlayer(names: seq<string>): (r: seq<string>)
    ensures |names| < MAX_PLAYERS ==> r == names + [PlayerLabel(|names| + 1)]
    ensures |names| >= MAX_PLAYERS ==> r == names
  {
    if |names| < MAX_PLAYERS then names + [PlayerLabel(|names| + 1)] else names
  }

  /** `names.filter((_, i) => i !== index)`: every entry except the one at `index`, in order. */
  function Without(names: seq<string>, index: int): (r: seq<string>)
    ensures 0 <= index < |names| ==> |r| == |names| - 1
    ensures 0 <= index < |names| ==> forall i :: 0 <= i < |r| ==> r[i] == names[if i < index then i else i + 1]
    ensures !(0 <= index < |names|) ==> r == names
  {
    if names == [] then []
    else
      var n := |names| - 1;
      Without(names[..n], index) + (if n == index then [] else [names[n]])
  }

  /** removePlayer: drops the name at `index`, unless it is the last name left. */
  function RemovePlayer(names: seq<string>, index: int): (r: seq<string>)
    ensures |names| > 1 && 0 <= index < |names| ==> |r| == |names| - 1 && r == names[..index] + names[index + 1..]
    ensures |names| <= 1 || !(0 <= index < |names|) ==> r == names
  {
    if |names| > 1 then Without(names, index) else names
  }

  /** updateName: the copy of the list with entry `index` replaced. */
  function UpdateName(names: seq<string>, index: nat, val: string): (r: seq<string>)
    requires index < |names|
    ensures |r| == |names| && r[index] == val
    ensures forall i :: 0 <= i < |names| && i != index ==> r[i] == names[i]
  {
    names[index := val]
  }

  /** One edit made through the screen. */
  datatype Edit = Add | Remove(index: int) | Rename(index: int, val: string)

  /** Applies an edit; a rename is only offered for a listed entry, so any other index changes nothing. */
  function ApplyEdit(names: seq<string>, e: Edit): seq<string>
  {
    match e
    case Add => AddPlayer(names)
    case Remove(i) => RemovePlayer(names, i)
    case Rename(i, v) => if 0 <= i < |names| then UpdateName(names, i, v) else names
  }

  function ApplyEdits(names: seq<string>, edits: seq<Edit>): seq<string>
    decreases |edits|
  {
    if edits == [] then names else ApplyEdits(ApplyEdit(names, edits[0]), edits[1..])
  }

  predicate ValidCount(names: seq<string>)
  {
    1 <= |names| <= MAX_PLAYERS
  }

  /** Every edit keeps the list between one and six names. */
  lemma EditKeepsCount(names: seq<string>, e: Edit)
    requires ValidCount(names)
    ensures ValidCount(ApplyEdit(names, e))
  {
  }

  /** Whatever the user does on the screen, the list has between one and six names. */
  lemma {:induction false} EditsKeepCount(names: seq<string>, edits: seq<Edit>)
    requires ValidCount(names)
    ensures ValidCount(ApplyEdits(names, edits))
    decreases |edits|
  {
    if edits != [] {
      EditKeepsCount(names, edits[0]);
      EditsKeepCount(ApplyEdit(names, edits[0]), edits[1..]);
    }
  }

  lemma StartsValid()
    ensures ValidCount(InitialNames())
    ensures forall edits :: ValidCount(ApplyEdits(InitialNames(), edits))
  {
    forall edits ensures ValidCount(ApplyEdits(InitialNames(), edits)) {
      EditsKeepCount(InitialNames(), edits);
    }
  }
}
