/** advanceTurn of app.js: hand the dice to the next seat, in `playerOrder`
    order and cyclically, whose uid still has a player record. */
module RoomTurn {
  import opened Basics
  import opened RoomState

  /** The seat the search looks at on attempt k (from 1): k seats after the
      current one, modulo the number of seats. With no seats the index is
      meaningless (JavaScript computes NaN) and names no seat. */
  function Seat(r: Room, k: nat): nat
  {
    if |r.playerOrder| == 0 then r.turnIndex else (r.turnIndex + k) % |r.playerOrder|
  }

  /** A seat whose uid has a player record. */
  predicate Occupied(r: Room, s: nat)
  {
    s in r.playerOrder && r.playerOrder[s] in r.players
  }

  /** The first occupied seat among attempts k, k+1, …, len+1. */
  function FirstOccupied(r: Room, k: nat): (res: Option<nat>)
    ensures res.Some? ==> Occupied(r, res.value)
    decreases |r.playerOrder| + 2 - k
  {
    if k > |r.playerOrder| + 1 then None
    else if Occupied(r, Seat(r, k)) then Some(Seat(r, k))
    else FirstOccupied(r, k + 1)
  }

  /** The message a fresh turn opens with. */
  function RoomTurnMessage(name: string): string
  {
    name + "'s Turn"
  }

  /** advanceTurn: the first occupied seat after the current one gets the
      turn and a fresh game; when there is none the record stays as it is.
      Only the turn fields and the game change, and the turn goes to a seated
      player. */
  function AdvanceTurn(r: Room): (a: Room)
    ensures && a.players == r.players && a.playerOrder == r.playerOrder && a.status == r.status
            && a.hostUid == r.hostUid && a.passHash == r.passHash
            && a.lastActionId == r.lastActionId && a.winnerUid == r.winnerUid
    ensures a == r || (&& a.turnIndex in r.playerOrder && r.playerOrder[a.turnIndex] == a.turnUid
                       && a.turnUid in r.players
                       && a.game == FreshGame(RoomTurnMessage(r.players[a.turnUid].name)))
  {
    match FirstOccupied(r, 1)
    case None => r
    case Some(s) =>
      var uid := r.playerOrder[s];
      r.(turnIndex := s, turnUid := uid, game := FreshGame(RoomTurnMessage(r.players[uid].name)))
  }

  lemma ModStep(x: nat, n: nat)
    requires n > 0
    ensures (x % n + 1) % n == (x + 1) % n
  {
    var q, m := x / n, x % n;
    assert x == n * q + m;
    if m + 1 < n {
      assert x + 1 == n * q + (m + 1);
      ModOfSum(q, m + 1, n);
      assert m + 1 == n * 0 + (m + 1);
      ModOfSum(0, m + 1, n);
    } else {
      assert x + 1 == n * (q + 1) + 0 by {
        assert n * (q + 1) == n * q + n;
      }
      ModOfSum(q + 1, 0, n);
      assert m + 1 == n * 1 + 0;
      ModOfSum(1, 0, n);
    }
  }

  /** The remainder of n*q + m is m, for 0 <= m < n. */
  lemma ModOfSum(q: int, m: int, n: int)
    requires n > 0 && 0 <= m < n
    ensures (n * q + m) % n == m
  {
    var x := n * q + m;
    var d := q - x / n;
    assert n * d == x % n - m;
  }

  /** advanceTurn as written: a while loop over at most len+1 attempts,
      moving one seat on per attempt. */
  method AdvanceTurnLoop(cur: Room) returns (r: Room)
    ensures r == AdvanceTurn(cur)
  {
    var order := cur.playerOrder;
    var len := |order|;
    var idx := cur.turnIndex;
    var attempts := 0;
    while attempts < len + 1
      invariant 0 <= attempts <= len + 1
      invariant attempts == 0 ==> idx == cur.turnIndex
      invariant attempts > 0 ==> idx == Seat(cur, attempts)
      invariant FirstOccupied(cur, 1) == FirstOccupied(cur, attempts + 1)
      decreases len + 1 - attempts
    {
      if len > 0 {
        if attempts > 0 {
          ModStep(cur.turnIndex + attempts, len);
        }
        idx := (idx + 1) % len;
      }
      if idx in order && order[idx] in cur.players {
        var uid := order[idx];
        r := cur.(turnIndex := idx, turnUid := uid, game := FreshGame(RoomTurnMessage(cur.players[uid].name)));
        return;
      }
      attempts := attempts + 1;
    }
    r := cur;
  }

  /** What the search finds is an occupied seat, reached on some attempt k
      with every earlier attempt landing on an empty one. */
  lemma {:induction false} FirstOccupiedFinds(r: Room, k: nat) returns (j: nat)
    requires FirstOccupied(r, k).Some?
    ensures k <= j <= |r.playerOrder| + 1
    ensures FirstOccupied(r, k) == Some(Seat(r, j)) && Occupied(r, Seat(r, j))
    ensures forall i :: k <= i < j ==> !Occupied(r, Seat(r, i))
    decreases |r.playerOrder| + 2 - k
  {
    if Occupied(r, Seat(r, k)) {
      j := k;
    } else {
      j := FirstOccupiedFinds(r, k + 1);
    }
  }

  /** Every attempt from k on lands on an empty seat when nothing is found. */
  lemma {:induction false} FirstOccupiedNone(r: Room, k: nat)
    requires FirstOccupied(r, k).None?
    ensures forall i :: k <= i <= |r.playerOrder| + 1 ==> !Occupied(r, Seat(r, i))
    decreases |r.playerOrder| + 2 - k
  {
    if k <= |r.playerOrder| + 1 {
      FirstOccupiedNone(r, k + 1);
    }
  }

  /** Every seat number below len is reached within len attempts. */
  lemma SeatReached(r: Room, s: nat) returns (k: nat)
    requires s < |r.playerOrder|
    ensures 1 <= k <= |r.playerOrder| && Seat(r, k) == s
  {
    var n, t := |r.playerOrder|, r.turnIndex;
    var a := t % n;
    assert t == n * (t / n) + a;
    if s > a {
      k := s - a;
      assert t + k == n * (t / n) + s;
      ModOfSum(t / n, s, n);
    } else {
      k := s - a + n;
      assert t + k == n * (t / n + 1) + s;
      ModOfSum(t / n + 1, s, n);
    }
  }

  /** advanceTurn moves the turn to a player: the seat it picks is occupied
      and the new turnUid is that seat's uid, which has a player record; the
      seats it passed over on the way are empty. */
  lemma AdvancePicksPlayer(r: Room)
    requires FirstOccupied(r, 1).Some?
    ensures var s := FirstOccupied(r, 1).value;
            var a := AdvanceTurn(r);
            && s < |r.playerOrder| && Occupied(r, s)
            && a.turnIndex == s && a.turnUid == r.playerOrder[s] && a.turnUid in r.players
            && a.game == FreshGame(RoomTurnMessage(r.players[a.turnUid].name))
    ensures exists j :: 1 <= j <= |r.playerOrder| + 1 && FirstOccupied(r, 1).value == Seat(r, j)
              && forall i :: 1 <= i < j ==> !Occupied(r, Seat(r, i))
  {
    var j := FirstOccupiedFinds(r, 1);
  }

  /** advanceTurn finds no one exactly when no seat below len has a player;
      then it changes nothing. */
  lemma AdvanceFindsNoneIff(r: Room)
    ensures FirstOccupied(r, 1).None? <==> forall s :: 0 <= s < |r.playerOrder| ==> !Occupied(r, s)
    ensures FirstOccupied(r, 1).None? ==> AdvanceTurn(r) == r
  {
    if FirstOccupied(r, 1).None? {
      FirstOccupiedNone(r, 1);
      forall s | 0 <= s < |r.playerOrder| ensures !Occupied(r, s) {
        var k := SeatReached(r, s);
      }
    } else {
      var j := FirstOccupiedFinds(r, 1);
    }
  }
}
