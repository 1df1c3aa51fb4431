/** The room record of the networked game (app.js): what the shared database
    holds under `rooms/<code>`. Every change to a room goes through a
    transaction whose callback receives the current record and either returns
    the record to commit or aborts; the callbacks are modelled as functions
    `Room -> Option<Room>`, with None for an abort. */
module RoomState {
  import opened Basics
  import opened Rules
  import opened Scoring
  import SoloState

  /** `status`: 'waiting' (lobby), 'playing', 'finished'. */
  datatype Status = Waiting | Playing | Finished

  /** A seated player: display name and banked score. */
  datatype RPlayer = RPlayer(name: string, score: int)

  /** The dice as the database hands them back: a proper array, an object
      keyed by position (the database's form of a sparse array), or nothing. */
  datatype StoredDice = DiceArray(list: seq<Die>) | DiceObject(entries: map<nat, Die>) | NoDice

  /** The `game` record of the turn in progress: `turnScore` holds the earlier
      rolls of the turn, `rollScore` the roll on the table. */
  datatype Game = Game(dice: StoredDice, turnScore: int, rollScore: int, rollCount: int, message: string)

  /** The room record. `playerOrder` maps seat numbers to uids, `players` maps
      uids to players, `lastActionId` is the token of the last committed action. */
  datatype Room = Room(
    hostUid: string,
    passHash: string,
    status: Status,
    turnUid: string,
    turnIndex: nat,
    playerOrder: map<nat, string>,
    players: map<string, RPlayer>,
    game: Game,
    lastActionId: Option<string>,
    winnerUid: Option<string>)

  /** The 600-point entry rule: a player still at 0 must bank at least this much. */
  const ENTRY_THRESHOLD: nat := 600
  /** The most players a room seats. */
  const MAX_ROOM_PLAYERS: nat := 6
  /** The longest player name the forms accept. */
  const MAX_NAME: nat := 20

  const ROOM_HOT_DICE_MSG: string := "Hot Dice!"
  const ROLL_OR_BANK_MSG: string := "Roll or Bank"
  const WAITING_MSG: string := "Waiting..."
  const DEFAULT_NAME: string := "Player"

  /** The die the screen and the roll substitute for a missing one. */
  const DEFAULT_DIE: Die := Die(Six, false, false)

  /** What the callbacks make of the stored dice: an array is used as it is;
      an object gives five dice, position i taken from it when present and
      the default die otherwise; nothing at all gives five default dice. */
  function NormaliseDice(d: StoredDice): (r: seq<Die>)
    ensures d.DiceArray? ==> r == d.list
    ensures !d.DiceArray? ==> |r| == NUM_DICE
    ensures d.DiceObject? ==> forall i :: 0 <= i < NUM_DICE ==> r[i] == (if i in d.entries then d.entries[i] else DEFAULT_DIE)
    ensures d.NoDice? ==> forall i :: 0 <= i < NUM_DICE ==> r[i] == DEFAULT_DIE
  {
    match d
    case DiceArray(list) => list
    case DiceObject(m) => seq(NUM_DICE, i requires 0 <= i < NUM_DICE => if i in m then m[i] else DEFAULT_DIE)
    case NoDice => SoloState.FreshDice()
  }

  /** A fresh turn: five default dice, no points, no rolls, the given message. */
  function FreshGame(message: string): (g: Game)
    ensures g.dice.DiceArray? && |g.dice.list| == NUM_DICE
    ensures forall i :: 0 <= i < NUM_DICE ==> g.dice.list[i] == DEFAULT_DIE
    ensures g.turnScore == 0 && g.rollScore == 0 && g.rollCount == 0 && g.message == message
  {
    Game(DiceArray(SoloState.FreshDice()), 0, 0, 0, message)
  }

  /** The record a transaction leaves behind: the callback's result when it
      commits, the record as it was when it aborts. */
  function Commit(cur: Room, result: Option<Room>): (r: Room)
    ensures result.None? ==> r == cur
    ensures result.Some? ==> r == result.value
  {
    if result.Some? then result.value else cur
  }

  /** The room createRoom writes: the host alone in seat 0 with score 0, the
      host's turn, and a fresh game waiting to start. */
  function CreateRoom(host: string, passHash: string, name: string): (r: Room)
    ensures r.status == Waiting && r.hostUid == host && r.turnUid == host && r.turnIndex == 0
    ensures r.playerOrder == map[0 := host] && r.players == map[host := RPlayer(name, 0)]
    ensures r.game == FreshGame(WAITING_MSG) && r.lastActionId.None? && r.winnerUid.None?
  {
    Room(host, passHash, Waiting, host, 0, map[0 := host], map[host := RPlayer(name, 0)],
         FreshGame(WAITING_MSG), None, None)
  }

  /** The uid the start and the restart hand the first turn to: seat 0's uid
      when it is present and non-empty, the caller's otherwise. */
  function FirstTurnUid(cur: Room, caller: string): (uid: string)
    ensures 0 in cur.playerOrder && cur.playerOrder[0] != "" ==> uid == cur.playerOrder[0]
    ensures !(0 in cur.playerOrder && cur.playerOrder[0] != "") ==> uid == caller
  {
    if 0 in cur.playerOrder && cur.playerOrder[0] != "" then cur.playerOrder[0] else caller
  }
}
