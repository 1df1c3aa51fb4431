# 5000 — a verified model of the dice game's rules

"5000" is a Farkle-style dice game with five dice whose faces are 6, 7, J,
Q, K and A. Only unheld dice score. A triple scores 1000 (A), 500 (K),
400 (Q), 300 (J), 200 (7) or 100 (6). A single A outside a triple scores
100 and a single K scores 50. A roll that scores nothing is a *Farkle* and
loses the turn's points. Banking adds the turn's points to the player's
score, and reaching exactly 5000 wins. A bank that would pass 5000 is
refused. Landing on another player's score knocks that player back to 0.

The repository ships the game twice:

- A single-device React game. Its files are `App.tsx`,
  `components/SetupScreen.tsx`, `utils/gameLogic.ts` and `constants.ts`.
- A networked game in `app.js`. Every move is a transaction on a shared
  room record. This version adds an entry rule: a player still at 0 must
  bank at least 600 points in one turn. The model takes the threshold as a
  parameter.

The Dafny modules follow those files:
| module | models |
|---|---|
| `Basics` | `Option`, decimal rendering of ids, substring search (`includes`) |
| `Rules` | `constants.ts`: faces, triple and single values, the triple order |
| `Scoring` | `calculateScore` of `utils/gameLogic.ts`, as loops, against a reference definition of the score |
| `ScoringLaws` | properties of that reference definition |
| `NetScore` | `calcScore` of `app.js`, proved to meet the same reference definition |
| `Setup` | the name list of `components/SetupScreen.tsx` |
| `SoloState`, `SoloRoll`, `SoloBank` | the state of `App.tsx`, its roll and bank updates, and the invariant they keep |
| `Escape` | the HTML escaper `esc` of `app.js` |
| `RoomState`, `RoomTurn`, `RoomPlay`, `RoomLobby` | the room record of `app.js` and its transactions |
| `RoomInv` | the invariant every room transaction keeps, and the action-token rule |

**The reference score.** The score is defined once, in `Scoring.Score` and
`Scoring.ScoringSet`. An unheld die scores when it shows A or K, or when
at least three unheld dice show its face and fewer than three of them
come before it. Both scoring engines are loop methods proved equal to this
definition, so they agree on every roll (`NetScore.EnginesAgree`).

**State updates.** React's `setGameState(prev => …)` updates become
functions from the old state to the new one. Where the source works step
by step (redrawing, flagging, bumping, the turn search, zeroing scores),
a method with a loop carries out the same steps. Its `ensures` ties the
result to the function.

**Room transactions.** Each room transaction callback is a function
`Room -> Option<Room>`. `None` is the callback returning `undefined`,
which aborts the transaction. `RoomState.Commit` gives the record after
the transaction: unchanged on an abort, the callback's result otherwise.

**Randomness.** `Math.random` becomes a parameter `draws: seq<Face>`.
`draws[i]` is the face die `i` gets if it is redrawn.

## Model
| member | source | states |
|---|---|---|
| Rules.TripleValue | constants.ts:8-14 | a triple is worth between 100 and 1000, always a multiple of 50 |
| Rules.SingleValue | constants.ts:15-16 | a single die scores exactly when it is an A or a K, and its value is a multiple of 50 |
| Rules.Rank | utils/gameLogic.ts:25 | every face has exactly one place in the triple order A, K, Q, J, 7, 6 |
| Rules.FacesAreSixDistinct | constants.ts:6 | the face list holds six different faces reading 6 7 J Q K A, and every face is among them |
| Rules.TripleOrderDecreasing | utils/gameLogic.ts:25-36 | the triple order lists each face once, and triple values fall strictly along it |
| Scoring.ActiveIndices | utils/gameLogic.ts:15 | the positions of the unheld dice, ascending, each unheld die included and no held one |
| Scoring.Marked | utils/gameLogic.ts:39-69 | a held die never scores; every unheld A or K scores; any other scoring die has a face that at least three unheld dice show |
| Scoring.ScoringSet | utils/gameLogic.ts:39-69 | only unheld dice score; each is an A, a K or part of a triple; every unheld A and K scores |
| Scoring.TriplesTotal | utils/gameLogic.ts:27-48 | the sum of the triple awards is a multiple of 50 |
| Scoring.TallyFaces | utils/gameLogic.ts:17-19 | the counts record holds, for every face, how many active dice show it |
| Scoring.MarkTriple | utils/gameLogic.ts:40-46 | marks exactly the first three active dice of the face not yet used, and nothing outside the active dice |
| Scoring.MarkRemaining | utils/gameLogic.ts:55-59 | adds exactly the active dice of the face to the marked set |
| Scoring.TakeTriples | utils/gameLogic.ts:27-48 | the triple total is the sum of the triple awards; the counts left are the leftovers; the marked dice are exactly the triple members |
| Scoring.TakeSingles | utils/gameLogic.ts:52-70 | leftover aces score 100 each and leftover kings 50 each; afterwards exactly the scoring dice are marked |
| Scoring.CalculateScore | utils/gameLogic.ts:11-76 | the score is the reference score; the returned indices are duplicate-free and are exactly the scoring dice |
| ScoringLaws.HeldDiceIgnored | utils/gameLogic.ts:13-15 | two rolls with the same unheld dice in the same places have the same score and scoring set |
| ScoringLaws.HeldFaceChangeIgnored | utils/gameLogic.ts:13 | changing the face of a held die changes neither the score nor the scoring set |
| ScoringLaws.BustIff | utils/gameLogic.ts:27-70 | a roll scores 0 exactly when no unheld A or K shows and no face shows three times among the unheld dice |
| ScoringLaws.ScoreZeroIffNoScoringDice | utils/gameLogic.ts:27-75 | the score is 0 exactly when no die is reported as scoring |
| ScoringLaws.AllHeldScoresNothing | utils/gameLogic.ts:13 | with every die held, the score is 0 and nothing scores |
| ScoringLaws.TripleUsesExactlyThree | utils/gameLogic.ts:39-46 | a face other than A and K scores with exactly three of its unheld dice when it has at least three, and with none otherwise |
| ScoringLaws.AcesAndKingsAllScore | utils/gameLogic.ts:52-70 | every unheld A and every unheld K is marked, triple or not |
| Scoring.Score | utils/gameLogic.ts:11-76 | the score of a roll is a multiple of 50 |
| ScoringLaws.AceAceKingKingKing | utils/gameLogic.ts:27-70 | A A K K K scores 700 (a K triple and two single aces), and all five dice score |
| NetScore.MarkTripleLocal | app.js:41-42 | marks exactly the first three unheld dice of the face, by position among the unheld dice |
| NetScore.TripleRoundLocal | app.js:37-43 | one face of the triple order keeps the running total, counts and marks in step with the reference |
| NetScore.TriplesLocal | app.js:36-44 | the triple total is the reference triple total; the marks are exactly the triple members |
| NetScore.AddSingles | app.js:45-46 | each unmarked die of the face adds its single value and becomes marked |
| NetScore.RollPositions | app.js:47-48 | maps the marked positions among the unheld dice back to roll positions: exactly the scoring set, ascending |
| NetScore.CalcScore | app.js:29-50 | the score is the reference score; the indices are ascending and exactly the scoring dice |
| NetScore.EnginesAgree | app.js:29-50 | calcScore and calculateScore give the same score and the same set of scoring dice, of the same size |
| Escape.EscChar | app.js:7 | every character becomes non-empty text, and characters other than `&`, `<`, `>`, `"` and `'` stay as they are |
| Escape.Esc | app.js:7 | escaped text is at least as long as the input and contains none of the characters `<`, `>`, `"` or `'` |
| Escape.EscPlain | app.js:7 | text without special characters is left unchanged |
| Escape.UnescapeEsc | app.js:7 | decoding the entities of escaped text gives back the original |
| Escape.EscUnescape | app.js:7 | every text that decodes is the escape of what it decodes to |
| Escape.EscInjective | app.js:7 | two texts with the same escape are equal |
| Basics.ParseDecimalOfDecimal | App.tsx:43 | the decimal text of a player number reads back as that number |
| Basics.DecimalInjective | App.tsx:43 | different player numbers give different decimal texts |
| Setup.InitialNames | components/SetupScreen.tsx:9 | setup starts with two names, "Player 1" and "Player 2" |
| Setup.AddPlayer | components/SetupScreen.tsx:11-15 | below six names, a new "Player n+1" is appended; at six, nothing changes |
| Setup.Without | components/SetupScreen.tsx:19 | drops the name at a valid index and keeps the others in order; any other index changes nothing |
| Setup.RemovePlayer | components/SetupScreen.tsx:17-21 | with two or more names, the name at the index is removed; the last name is never removed |
| Setup.UpdateName | components/SetupScreen.tsx:23-27 | the name at the index is replaced, and every other name is kept |
| Setup.EditKeepsCount | components/SetupScreen.tsx:11-27 | every edit keeps the list at one to six names |
| Setup.EditsKeepCount | components/SetupScreen.tsx:11-27 | any sequence of edits keeps the list at one to six names |
| Setup.StartsValid | components/SetupScreen.tsx:9-27 | the game always starts with one to six names, whatever the edits |
| SoloState.FreshDice | App.tsx:56 | five unheld, non-scoring dice showing 6 |
| SoloState.InitialState | App.tsx:12-22 | the app opens at setup with no players, player 0 current, five fresh dice, no points, no rolls, no winner and no message |
| SoloState.StartGame | App.tsx:41-58 | one player per name, in order, at 0; the first player's turn with no points; message "First Roll!" |
| SoloState.StartGameIdsDistinct | App.tsx:42-46 | the player ids are pairwise different |
| SoloState.SwitchTurn | App.tsx:60-71 | the given player's turn: every die released and not scoring with its face kept, no points, and a message naming the player |
| SoloState.IsFarkleAsWritten | App.tsx:225 | as written, the Farkle test recognises the bust message, and holds only when there is a message at least as long as "Farkle" |
| SoloState.IsFarkle | App.tsx:225 | the intended Farkle test holds only when the as-written one does |
| SoloState.CanBankAsWritten | App.tsx:217 | as written: banking is offered only with points on the table, always with roll points, and after a message mentioning "Farkle" only with roll points |
| SoloState.CanBank | App.tsx:217 | with the intended Farkle test (see ## Findings): banking is offered only with points on the table, always with roll points, and, short of a Farkle, exactly when there are points |
| SoloState.IsHotDice | App.tsx:229-233 | hot dice holds exactly when the roll scored and the held dice plus the scoring dice make five |
| SoloState.CanRollAsWritten | App.tsx:235 | as written: rolling is never offered once the message mentions "Farkle"; otherwise it is offered at the start of a turn, and not after a roll that scored nothing |
| SoloState.CanRoll | App.tsx:235 | with the intended Farkle test (see ## Findings): rolling is never offered after a Farkle; it is offered at the start of a turn, and not after a roll that scored nothing |
| SoloState.FarkleNameBlocksTurn | App.tsx:217-235 | as written, a player whose name contains "Farkle" starts every turn unable to roll or bank |
| SoloState.FarkleFanCannotRoll | App.tsx:225-235 | as written, a player named "Farkle Fan" cannot roll at the start of their turn |
| SoloState.TurnStartCanRoll | App.tsx:235 | with the intended test, every player can roll and cannot bank at the start of a turn, whatever the name |
| SoloState.GameStartCanRoll | App.tsx:235 | with the intended test, the first player of a new game can roll |
| SoloRoll.Redraw | App.tsx:83-97 | when not every die is held, a held die keeps its face and stays held; every other die takes its draw unheld; when all are held every die takes its draw; no die is left scoring |
| SoloRoll.RedrawDice | App.tsx:83-97 | the redraw step by step gives the redraw |
| SoloRoll.MarkScoring | App.tsx:103-105 | faces and held flags are kept, and a die is flagged scoring exactly when it is in the scoring set |
| SoloRoll.ScoreAndFlag | App.tsx:100-105 | the roll's score is the reference score; exactly the scoring dice get flagged; their number is counted |
| SoloRoll.Roll | App.tsx:80-141 | the new dice are the redraw, flagged; the roll score is the reference score of the redraw; a zero roll clears the turn total and shows the Farkle message, a scoring roll keeps it and shows "Hot Dice! Roll again!" when held plus scoring dice make five and no message otherwise; the roll count grows by one; players, current player and phase are kept |
| SoloRoll.HandleRoll | App.tsx:80-141 | the roll reducer step by step gives the roll update |
| SoloRoll.RollDice | App.tsx:83-105 | held dice keep their faces, redrawn dice take their draws, and exactly the scoring dice are flagged |
| SoloRoll.MarkScoringSameActive | App.tsx:103-105 | flagging the scoring dice changes neither the score nor which dice are held |
| SoloRoll.RollBust | App.tsx:112-117 | a roll scores 0 exactly when no die is flagged scoring; a zero roll clears the turn's points and shows the Farkle message; a scoring roll keeps them; the roll count grows either way |
| SoloRoll.RollHotDice | App.tsx:120-130 | "Hot Dice!" shows exactly when the roll scored and the held dice plus the scoring dice make five, which is exactly when the screen's isHotDice holds |
| SoloRoll.PreRoll | App.tsx:249-262 | the roll score moves into the turn's points; scoring dice become held; nothing else changes |
| SoloRoll.RollClick | App.tsx:242-269 | a scoring roll keeps the turn total plus, on a re-roll, the previous roll's points; a bust clears them and is a Farkle; the roll count grows by one; players, current player and phase are kept |
| SoloRoll.OnRollClick | App.tsx:242-269 | the roll click banks the roll score into the turn and holds the scoring dice before a re-roll, and rolls straight away on the first roll |
| SoloRoll.PreRollHoldsScoring | App.tsx:251-254 | after the click, a die is held exactly when it was held or scoring |
| SoloRoll.HotDiceRollsAllFive | App.tsx:83-86 | after hot dice, the click holds every die, so the roll releases and redraws all five |
| SoloBank.Bumped | App.tsx:175-188 | the banker gets the new total; another player is reset exactly when holding that non-zero total on a bank that does not win |
| SoloBank.Bank | App.tsx:147-212 | names and ids are kept; the banker's score grows by the points unless there are none or it would pass 5000; exactly 5000 ends the game with the banker as winner, the dice, points and roll count staying and the message "<name> Wins!"; any other bank is switchTurn to the next player, cyclically: every die released and not scoring with its face kept, no points, and a message naming that player |
| SoloBank.HandleBank | App.tsx:147-212 | the bank handler step by step gives the bank update |
| SoloBank.BankNothing | App.tsx:153-157 | banking no points changes no score and passes the dice to the next player |
| SoloBank.BankOvershoot | App.tsx:166-188 | past 5000 the banker keeps the old score and the turn passes, but the bump check runs against that old score |
| SoloBank.OvershootChangesNoScore | App.tsx:166-188 | while non-zero scores are pairwise different, an overshoot changes no score |
| SoloBank.BankWins | App.tsx:170-197 | reaching exactly 5000 ends the game with the banker as winner at 5000, and nobody else changes |
| SoloBank.BankAdds | App.tsx:174-210 | an ordinary bank adds the points, resets whoever else holds the new total, and passes the turn |
| SoloBank.StartEstablishes | App.tsx:41-58 | a game started with one to six names satisfies the game invariant |
| SoloBank.RollPreserves | App.tsx:80-141 | a roll keeps the game invariant |
| SoloBank.RollClickPreserves | App.tsx:242-269 | the roll click keeps the game invariant |
| SoloBank.RollClickKeepsPoints | App.tsx:249-262 | in a game in progress, a roll that scores carries the turn total and the previous roll's points forward in full |
| SoloBank.BankPreserves | App.tsx:147-212 | a bank keeps non-zero scores pairwise different; it either keeps the game invariant or ends the game with a winner at 5000 |
| SoloBank.WinnerUnique | App.tsx:190-197 | when a bank ends the game, the banker is the only player at 5000 |
| RoomState.NormaliseDice | app.js:222-232 | an array of dice is kept; a sparse object becomes five dice with defaults in the gaps; no dice becomes five default dice |
| RoomState.FreshGame | app.js:317 | five default dice, no points and no rolls, with the given message |
| RoomState.Commit | app.js:202-261 | an aborted transaction leaves the room unchanged, and a committed one stores the callback's result |
| RoomState.CreateRoom | app.js:336-346 | a waiting room whose host is alone in seat 0 at score 0, holds the turn, and has a fresh game |
| RoomState.FirstTurnUid | app.js:455 | seat 0's uid when seat 0 holds one, otherwise the caller |
| RoomTurn.FirstOccupied | app.js:311-319 | a seat the search returns has a player |
| RoomTurn.AdvanceTurnLoop | app.js:305-322 | the advanceTurn loop gives the turn search's result |
| RoomTurn.AdvancePicksPlayer | app.js:311-319 | the next seat holding a player, after the current one and cyclically, gets the turn with a fresh game; the seats skipped are empty |
| RoomTurn.AdvanceFindsNoneIff | app.js:305-322 | the search finds nobody exactly when no seat has a player, and then the room is unchanged |
| RoomTurn.AdvanceTurn | app.js:305-322 | only the turn fields and the game change; either nothing changes or the turn goes to a seat whose uid has a player, with a fresh game naming that player |
| RoomPlay.RollTxn | app.js:202-261 | the roll callback step by step gives the roll result |
| RoomPlay.ScoreAndHold | app.js:240-245 | the roll's score is the reference score; the scoring dice are flagged and held |
| RoomPlay.AutoHold | app.js:240-245 | faces are kept; a die ends held, and flagged scoring, exactly when it was already or it is in the scoring set |
| RoomPlay.RollResult | app.js:202-261 | a roll commits exactly for the player holding the turn with a new action token, and then changes only the game and the token, with the roll count one higher |
| RoomPlay.RollDiceOutcome | app.js:213-249 | held dice keep their faces; redrawn dice take their draws; exactly the scoring dice end flagged and held; the roll count grows by one |
| RoomPlay.RollScoreOutcome | app.js:216-258 | a zero score is a Farkle that clears the points; otherwise the roll score is the reference score, earlier points are kept, and "Hot Dice!" shows exactly when all five dice are held |
| RoomPlay.RollHotDiceAllHeld | app.js:256-257 | with five dice, "Hot Dice!" shows exactly when the roll scored and every die is held |
| RoomPlay.Bumped | app.js:298 | every other player holding the new total drops to 0, and nobody else changes |
| RoomPlay.BumpOthers | app.js:298 | the bump loop over the players gives the bump |
| RoomPlay.Banked | app.js:297-299 | the banker gets the total; exactly the others holding it drop to 0; the room finishes with the banker as winner exactly at 5000; nothing else changes |
| RoomPlay.BankTxn | app.js:287-302 | the bank callback step by step gives the bank result, for any entry threshold |
| RoomPlay.BankResult | app.js:287-302 | a bank commits exactly for the player holding the turn, with a new token, when that player is seated or there is nothing to bank; it records the token and keeps the host, the password, the seats and the set of players |
| RoomPlay.BankNoScoreChange | app.js:294-296 | nothing to bank, a bank below the entry threshold, or an overshoot changes no score and only passes the turn |
| RoomPlay.BankScores | app.js:295-300 | a scoring bank sets the new total and resets exactly the others holding it; the room is finished, with the banker as winner, exactly at 5000 |
| RoomPlay.EntryRule | app.js:294 | a player at 0 who banks less than the entry threshold (600 in app.js) stays at 0 |
| RoomPlay.NoEntryRuleAtZero | app.js:294 | with threshold 0, a positive bank that does not pass 5000 adds to the banker's score even from 0 |
| RoomPlay.ToggleHold | app.js:168-183 | the toggle commits exactly for a die that is there and flagged scoring |
| RoomPlay.ToggleHoldFlips | app.js:168-183 | toggling a scoring die flips its held flag and changes nothing else |
| RoomPlay.ToggleHoldTwice | app.js:177-179 | toggling the same die twice restores the room |
| Basics.Utf16Length | app.js:361 | the JavaScript length of a name lies between its number of characters and twice that; it equals the number of characters exactly when no character lies outside the Basic Multilingual Plane |
| RoomLobby.JoinResult | app.js:361-396 | a join commits exactly for a name of 1 to 20 UTF-16 code units, a waiting room, a matching hash, and a caller already seated or a free seat; it touches only players and seats, and the caller is then seated |
| RoomLobby.JoinCountsCodeUnits | app.js:361 | a name of eleven dice emoji is 22 code units long and is refused |
| RoomLobby.JoinSeatsNewPlayer | app.js:390-394 | a new player gets the next seat at score 0, and no seat or player changes |
| RoomLobby.JoinIdempotent | app.js:388-395 | joining a second time changes nothing |
| RoomLobby.StartResult | app.js:449-458 | a start commits exactly for the host of a waiting room with a new token; seat 0's uid (or the host's) gets the turn, and the message names that player ("Player" without a name); only the status, the turn, the token and the game's message change |
| RoomLobby.ZeroScores | app.js:476-478 | every player's score is 0, and no player is added or dropped |
| RoomLobby.ZeroEach | app.js:476-478 | the zeroing loop gives every player score 0 |
| RoomLobby.RestartTxn | app.js:464-490 | the restart callback step by step gives the restart result |
| RoomLobby.RestartResult | app.js:464-490 | a restart commits exactly for the host of a finished room with a new token; the room then waits with no winner, seat 0 (or the host) first, the host, password and seats kept, every player at 0 with the name kept, and a fresh game with the waiting message |
| RoomInv.CreateEstablishes | app.js:336-346 | a new room satisfies the room invariant |
| RoomInv.BumpPreserves | app.js:297-298 | setting the banker's total and bumping the others keeps scores valid and non-zero scores pairwise different |
| RoomInv.AdvancePreserves | app.js:305-322 | advancing the turn in a valid room keeps the invariant and the host, and always finds a player |
| RoomInv.JoinPreserves | app.js:381-396 | a join keeps the room invariant and the host |
| RoomInv.StartPreserves | app.js:449-458 | a start keeps the room invariant and the host |
| RoomInv.RestartPreserves | app.js:464-490 | a restart keeps the room invariant and the host |
| RoomInv.TogglePreserves | app.js:177-179 | a toggle keeps the room invariant and the host |
| RoomInv.RollPreserves | app.js:202-261 | a roll keeps the room invariant and the host |
| RoomInv.RollKeepsPoints | app.js:216-219 | in a valid room, a roll that scores carries the turn score and the previous roll's score forward in full |
| RoomInv.BankPreserves | app.js:287-302 | a bank keeps the room invariant and the host, for any entry threshold |
| RoomInv.RollTokenOnce | app.js:211-213 | a committed roll records its token, and a second roll with that token aborts |
| RoomInv.BankTokenOnce | app.js:289-290 | a committed bank records its token; running it again with that token aborts and leaves the room as it was, for any entry threshold |
| RoomInv.LobbyTokenOnce | app.js:451-467 | start and restart record their token, and a second run with that token aborts |

## Left out

- Firebase: `runTransaction`, its retries and the `cur === null` retry path are not modelled. A transaction is its callback applied once to the current record. Subscriptions, `get` and authentication are left out.
- Transactions are modelled on values. The callbacks change `cur` in place; the model returns the changed record instead, so aliasing between `g` and `cur.game` is not modelled.
- Password hashing (`hashPass`), `uuid` and room codes are opaque strings, because they call crypto and randomness.
- `Math.random` is not modelled. Each roll takes the faces it draws as the parameter `draws`, and `|draws|` equals the number of dice.
- The user interface is left out: JSX, floating texts, vibration, timers, chat, presence and the `rolling` flag. Only the predicates the screen derives from the state (`canRoll`, `canBank`, `isFarkle`, `isHotDice`) are modelled.
- The "Play Again" button of `App.tsx` is left out. It only returns to the setup screen.
- `justRolled`, `joinedAt` and `createdAt` are not modelled, because no rule reads them. `trim()` of form inputs is not modelled either.
- Room fields defaulted with `|| 0` or `|| {}` are modelled as always present, except the dice, whose three stored shapes are kept.
- Setup.UpdateName: requires a valid index. An out-of-range index in JavaScript would grow the array with holes; the setup screen only calls it for an existing row.
- SoloRoll.ScoreAndFlag: requires that no die is flagged scoring on entry. The redraw that precedes it in `handleRoll` guarantees this.
- The host checks of start and restart read the client's copy of the room (`roomData`). They are modelled on the transaction's record, because no transaction changes `hostUid`.
- The toggle's scoring check reads the client's copy too. It is modelled on the room record, and the transaction on the `held` flag is modelled as flipping that one field.
- With no seats (`len == 0`), `advanceTurn` computes `NaN` in JavaScript. The model's search finds nobody and changes nothing, and the room invariant rules this case out.
- Neither roll nor bank checks the room's status in `app.js`. The model keeps that as written.
- The entry rule exists only in the networked game. The room bank takes the threshold as a parameter, and `app.js` passes 600 (`RoomState.ENTRY_THRESHOLD`). The solo bank of `App.tsx` has no entry rule, so it takes no threshold; its entry behaviour is the room bank's at threshold 0, where every positive bank counts (`RoomPlay.NoEntryRuleAtZero`). Otherwise the two banks differ, and each is modelled as written:
  - On a win, the room bank still bumps the others holding 5000 and passes the turn with a fresh game; the solo bank bumps no one and keeps the dice with the winner (`SoloBank.BankWins`).
  - On an overshoot, the solo bank runs the bump against the banker's old score (`SoloBank.BankOvershoot`); the room bank changes nothing but the turn (`RoomPlay.BankNoScoreChange`).
- `createRoom`'s name and password form checks are left out. `RoomState.CreateRoom` models the record it writes.

## Findings
| source | as written | input that shows it | evidently intended | confidence | as-written member | corrected member |
|---|---|---|---|---|---|---|
| App.tsx:225 | `isFarkle` is `message.includes("Farkle")`. The turn message is `name + "'s Turn"`, so a name containing "Farkle" makes every turn start look like a bust: `canRoll` and `canBank` are false, and the only button is "Pass Dice". | a player named "Farkle Fan" | `isFarkle` holds only for the message a zero-score roll sets ("Farkle! 0 Points."), so every player can roll at the start of a turn | high; not executed | SoloState.FarkleNameBlocksTurn | SoloState.TurnStartCanRoll |
