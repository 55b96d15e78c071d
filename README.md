# Dice duel: the store, the roll rules, acceptance and the scoreboard

This project models the core of a Telegram dice-duel bot. A challenger names an opponent
by username, and the bot stores the game in a key-value store under
`["games", chatId, gameId]`. The opponent accepts the game. After that the two players take
turns rolling a die. Each round is won by the higher roll, and the first side to win
`winningRounds` rounds finishes the game. The scoreboard gives one point per finished game to
its winner and ranks the players by points.

The model has these parts:

- `Models`: the records: players, games, states, roll outcomes and the request context.
  The in-memory game object is the class `Models.Game`, whose fields the handlers update in
  place. The stored game is the datatype `GameRecord`.
- `Scoring`: `determineScore`. `ScoreOf` is the specification and `DetermineScore` is the
  counting loop, proved against it.
- `Listing`: the ascending key order in which the store enumerates a chat's games, the state
  filter of `listGamesInChat`, and the first-match search used by `createGame`.
- `Rolls`: the roll rules of `updateGameRoll`, stated on game values as `ApplyRoll`. Around it
  are lemmas on turn order, the outcome order and the score effect of each outcome.
- `Kv`: the store as the class `Kv.Store`.
  - `games` is a map from keys to records, and `players` is a map from ids to players.
  - A ghost counter `writes` counts the store writes (`kv.set`), so contracts can say when an operation writes nothing.
  - The store operations are methods and functions on this class.
  - `UpdateGameRoll` changes the game object in place and writes it back. It is proved
    against `ApplyRoll`.
- `AcceptGame`: `acceptGameHandler`. It has a guard sequence, then stores the player and the game.
- `ScoreBoard`:
  - the tally loop, whose entries keep the insertion order of the source's `Map`;
  - the ranking by points;
  - the rank prefixes: three medals, then `(n)`.
- `ScoreScenarios`, `RollScenarios`, `StoreScenarios`: the concrete cases of the repository's
  tests, stated against the model. `StoreScenarios.DbScenario` calls the store methods in
  the order of the DB test.

## Model

| member | source | states |
|---|---|---|
| Models.SenderId | src/storage/kv.ts:34-37 | the sender id is present exactly when `ctx.from` and its id exist and the id is not 0 (a falsy id is refused) |
| Models.SenderUsername | src/storage/kv.ts:38 | the sender's username, or `""` when the sender or its username is missing |
| Models.Game.FromRecord | src/models/game.ts:22-32 | a fresh game object whose recorded value is exactly the stored record |
| Scoring.ScoreOfRounds | src/storage/kv.ts:224-236 | the two scores over the first `n` rounds add up to at most `n` (a tied round scores for nobody) |
| Scoring.ScoreOf | src/storage/kv.ts:217-242 | only the rounds both sides rolled are compared: the scores add up to at most the shorter length, and are 0-0 when either side has no roll |
| Scoring.DetermineScore | src/storage/kv.ts:217-242 | the counting loop returns exactly `ScoreOf` of the two roll sequences |
| Scoring.ScoreOfRoundsPrefix | src/storage/kv.ts:224-236 | the score of the first `n` rounds depends only on those rounds |
| Scoring.ScoreIgnoresTrailing | src/storage/kv.ts:226 | an unanswered trailing roll never changes the score |
| Scoring.ScoreOfIdentical | src/storage/kv.ts:231-235 | identical roll sequences score 0-0 |
| Scoring.ScoreSymmetric | src/storage/kv.ts:231-235 | swapping the two sides swaps the two scores |
| Scoring.ScoreAfterOpeningRoll | src/storage/kv.ts:192-193 | a roll that opens a round leaves the score unchanged |
| Scoring.ScoreAfterAnsweringRoll | src/storage/kv.ts:195-198 | a roll that answers an open round adds exactly that round's point |
| Scoring.ScoreOfRoundsCounts | src/storage/kv.ts:229-235 | each score is the number of compared rounds that side won with a strictly higher roll |
| Scoring.ScoreCountsRounds | src/storage/kv.ts:224-236 | the same count for a whole game, over the rounds both sides rolled |
| Listing.Least | src/storage/kv.ts:251 | the least id of a non-empty set of ids is in it and is below every other |
| Listing.SortedIds | src/storage/kv.ts:251 | a chat's ids are enumerated in strictly increasing order, each stored id exactly once |
| Listing.IncreasingUnique | src/storage/kv.ts:251 | two strictly increasing sequences with the same elements are equal, so the enumeration order is unique |
| Listing.SortedIdsAddGreatest | src/storage/kv.ts:251 | adding an id above every stored id puts it last in the enumeration |
| Listing.FilterByState | src/storage/kv.ts:252-256 | the push loop keeps exactly the records whose state is one of `states`, in order, with increasing ids kept increasing |
| Listing.FilterByStateAppend | src/storage/kv.ts:252-256 | filtering a sequence with one more record at its end appends that record when its state matches |
| Listing.Find | src/storage/kv.ts:76-81 | `find` returns nothing iff no element matches, and otherwise returns the first element that matches |
| Rolls.ApplyRoll | src/storage/kv.ts:151-215 | a stranger's roll is the only error; `Invalid` means out of turn and leaves the game as it was; the state never moves backwards and changes only on `Closed`; a `Closed` roll always leaves the game Finished |
| Rolls.RollIgnoresState | src/storage/kv.ts:151-215 | the rules never read the game's state: in any state the same roll has the same outcome and the same rolls, and only `Closed` sets the state (to Finished) |
| Rolls.ValidRollAppendsOne | src/storage/kv.ts:186-190 | a valid roll appends exactly that roll to the roller's own sequence and changes no id, player or round count |
| Rolls.RollKeepsTurnsBalanced | src/storage/kv.ts:165-177 | turns alternate: no side is ever more than one roll ahead |
| Rolls.RollOutcomeOrder | src/storage/kv.ts:192-211 | `Open` iff equal lengths; otherwise, in order: a tie on an equal last roll, then `Closed` once a side reaches `winningRounds`, then `Win` on a higher roll and `Loose` on a lower one |
| Rolls.ClosedMeansMatchWon | src/storage/kv.ts:201-206 | after a `Closed` roll one side has exactly `winningRounds` round wins |
| Rolls.RollScoreEffect | src/storage/kv.ts:192-211 | `Open` and `Tie` keep the score; `Win` gives the roller's side one round and `Loose` gives one to the other side |
| Kv.ChatRecords | src/storage/kv.ts:251-252 | the records under a chat's key prefix: every one of them, only those, in increasing id order |
| Kv.ListGamesInChat | src/storage/kv.ts:244-259 | exactly the chat's records whose state is in `states`, in key order; an unknown chat lists nothing |
| Kv.ChatRecordsAfterInsert | src/storage/kv.ts:103-116 | a game stored under a fresh id above the chat's ids is listed last |
| Kv.ChatRecordsOtherChat | src/storage/kv.ts:251 | a write under another chat's key does not change a chat's listing |
| Kv.ListAfterCreate | src/storage/kv.ts:103-116 | after a new game is stored, its chat's listing gains it at the end iff its state matches, and other chats' listings are unchanged |
| Kv.Store.constructor | src/storage/kv.ts:12-17 | an empty store that keeps the store invariant |
| Kv.Store.GetPlayerFromId | src/storage/kv.ts:19-28 | a player is found iff one is stored under that id, and then it carries that id |
| Kv.Store.GetPlayerFromContext | src/storage/kv.ts:30-63 | no sender id is an error that writes nothing; otherwise the result is the sender with its current username and the store holds it; a new or renamed player costs exactly one store write, an up-to-date one none |
| Kv.Store.CreateGame | src/storage/kv.ts:65-122 | an Accepted game of the challenger, then one of the opponent's username, blocks creation and is returned, and nothing is written; otherwise an Initiated game with no rolls is stored under a fresh key with one write |
| Kv.Store.GetGame | src/storage/kv.ts:124-136 | a missing chat id is an error; otherwise the record stored under `[chat, gameId]` is returned iff one exists |
| Kv.Store.UpdateGame | src/storage/kv.ts:138-149 | a missing chat id is an error and writes nothing; otherwise one write overwrites the whole record at the game's key and nothing else changes |
| Kv.Store.UpdateGameRoll | src/storage/kv.ts:151-215 | the game object becomes `ApplyRoll`'s game and the status is its status; errors and `Invalid` change neither the game nor the store and write nothing; every other roll is written back under the game's key in one write |
| AcceptGame.Guard | src/handlers/acceptGame.ts:8-28 | the answer is `GameOn` iff the game exists, is Initiated and the sender's username is the opponent's; it is missing, already accepted or already finished in exactly the matching cases |
| AcceptGame.AcceptIsForwardOnly | src/handlers/acceptGame.ts:29-31 | acceptance moves Initiated to Accepted and changes only the opponent and the state |
| AcceptGame.AcceptGameHandler | src/handlers/acceptGame.ts:5-39 | a refusal writes nothing; on acceptance the sender is stored as a player and the game is stored with that player as opponent and state Accepted, in two writes, or one when the player record was up to date |
| ScoreBoard.ListedIffPoints | src/handlers/scoreBoard.ts:19-29 | in a tally of positive entries a player is listed iff it has points |
| ScoreBoard.CreditPoints | src/handlers/scoreBoard.ts:19-29 | crediting a player adds one point to that player and to nobody else, and one to the total |
| ScoreBoard.CreditShape | src/handlers/scoreBoard.ts:19-29 | crediting lists the player, keeps every player listed once and every entry positive |
| ScoreBoard.TallyPoints | src/handlers/scoreBoard.ts:14-30 | each player's tally is the number of finished games it won (challenger on a strictly higher score, otherwise opponent) |
| ScoreBoard.TallyShape | src/handlers/scoreBoard.ts:14-30 | the tally's points add up to the number of finished games; players are distinct and every entry is positive |
| ScoreBoard.TallyListsWinners | src/handlers/scoreBoard.ts:14-30 | a player is listed iff it won at least one finished game |
| ScoreBoard.Tally | src/handlers/scoreBoard.ts:14-30 | the tally loop computes exactly `TallyOf` of the finished games |
| ScoreBoard.InsertByPoints | src/handlers/scoreBoard.ts:31-34 | inserting an entry into the ranking adds exactly that entry |
| ScoreBoard.InsertKeepsOrder | src/handlers/scoreBoard.ts:31-34 | inserting keeps the ranking ordered by non-increasing points |
| ScoreBoard.InsertKeepsTotal | src/handlers/scoreBoard.ts:31-34 | inserting adds the entry's points and its player |
| ScoreBoard.InsertKeepsDistinct | src/handlers/scoreBoard.ts:31-34 | inserting a player not yet listed keeps players distinct |
| ScoreBoard.RankByPoints | src/handlers/scoreBoard.ts:31-34 | the sorted entries are a permutation of the tally |
| ScoreBoard.RankKeepsOrder | src/handlers/scoreBoard.ts:31-34 | the sort orders entries by non-increasing points and keeps the total and the players |
| ScoreBoard.RankKeepsDistinct | src/handlers/scoreBoard.ts:31-34 | the sort keeps a duplicate-free, positive tally duplicate-free and positive |
| ScoreBoard.Decimal | src/handlers/scoreBoard.ts:52 | the rendering of a number is non-empty and made of digits only |
| ScoreBoard.DecimalRoundTrip | src/handlers/scoreBoard.ts:52 | reading the rendered digits back gives the number |
| ScoreBoard.RankPrefixInjective | src/handlers/scoreBoard.ts:51-60 | no two board lines share a prefix; from the fourth line on the prefix is `(` and the line's 1-based position |
| ScoreBoard.BoardShape | src/handlers/scoreBoard.ts:31-61 | board points are at least 1, non-increasing down the board and add up to the number of finished games; each player has one line |
| ScoreBoard.EntryHoldsPoints | src/handlers/scoreBoard.ts:19-29 | in a tally that lists each player once, an entry's points are all the points of its player |
| ScoreBoard.BoardPoints | src/handlers/scoreBoard.ts:14-61 | each board line shows exactly the number of finished games its player won |
| ScoreBoard.ScoreBoardHandler | src/handlers/scoreBoard.ts:8-63 | a missing chat id is an error; otherwise the board of exactly the chat's finished games |
| ScoreScenarios.TiedScoreCase | tests/kv.test.ts:58-67 | identical rolls `[3, 4, 5, 6]` score 0-0 |
| RollScenarios.OpeningRollCase | tests/kv.test.ts:101-106 | the first roll of a game opens a round |
| RollScenarios.ThirdRoundOpensCase | tests/kv.test.ts:138-160 | a roll after two complete rounds opens the third and keeps the game Accepted |
| RollScenarios.RefusedRollCases | tests/kv.test.ts:190-198 | on the game the previous step finished, a second roll before the answer is `Invalid` and changes nothing; a stranger's roll is an error |
| RollScenarios.TiedRollCase | tests/kv.test.ts:128-136 | equal rolls tie the round |
| StoreScenarios.ListingOfTwo | tests/kv.test.ts:243-246 | two games stored in id order are listed in that order, each when its state matches |
| StoreScenarios.ListingOfThree | tests/kv.test.ts:243-246 | the same for three games; another chat lists nothing |
| StoreScenarios.ActiveListingCase | tests/kv.test.ts:248-256 | the default filter lists the Initiated and the Accepted game in order; an unknown chat lists nothing |
| StoreScenarios.FinishedListingCase | tests/kv.test.ts:270-274 | the Finished filter lists only the finished game |
| StoreScenarios.MixedListingCase | tests/kv.test.ts:276-284 | a two-state filter keeps the stored order |
| StoreScenarios.DbScenario | tests/db.test.ts:19-98 | the DB test's steps in order: a player is created, read back and renamed, a game is created and read back, listed as Initiated, set to Accepted and written back; the last read returns it Accepted with the test's players and one winning round |

## Left out

- Deno KV itself is left out: persistence, `async`/`await` and the atomicity of writes. The store is two maps and an id counter held in memory, and each write replaces one entry.
- Concurrency is left out. Two handlers that interleave their reads and writes are not modelled.
- `ulid()` is replaced by the store field `nextId`, which works as a fresh-id oracle: ids are natural numbers, and their order is the ulid's time order. `CreateGame` uses it and bumps it. `UpdateGame` also raises it above any id it writes, so that every stored id stays below it.
- Player and chat ids are `int` in the model. In the source they are the decimal strings produced by `toString`. That rendering is injective, so equality of ids is kept. Game ids are ulids in the source, modelled as described in the previous line.
- Kv.Store.CreateGame: the source calls `listGamesInChat` without passing its `kv` argument, so it always reads the default store. The model reads the store it writes to. The listing filters on Accepted only, exactly as written: an Initiated game blocks nothing.
- AcceptGame.AcceptGameHandler: the source calls `getPlayer`, which `src/storage/kv.ts` does not export. It is modelled as `getPlayerFromContext`, the only operation that resolves a sender to a player.
- Kv.Store.UpdateGameRoll does not check the game's state, and neither does the source. Only Accepted games are given to it, and that selection happens in `src/handlers/rollDice.ts`, which is not part of this model. So the model does not promise that a finished game rejects rolls; `Rolls.RollIgnoresState` proves that it does not.
- The text of replies and error messages is left out: callback answers, roll messages, the `@username` lines and the scoreboard message. Outcomes are datatype values, and errors the source throws are `Failure` values.
- Telegram I/O is left out: `ctx.reply`, `ctx.answerCallbackQuery` and the bot wiring in `src/bot.ts` and `src/main.ts`.
- ScoreBoard.ScoreBoardHandler: the lookup of display names (`getPlayerFromId` for each listed player, then `username || first_name`) is left out. A board line carries the player id instead of the name.
- The `coin` and `amount` fields of a game and the `first_name` of a player are left out. The modelled operations never read them; the one reader, the name lookup of the scoreboard, is left out above.
- ScoreBoard.RankByPoints is proved to be a permutation ordered by non-increasing points. It is written as a stable insertion sort, but stability, meaning that equal points keep tally order as in `Array.prototype.sort`, is not proved.
- The handlers `newGame`, `revengeGame`, `listGames`, `rollDice` and `admin` are not part of this model. Nor are `scripts/reset_kv.ts` and `tests/utils.test.ts`.
- Concrete score cases with mixed round winners, and the closing and win/lose roll cases of `tests/kv.test.ts`, are not restated as lemmas. The general lemmas `Scoring.ScoreOfRoundsCounts`, `Rolls.RollOutcomeOrder` and `Rolls.RollScoreEffect` cover them.
