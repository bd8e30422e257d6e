# Generalised tic-tac-toe engine in Dafny

This project models the core of an N x N tic-tac-toe engine written in Java. It has three parts.

- **Builder** (`builder.dfy`, module `GameBuilder`). Three fail-fast configuration checks run in a fixed order: at most one bot, exactly `size - 1` players, and no two players sharing a symbol character. The first failing check's error is what `Build` throws, and only a configuration that passes them all produces a `Game`.
- **Game state machine** (`game.dfy`, module `Games`). The `Game` class holds a `size x size` grid of cells, the move history used as a stack, the cyclic index of the player to move next, the game state and the winner. `MakeMove` takes the current player's proposed cell and either rejects it, changing nothing, or fills it. A filled cell pushes the move, passes the turn on and asks the winning strategies in order. The first strategy that answers yes makes the mover the winner. Otherwise a move count of `size * size` makes the game a DRAW. `Undo` pops the last move, empties its cell and turns the index back. The class invariant `Valid()` states that the moves sit on distinct board cells, each FILLED by its own move's player, that the number of FILLED cells equals the number of moves, and that the player index equals the number of moves modulo the number of players.
- **Win strategies** (`strategies.dfy`, module `Strategies`, and `runs.dfy`, module `StrategyRuns`). Each strategy keeps a map from line to symbol to count and updates it on every move. The column strategy is correct. From fresh counts, with distinct on-board cells, its answer for a move is true iff the mover's symbol now holds every cell of that column. The row strategy is modelled as written. It looks up a row's inner map with a default that is never stored, so from its initial empty map it never records a count. It answers true iff the board size is 1, whatever the moves, and its undo can never find its entry. `FixedRowWinningStrategy` is the corrected row strategy (see Findings).

Shared data lives in `models.dfy` (module `Models`): symbols, players, cells, moves, the game state and the grid. The `Option`, `Outcome` and `Result` types are in `wrappers.dfy`.

The model follows the code as written, including:
- `MakeMove` has no game-over check, so moves are still accepted after a WIN or a DRAW.
- `Undo` never resets the game state or the winner.
- `Undo` never calls the strategies' `handleUndo`, so the counts keep the undone move. A move replayed after an undo is counted twice.

## Model

| member | source | states |
|---|---|---|
| `GameBuilder.ValidatePlayersCount` | src/models/Game.java:68-72 | passes iff the number of players is `size - 1`, and otherwise throws the player-count error |
| `GameBuilder.ValidateBotCount` | src/models/Game.java:86-97 | the counting loop passes iff at most one player is a bot, and otherwise throws the bot-count error |
| `GameBuilder.TooManyBotsIff` | src/models/Game.java:86-97 | the bot count exceeds one iff two different players are both of type BOT |
| `GameBuilder.ValidateUniqueSymbolForPlayer` | src/models/Game.java:74-84 | the loop over a character-count map throws the duplicate-symbol error iff two different players share a symbol character, and passes otherwise |
| `GameBuilder.Validate` | src/models/Game.java:101-105 | runs the bot-count, player-count and unique-symbol checks in that order; the first failing check's error is returned, and it passes iff all three hold |
| `GameBuilder.Build` | src/models/Game.java:107-110 | fails with exactly the error `Validate` gives, and produces no game then; on success it returns a new valid game with IN_PROGRESS, no winner, no moves, index 0 and an all-EMPTY `size x size` board |
| `Games.Game.constructor` | src/models/Game.java:22-30 | a new game is valid, IN_PROGRESS, with no winner, no moves, player index 0 and an all-EMPTY board of the given dimension |
| `Games.ValidateMove` | src/models/Game.java:217-234 | a proposed cell is accepted iff its row and column are on the board and the cell is EMPTY |
| `Games.Game.MakeMove` | src/models/Game.java:173-205 | a rejected cell changes nothing (board, moves, index, state, winner, strategy counts). An accepted one fills only that cell with the current player, appends that move, sets the index to `(i + 1) % players`, and sets the strategies to the result of asking them in order. If some strategy answers yes, the state is WIN and the mover is the winner. Otherwise the state becomes DRAW iff the move count is `size * size`, and the state and winner are kept if not. The invariant `Valid()` is kept |
| `Games.Game.CheckWinner` | src/models/Game.java:207-215 | the strategies' new states and the answer are exactly those of asking them in list order and stopping at the first yes |
| `Games.Game.Undo` | src/models/Game.java:240-255 | with no moves it changes nothing. Otherwise it removes the last move, empties only that move's cell and sets the index to `(i - 1 + n) % n`. It never changes the state, the winner or any strategy's counts, and it keeps `Valid()` |
| `Games.RecordedPush` | src/models/Game.java:189-194 | filling an EMPTY cell and pushing its move keeps the moves on distinct cells and keeps the FILLED count equal to the number of moves |
| `Games.RecordedPop` | src/models/Game.java:246-251 | popping the last move and emptying its cell keeps the same record |
| `Games.TurnBackAfterTurn` | src/models/Game.java:253-254 | turning the index back after turning it forward gives the original index |
| `Games.Game.Record` | src/models/Game.java:186-197 | the accepted cell becomes FILLED by the mover, the move is appended, the index becomes `(i + 1) % players`; state, winner and strategy counts are untouched and `Valid()` is kept |
| `Games.Game.Decide` | src/models/Game.java:199-204 | a yes from the strategies sets WIN and the mover as winner; otherwise DRAW iff the move count is `size * size`, and state and winner are kept if not; board, moves, index and strategy counts are untouched |
| `Games.MakeMoveThenUndo` | src/models/Game.java:186-255 | an accepted move followed by an undo restores the board, the move list and the player index |
| `Games.NoMovesEmptyBoard` | src/models/Game.java:240-255 | a valid game with no moves has an all-EMPTY board and player 0 to move, so undoing every move gives back the initial board and player index |
| `Games.IndexStep` | src/models/Game.java:196-197 | turning the index forward after a push keeps it equal to the number of moves modulo the number of players |
| `Games.IndexBack` | src/models/Game.java:253-254 | turning the index back after a pop keeps it equal to the number of moves modulo the number of players |
| `Models.EmptyGrid` | src/models/Game.java:27 | the new board is `n x n` and every cell is EMPTY |
| `Models.SetCell` | src/models/Game.java:189-191 | the given cell gets the new value, and every other cell and the grid's shape are unchanged |
| `Models.FilledCountUpdate` | src/models/Game.java:250 | replacing one cell changes the number of FILLED cells by the difference between the old and new cell |
| `Models.ClearAfterFill` | src/models/Game.java:249-251 | emptying a cell that was just filled from EMPTY gives back the grid |
| `Models.EmptyGridNoneFilled` | src/models/Game.java:27 | the new board has no FILLED cell |
| `Strategies.Incremented` | src/strategies/ColWinningStrategy.java:18-23 | raises the (line, symbol) counter by exactly one, reading an absent entry as 0. All other counters are unchanged. The line's inner map is created the first time the line is seen, and no key is ever removed |
| `Strategies.Decremented` | src/strategies/ColWinningStrategy.java:33-34 | lowers the existing (line, symbol) counter by exactly one and leaves every other counter and every key unchanged |
| `Strategies.IncrementThenDecrement` | src/strategies/ColWinningStrategy.java:18-34 | a count followed by its undo gives every counter back its old value (absent read as 0) |
| `Strategies.ColWinningStrategy.constructor` | src/strategies/ColWinningStrategy.java:11 | counts start empty |
| `Strategies.ColWinningStrategy.CheckWinner` | src/strategies/ColWinningStrategy.java:14-26 | counts the move in its column and answers true iff the updated count equals the board size |
| `Strategies.ColWinningStrategy.HandleUndo` | src/strategies/ColWinningStrategy.java:29-35 | requires the column and symbol entry, and lowers only that counter by one |
| `Strategies.RowWinningStrategy.constructor` | src/strategies/RowWinningStrategy.java:11 | counts start empty |
| `Strategies.RowWinningStrategy.CheckWinner` | src/strategies/RowWinningStrategy.java:13-23 | never adds a row to `counts`, and changes `counts` only for a row already present. It answers true iff the stored count plus one equals the board size |
| `Strategies.RowWinningStrategy.HandleUndo` | src/strategies/RowWinningStrategy.java:26-32 | requires the row and symbol entry, and lowers only that counter by one |
| `Strategies.FixedRowWinningStrategy.constructor` | src/strategies/RowWinningStrategy.java:11 | counts start empty |
| `Strategies.FixedRowWinningStrategy.CheckWinner` | src/strategies/RowWinningStrategy.java:13-23 | corrected row strategy: counts the move in its row and answers true iff the updated count equals the board size |
| `Strategies.FixedRowWinningStrategy.HandleUndo` | src/strategies/RowWinningStrategy.java:26-32 | corrected row strategy: lowers only the move's row and symbol counter by one |
| `Strategies.StrategyRef.CheckWinner` | src/models/Game.java:209 | calling one strategy of the list changes its state and answers exactly as one step of its kind |
| `Strategies.AskOne` | src/models/Game.java:209 | asking strategy i changes only strategy i's state in the list |
| `Strategies.ConsultStep` | src/models/Game.java:208-212 | if every strategy before position i said no, strategy i is asked next, and the consultation ends there iff it says yes |
| `Strategies.ConsultWinsIff` | src/models/Game.java:207-215 | the move wins iff some strategy in the list answers yes |
| `Strategies.ConsultStates` | src/models/Game.java:207-215 | a strategy is asked, and takes one step of its kind, iff no earlier strategy answered yes; strategies after the first yes are not consulted and keep their state |
| `StrategyRuns.RunCounts` | src/strategies/ColWinningStrategy.java:23 | after any sequence of calls, a column counter equals its start value plus the number of calls made on that column with that symbol |
| `StrategyRuns.LineAnswer` | src/strategies/ColWinningStrategy.java:22-25 | from fresh counts, the k-th answer is true iff the first k+1 moves include `size` moves with the k-th mover's symbol on its column |
| `StrategyRuns.LastAnswer` | src/strategies/ColWinningStrategy.java:18-25 | a column (or fixed row) strategy's last answer is true iff its start count plus the moves made on the last move's line by the mover's symbol equals `size` |
| `StrategyRuns.OccurrencesAtMostSize` | src/strategies/ColWinningStrategy.java:23 | with distinct on-board cells, no line holds more than `size` moves of one symbol |
| `StrategyRuns.CountAtMostSize` | src/strategies/ColWinningStrategy.java:18-23 | from fresh counts, with one call per distinct on-board cell, no column (or fixed row) counter exceeds the board size |
| `StrategyRuns.LineFullIff` | src/strategies/ColWinningStrategy.java:25 | with distinct on-board cells, a line holds `size` moves of one symbol iff that symbol's positions on the line are exactly 0 .. size-1 |
| `StrategyRuns.LineWinIffFull` | src/strategies/ColWinningStrategy.java:14-26 | from fresh counts and with distinct on-board cells, the answer for a move is true iff the mover's symbol then occupies every cell of the move's column (row, for the fixed row strategy) |
| `StrategyRuns.RowRunFromEmpty` | src/strategies/RowWinningStrategy.java:19-22 | the row strategy as written, started empty, stays empty forever, and every answer is true iff the board size is 1 |
| `StrategyRuns.RowUndoNeverEnabled` | src/strategies/RowWinningStrategy.java:30-31 | from the initial empty counts, the row strategy's undo never finds the row entry it requires |
| `StrategyRuns.CompletedRowExample` | src/strategies/RowWinningStrategy.java:17-22 | on a 3 x 3 board, X filling row 0 is never reported by the row strategy as written, and is reported on the third move by the fixed one |

## Left out

- Reading the proposed row and column from standard input (`Player.makeMove`) and a bot's move choice (`Bot.makeMove` and its playing strategy). The proposed cell is a parameter of `Games.Game.MakeMove`, and the mover is always the player at the current index.
- All printing: the turn prompt, the invalid-move and empty-undo messages, and `printBoard`.
- `GameController` and `Main`: delegation and a driver that does not compile.
- Getters, setters and the builder's setters (`setPlayers`, `addPlayer`, `setSize`, `setWinningStrategies`, `addWinningStrategy`). `GameBuilder.Build` takes the players, the size and the strategy list directly.
- The Java classes `Board`, `Cell`, `Move`, `Symbol`, `PlayerType`, `GameState` and the `WinningStrategy` interface are replaced by plain datatypes, a grid of cells, and a datatype of references to the strategy classes. Symbols are compared by character.
- Games.Game.MakeMove: requires that a negative row or column does not reach the board lookup. In Java that case throws an index exception, and it is not modelled as an outcome.
- Games.Game.MakeMove: requires at least one player. With none (a valid game of size 1), Java throws when it fetches player 0.
- Games.Game.MakeMove: requires the strategy list to hold distinct objects. A list naming the same strategy object twice is not modelled.
- Java `int` overflow (of `size * size`, the index or the counts) is not modelled; integers are unbounded.
- Object identity: moves refer to board cells by coordinates, not by shared `Cell` objects. The game's player and strategy lists are not aliased with the caller's lists.

## Findings

| source | as written | input that shows it | evidently intended | confidence | as-written member | corrected member |
|---|---|---|---|---|---|---|
| src/strategies/RowWinningStrategy.java:19-22 | the count for a new row is made on a default map that is never stored in `counts`, so no row count ever persists | 3 x 3 board, X plays (0,0), (0,1), (0,2): the third call answers false although X holds row 0 | keep one persistent counter per row, as the column strategy does, and answer true when it reaches the board size | high (the code itself marks the logic as flawed); not executed | `Strategies.RowWinningStrategy.CheckWinner`, `StrategyRuns.CompletedRowExample` | `Strategies.FixedRowWinningStrategy.CheckWinner`, `StrategyRuns.LineWinIffFull` |
