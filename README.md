# board_game_rl tic-tac-toe core in Dafny

This project models the rule and engine layer of the `board_game_rl`
tic-tac-toe framework and proves properties of it. The framework has two
near-duplicate families.

* **Enum-valued family.** Cells hold the `Player` values +1 (`A`), -1 (`B`)
  and 0 (`none`).
  * `example_logic.dfy` (module `ExampleLogic`) holds the rule bundle:
    playing a move with or without mutation, the row-major valid moves, the
    winner by line sums, and the zero board template.
  * `board_classes.dfy` (module `BoardClasses`) holds the `GameBoard` class,
    the `BoardGameEnv` episode state machine and the reward rule.
  * `env_class.dfy` (module `EnvClass`) holds the second state machine,
    `GameEnv`.
* **Id-valued family.** Cells hold 0, 1 or 2.
  * `id_logic.dfy` (module `IdLogic`) holds the list-based rules.
  * `board.dfy` (module `Board`) holds the `BoardGame` class, with its turn
    index and its non-mutating `simulate_move`.
* **Greedy tabular policy.** `policy.dfy` (module `Policy`) holds `Table`
  and `TabularPolicy.greedy`.

Shared pieces:
* `grid.dfy` (module `Grid`): the 3x3 board and the row-major enumeration of
  empty cells.
* `players.dfy` (module `Players`): the `Player` enumeration.
* `wrappers.dfy` (module `Wrappers`): `Option`, `Result` and the Python
  exceptions.

Boards are `array2<int>` objects. In-place writes change the array. A
non-mutating play returns a `fresh` array. Returning "the same board" means
returning the same reference. `Grid.Cells(a)` is the value a board array
holds. The pure rules are functions of that value. `GameBoard`,
`BoardGameEnv`, `GameEnv`, `BoardGame`, `Table` and `TabularPolicy` are
classes. Their methods have `modifies` clauses and `ensures` clauses that give
the whole new state.

Three behaviours of the code that a caller might not expect:
* An illegal move is not reported as an error. `tictactoe_play_logic` returns
  `None`, and `make_move_logic` silently leaves the board unchanged. A `step`
  onto an occupied cell returns `(None, 0, False)` and keeps the episode going.
* `BoardGameEnv.reset` has no turn pointer to reset.
* `greedy` offers no "no move" result. It fails on an empty move list, so the
  model requires a non-empty one.

## Model

| member | source | states |
|---|---|---|
| Grid.EmptyCells | board_game_rl/example_logic/tictactoe_logic.py:65 | a cell is listed iff it is in range and holds 0; the list is strictly increasing in row-major order |
| Grid.NoEmptyCellsIffFull | board_game_rl/board_classes.py:101-102 | the valid-move list is empty exactly when no cell holds 0 |
| Grid.PlaceRemovesMove | board_game_rl/example_logic/tictactoe_logic.py:65 | filling an empty cell with a nonzero value removes exactly that cell from the empty cells, so there is one fewer |
| Grid.EmptyCellsOfZeros | board_game_rl/example_logic/tictactoe_logic.py:60-62 | on the all-zero board the empty cells are (0,0), (0,1), ..., (2,2) in that order |
| Grid.Copy | board_game_rl/board_classes.py:84 | the copy is a new array holding the same cells |
| ExampleLogic.PlayValue | board_game_rl/example_logic/tictactoe_logic.py:29-42 | a move succeeds iff the target cell holds `Player.none`; on success only that cell changes and it gets the player's value |
| ExampleLogic.PlayLogic | board_game_rl/example_logic/tictactoe_logic.py:5-42 | with `mutate` false: a fresh copy with the move played, or null for an occupied cell; the input board is unchanged either way. With `mutate` true: the cell is written in place and the same board is returned, or null and no cell changes |
| ExampleLogic.PlayKeepsSigned | board_game_rl/example_logic/tictactoe_logic.py:33 | a successful move leaves every cell one of +1, -1, 0 |
| ExampleLogic.ValidMoves | board_game_rl/example_logic/tictactoe_logic.py:44-65 | exactly the cells holding `Player.none`, in row-major order, whatever the player argument |
| ExampleLogic.ValidMovesOfEmptyBoard | board_game_rl/example_logic/tictactoe_logic.py:58-62 | on the zero board there are 9 valid moves, (0,0) through (2,2) |
| ExampleLogic.ValidMovesAfterPlay | board_game_rl/example_logic/tictactoe_logic.py:30-40 | a successful move by A or B removes exactly the played cell from the valid moves, one fewer |
| ExampleLogic.SumOfThree | board_game_rl/example_logic/tictactoe_logic.py:117-124 | three cells of +1/-1/0 sum to 3*value of a side exactly when all three hold that value |
| ExampleLogic.Win | board_game_rl/example_logic/tictactoe_logic.py:115-125 | the sum test of `tictactoe_win`: some row, column or diagonal sums to three times the player's value; `WinIffLine` gives the line form |
| ExampleLogic.Winner | board_game_rl/example_logic/tictactoe_logic.py:126-131 | A if A passes the sum test, else B if B does, else `Player.none`; `WinnerIffLine` gives the line form |
| ExampleLogic.WinIffLine | board_game_rl/example_logic/tictactoe_logic.py:115-125 | on a board of player values, the sum test for A or B holds iff some row, column or diagonal holds that side's value in all three cells |
| ExampleLogic.WinnerIffLine | board_game_rl/example_logic/tictactoe_logic.py:126-131 | the winner is A iff A has a line; B iff B has a line and A has none; `Player.none` iff neither has a line |
| ExampleLogic.WinnerOfEmptyBoard | board_game_rl/example_logic/tictactoe_logic.py:108-112 | the empty board has winner `Player.none` |
| ExampleLogic.CompletingRowWins | board_game_rl/example_logic/tictactoe_logic.py:115-131 | with A, A and an empty cell in row 0, A playing (0,2) succeeds and makes A the winner |
| ExampleLogic.NewBoardTemplate | board_game_rl/example_logic/tictactoe_logic.py:137 | the bundle's board template is a new 3x3 all-zero array |
| BoardClasses.Reward | board_game_rl/board_classes.py:175-182 | 0 while not done; 1 if the recorded winner is the player; 0.5 if it is `Player.none`; -1 otherwise |
| BoardClasses.RewardBetweenSides | board_game_rl/board_classes.py:175-182 | in a finished game a win pays A and B rewards that sum to 0; a draw pays each 0.5; an unfinished game pays 0 |
| BoardClasses.GameBoard.constructor | board_game_rl/board_classes.py:79-80 | the board keeps the bundle's template and has no live board yet |
| BoardClasses.GameBoard.Reset | board_game_rl/board_classes.py:83-85 | installs a fresh array equal to the template, distinct from it; the template is unchanged; returns `(board, False)` |
| BoardClasses.GameBoard.Winner | board_game_rl/board_classes.py:90-91 | the rule bundle's winner of the live board |
| BoardClasses.GameBoard.ValidMoves | board_game_rl/board_classes.py:93-94 | exactly the empty cells of the live board, in row-major order |
| BoardClasses.GameBoard.Draw | board_game_rl/board_classes.py:101-102 | a draw iff the board is full and there is no winner |
| BoardClasses.GameBoard.GameOver | board_game_rl/board_classes.py:104-105 | over iff there is a winner or the board is full |
| BoardClasses.GameBoard.Play | board_game_rl/board_classes.py:96-97 | the rule bundle's play on the live board, with the same success condition, result and in-place effect; the template is untouched |
| BoardClasses.GameBoard.Call | board_game_rl/board_classes.py:109-110 | plays in place: on success the live board is returned and holds the move; otherwise null and no change |
| BoardClasses.GameOverIffLineOrFull | board_game_rl/board_classes.py:104-105 | on a board of player values, game over iff a side has a complete line or no cell is empty |
| BoardClasses.FullBoardWithLineIsNoDraw | board_game_rl/board_classes.py:101-105 | a full board on which a side has a complete line is game over but not a draw |
| BoardClasses.BoardGameEnv.constructor | board_game_rl/board_classes.py:116-125 | a new game board over the template; `done` false and winner `Player.none` |
| BoardClasses.BoardGameEnv.Reset | board_game_rl/board_classes.py:127-137 | a fresh copy of the template becomes the board; `done` false; winner `Player.none`; the new board is returned |
| BoardClasses.BoardGameEnv.Step | board_game_rl/board_classes.py:139-163 | on a finished episode: `ValueError` and nothing changes. Otherwise the move is played in place; `done` holds exactly when the game is over afterwards, and only then is the winner recorded; the result is `(new_state, reward, done)`; `done` never clears |
| BoardClasses.BoardGameEnv.CalculateReward | board_game_rl/board_classes.py:165-182 | the reward rule applied to the current `done` and `winner` |
| EnvClass.GameEnv.constructor | board_game_rl/env_class.py:4-13 | a new game board over the template; `done` false and winner `Player.none` |
| EnvClass.GameEnv.Reset | board_game_rl/env_class.py:15-25 | a fresh copy of the template becomes the board; `done` false; winner `Player.none`; returns `(game_board, False)` |
| EnvClass.GameEnv.Step | board_game_rl/env_class.py:27-51 | on a finished episode: `ValueError` and nothing changes. Otherwise the move is played in place through `GameBoard.play`; `done` and the winner are set exactly when the game is over afterwards; returns `(new_state, reward, done)` |
| EnvClass.GameEnv.CalculateReward | board_game_rl/env_class.py:53-70 | the reward rule applied to the current `done` and `winner` |
| IdLogic.InitializeBoardState | board_game_rl/tictactoe_logic.py:1-2 | a new 3x3 all-zero board |
| IdLogic.GameOverFrom | board_game_rl/tictactoe_logic.py:6-14 | true iff one of the tried ids has a complete line, or the board is full |
| IdLogic.GameOver | board_game_rl/tictactoe_logic.py:4-14 | true iff 1 or 2 has a complete row, column or diagonal, or no cell holds 0 |
| IdLogic.MoveValue | board_game_rl/tictactoe_logic.py:16-19 | the id is written only into an empty cell; an occupied cell leaves the board as it was; no other cell changes |
| IdLogic.MakeMove | board_game_rl/tictactoe_logic.py:16-19 | writes in place as `MoveValue` says and returns the same board object |
| IdLogic.WinnerFrom | board_game_rl/tictactoe_logic.py:22-32 | the first tried id with a complete line; with none, 0 for a full board and `None` otherwise |
| IdLogic.GetWinner | board_game_rl/tictactoe_logic.py:21-32 | 1 iff 1 has a line; 2 iff 2 has one and 1 has none; 0 iff no line and the board is full; `None` iff no line and a cell is empty |
| IdLogic.ValidMoves | board_game_rl/tictactoe_logic.py:34-35 | exactly the zero cells, in row-major order, whatever the player argument |
| IdLogic.MoveRemovesValidMove | board_game_rl/tictactoe_logic.py:16-19 | a move by a nonzero id into an empty cell removes exactly that cell from the valid moves |
| IdLogic.GameOverIffWinnerKnown | board_game_rl/tictactoe_logic.py:4-32 | `game_over_logic` holds iff `get_winner_logic` is not `None` |
| Board.BoardGame.constructor | board_game_rl/board.py:4-30 | the board is a fresh initial board and the turn index is 0 |
| Board.BoardGame.IsGameOver | board_game_rl/board.py:32-34 | the rules' game-over test on the current board |
| Board.BoardGame.PlayTurn | board_game_rl/board.py:36-42 | the current player's id is applied by `make_move_logic` to the same board object; if the game is then over the index stays, otherwise it advances by one modulo the player count, staying in `[0, len(players))` |
| Board.BoardGame.GetWinner | board_game_rl/board.py:44-46 | the rules' winner of the current board |
| Board.BoardGame.GetValidMoves | board_game_rl/board.py:48-50 | the rules' valid moves, asked with the current player's id |
| Board.BoardGame.Reset | board_game_rl/board.py:52-55 | a fresh initial board and the turn index back to 0 |
| Board.BoardGame.SimulateMove | board_game_rl/board.py:57-61 | a new board holding the current player's move; the board and the turn index are unchanged |
| Policy.Len | board_game_rl/classes/policy.py:12-14 | `len` of a string or tuple key is its length; an integer key has none (`TypeError`) |
| Policy.ClassifyAsWritten | board_game_rl/classes/policy.py:12-17 | the classification as written: indexing the keys view raises `TypeError` for every dictionary, so it never reaches the length tests |
| Policy.Classify | board_game_rl/classes/policy.py:10-17 | the corrected classification, by the first key in insertion order (the code as written never gets this far, see Findings): V-table iff the first key has length 1; Q-table iff it has length 2; `ValueError` for any other length; an error when there is no first key or it has no length |
| Policy.ClassifyAsWrittenRejectsQTable | board_game_rl/classes/policy.py:12 | a dictionary that the corrected classification accepts as a Q-table is refused with `TypeError` as written |
| Policy.NewTable | board_game_rl/classes/policy.py:10-17 | `Table(...)` with the corrected classification (as written, construction always raises `TypeError`, see Findings): on success a new table holding the dictionary with the flag of its kind; otherwise the classification's error |
| Policy.Table.constructor | board_game_rl/classes/policy.py:10-15 | keeps the mapping and sets the `v` or `q` flag |
| Policy.Table.Call | board_game_rl/classes/policy.py:19-20 | looks up the state alone without an action and the pair `(state, action)` with one; `KeyError` iff that key is absent |
| Policy.Max | board_game_rl/classes/policy.py:93 | `max(values)` is an element of the list that no element exceeds |
| Policy.IndexOf | board_game_rl/classes/policy.py:93 | `values.index(x)` is the first position holding `x` |
| Policy.TabularPolicy.constructor | board_game_rl/classes/policy.py:73-76 | keeps the table and the `q_values` flag |
| Policy.TabularPolicy.Values | board_game_rl/classes/policy.py:89-92 | one tabulated value per move, in order, or `KeyError` iff some entry is missing |
| Policy.TabularPolicy.GreedyAmong | board_game_rl/classes/policy.py:88-93 | a move of the list whose value is at least every other move's value, and the first one holding the maximum; `KeyError` iff an entry is missing |
| Policy.TabularPolicy.Greedy | board_game_rl/classes/policy.py:78-93 | the greedy choice among the board's valid moves; it is an empty cell |
| Policy.GreedyWithoutQValues | board_game_rl/classes/policy.py:91-93 | without Q-values all moves score `table(board)`, so the first valid move is chosen, or `KeyError` when the board has no entry |

## Left out

- Rendering is console output only. This covers `tictactoe_render`, `GameBoard.render`, `BoardGame.render`, the environments' `render` and the `__repr__` methods.
- The random policies are left out, because they are only `random.choice`. This covers `random_policy`, `RandomPolicy` and `Player.default_policy`.
- The driver loops print and use randomized agents. This covers `simulate_game` and `play_simulated_random_game`.
- Minimax is left out. `minimax_policy` is imported but not defined in any of the repository's files.
- Agent and player wrappers and entry points are glue. This covers `Agent`, `Player.choose_move`/`set_policy`, `RandomPlayer`, `MinimaxPlayer`, `main.py` and `setup.py`.
- `BoardGame.clone_board_state` is a bare deep copy; `Grid.Copy` models that copy where `simulate_move` uses it.
- The rule bundle is fixed, not pluggable. `GameBoard`, both environments and `BoardGame` run the tic-tac-toe rules of their family rather than a dictionary or functions passed in.
- A move must lie in 0..2 on both axes. Python's negative indices and the `IndexError` of an index out of range are not modelled.
- `GameBoard` creates `board` only in `reset`. Calling its queries, `play` or an environment's `step` before the first `reset` raises `AttributeError` in the source. The model requires a prior reset (`Valid()`).
- `BoardGame` methods that read `players[current_player_index]` raise on an empty player list. The model requires at least one player for `PlayTurn`, `GetValidMoves` and `SimulateMove`.
- Cell values are floats in the source; they are modelled as integers, because only exact sums of three values in {-1, 0, 1} occur and NaN cannot arise. `calculate_reward` returns the integers 0, 1 and -1 or the float 0.5; the model gives every reward as a real.
- `Table` sets only the flag of its kind and leaves the other attribute undefined. The model gives the other flag the value false.
- The table key of a `GameBoard` object (hashed by identity) is a `PyKey` parameter of `greedy`. Table values are reals.
- The environments do not enforce turn alternation, and neither does the model. Any player may be passed to `step`.

## Findings

| source | as written | input that shows it | evidently intended | confidence | as-written member | corrected member |
|---|---|---|---|---|---|---|
| board_game_rl/classes/policy.py:12 | `self.mapping.keys()[0]` indexes a dictionary keys view, which Python 3 refuses with `TypeError`, so no `Table` can be built from any dictionary (`ClassifyAsWritten`'s contract) | `Table({(0, 1): 1.0})` | classify by the first key in insertion order (`next(iter(keys))`) | high; not executed | Policy.ClassifyAsWrittenRejectsQTable | Policy.Classify |
