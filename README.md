# Tic-tac-toe game state, verified

This project models the game logic of the `TicTacToe` class of a two-threaded
tic-tac-toe program. The state is a 3x3 `char` board plus three fields:

- `current_player` is `'X'` or `'O'`;
- `game_over` is a flag;
- `winner` is `' '`, `'X'`, `'O'` or `'D'` for a draw.

`make_move(player, row, col)` is the only operation that changes the state.
It waits under a mutex until the caller may move. It then refuses a move to an
occupied square or into a finished game. Otherwise it writes the symbol and
tests for a win, then for a draw. A win or a draw ends the game; any other
move passes the turn.

Two files, two modules:

- `rules.dfy`, module `GameRules`. The board as a value (`Grid`), the eight
  winning lines as a table, and the win and draw tests. `Move` is the state
  change of one call of `make_move` once the caller has passed the wait.
  `Inv` is the invariant of every reachable game. `Run` plays a sequence of
  proposed calls. The lemmas relate all of these.
- `tictactoe.dfy`, module `GameState`. The class `TicTacToe` with the board
  as an `array2<char>` updated in place. `MakeMove`, `CheckWin` and
  `CheckDraw` are methods with the loops of the original. They are proved
  against `Move`, `Wins` and `Full`. The object invariant `Valid()` is
  `GameRules.Inv` of the object's state.

The mutex and the condition variable are not modelled. The turn wait becomes
the precondition of `MakeMove`. The model uses a corrected wait predicate,
because the one in the source never releases a waiting player once the game
has ended (see "## Findings"). In `Run`, a proposed call whose wait predicate
is false at its point is a call that has not yet passed the wait. It changes
nothing there.

## Model

| member | source | states |
|---|---|---|
| `GameState.TicTacToe.constructor` | src/main.cpp:22-29 | all nine cells are `' '`, `'X'` moves first, the game is not over, there is no winner; the invariant holds |
| `GameState.TicTacToe.MakeMove` | src/main.cpp:47-75 | the new state and the result are those `Move` gives for the old state; only the target square can change, and only to `player`; the invariant is kept |
| `GameState.TicTacToe.CheckWin` | src/main.cpp:77-102 | the scan of rows, columns and the two diagonals returns true exactly when `player` holds one of the eight lines; it changes nothing |
| `GameState.TicTacToe.CheckDraw` | src/main.cpp:104-111 | returns true exactly when no square is `' '` |
| `GameState.TicTacToe.IsGameOver` | src/main.cpp:113-116 | in a valid object the game is over exactly when a player holds a line or the board is full |
| `GameState.TicTacToe.GetWinner` | src/main.cpp:118-121 | `' '` exactly while the game runs; `'D'` only for a full board with no line; otherwise a symbol that holds a line its opponent does not hold |
| `GameRules.WinsByScan` | src/main.cpp:79-101 | the table of eight lines holds exactly the three rows, the three columns, the main diagonal and the anti-diagonal |
| `GameRules.Place` | src/main.cpp:60 | the target square holds the symbol afterwards and every other square is unchanged |
| `GameRules.Move` | src/main.cpp:56-71 | refused exactly on an occupied square or a finished game, and then nothing changes; on success the grid is the old grid with the square written; the game is over exactly when the mover holds a line or the board is full; a line makes the mover the winner even on a full board; a full board without one is a draw; the turn passes only when the game goes on, and `winner` keeps its value then |
| `GameRules.PlaceKeepsOtherLines` | src/main.cpp:60-65 | writing one symbol never gives the other symbol a line |
| `GameRules.PlaceCount` | src/main.cpp:60 | writing a symbol into an empty square adds one of that symbol and leaves the other symbol's count unchanged |
| `GameRules.StartInv` | src/main.cpp:22-29 | the state the constructor builds satisfies the game invariant |
| `GameRules.MovePreservesInv` | src/main.cpp:56-71 | every call that passes the wait keeps the invariant: `game_over` is set exactly when `winner` is; a running game has no line and a free square; a winner holds a line, the opponent none, and moved last; a draw is a full board without lines; the counts of 'X' and 'O' follow the turn |
| `GameRules.RunPreservesInv` | src/main.cpp:47-75 | any sequence of calls keeps the invariant |
| `GameRules.FinishedGameIsFinal` | src/main.cpp:56-58 | once the game is over, no sequence of calls changes anything, so `game_over` stays true and `winner` keeps its value |
| `GameRules.ReachableOutcome` | src/main.cpp:63-70 | in every game played from the start the result is truthful: a winner holds a line and the opponent does not, a full board is always over, a draw is exactly a finished game with no line, and during play 'X' is to move exactly when both symbols occur equally often |
| `GameRules.AsWrittenWaitNeverReleasesAfterEnd` | src/main.cpp:52-54 | with the wait predicate as written, a finished game releases no caller, whatever calls follow |
| `GameRules.AsWrittenLoserBlocks` | src/main.cpp:52-54 | after 'X' completes the top row, a call by 'O' that is waiting is not released by the wait as written |
| `GameRules.CorrectedWaitReleasesAfterEnd` | src/main.cpp:52-58 | with the corrected wait, every caller is released once the game is over and its call returns false with no effect; during play exactly one player is released, as with the wait as written |

## Findings

| source | as written | input that shows it | evidently intended | confidence | as-written member | corrected member |
|---|---|---|---|---|---|---|
| src/main.cpp:52-54 | `make_move` waits until `player == current_player && !game_over`. After the last move no call is ever released, so the `game_over` test at line 56 cannot be reached. A player thread waiting in `make_move` when the game ends waits forever, and `main` never returns from `join`. | 'X' plays (0,0), (0,1), (0,2) and 'O' plays (1,0), (1,1). 'O' calls `make_move` again while 'X' is to move. 'X' wins, `notify_all` wakes 'O', and the predicate is false for 'O' from then on. | wait until `player == current_player` or `game_over` holds; a call released after the end is then refused at line 56 | high; not executed | `GameRules.AsWrittenLoserBlocks` | `GameRules.CorrectedWaitReleasesAfterEnd` |

`GameState.TicTacToe.MakeMove` requires the corrected predicate (`GameRules.WaitDone`).
While a game is running this predicate is the same as the one in the source.

## Left out

- `display_board` (src/main.cpp:31-45) and its call in `make_move`: screen clearing and console output.
- The mutex, the condition variable, the blocking wait and `notify_all`. The wait predicate is the precondition of `MakeMove`. In `Run`, a call whose predicate is false is treated as still waiting.
- The `Player` class: thread bodies, `sleep_for`, moves drawn from `rand()`, and the unused `std::uniform_int_distribution`.
- `main`: thread creation, joining and printing the result.
- `GameState.TicTacToe.MakeMove`: requires `0 <= row, col < 3`. The source does not check the indices; its callers only pass values in range.
- A concrete draw game (X, O, X, ... with no line) is not proved step by step. `GameRules.ReachableOutcome` covers every game: a full board with no line is a draw.
