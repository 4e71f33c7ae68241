# Ultimate Tic-Tac-Toe: rules and move search, in Dafny

This project models the game logic of a single-file pygame Ultimate
Tic-Tac-Toe (`main.py`): nine 3x3 sub-boards, a 3x3 main board recording
each sub-board's outcome, the rule that the square just played chooses the
sub-board the opponent must play in next, the two computer opponents (a
random one and a depth-limited minimax one), and the turn logic of the game
loop that ties them together. Drawing, menus and input handling are not
modelled.

## Representation

- `Rules.Mark` is a square or main-board entry: `Empty` is the source's `''`;
  `X`, `O` are the players; `D` is the main-board entry of a drawn sub-board.
  `Rules.Player` is the subset `{X, O}`.
- `small_boards[b][x][y]` is `cells[b*9 + x*3 + y]` (81 squares) and
  `big_board[i][j]` is `big[i*3 + j]` (9 entries), with `b = i*3 + j` as the
  source computes `board_num`. On values these are `Rules.Cells` and
  `Rules.Grid`; in the imperative modules they are two `array<Mark>`.
- A move `(board_row, board_col, cell_row, cell_col)` is `Rules.Move`. The
  active target `current_board` / `active_pos` is `Rules.Target`: `Any` for
  `(-1, -1)`, `At(row, col)` otherwise.
- `None` and the `float('-inf')` / `float('inf')` sentinels of the search are
  `Rules.Option`.

## Modules

- `Rules` (`rules.dfy`): `check_win`, `check_full` and `check_game_over`
  as predicates (shared by sub-boards and the main board). It also defines
  the effect of `make_move` on values: `Place` writes the square, `Settle`
  updates the main board, and `NextTarget` gives the driver's next target.
  Finally it states the outcome invariant `WellFormed`: every main-board
  entry is the outcome of its sub-board. Legal play keeps it, and the fresh
  boards satisfy it.
- `Moves` (`moves.dfy`): `get_possible_moves` as the function
  `PossibleMoves`. Its lemmas say which moves it returns, in which order,
  and that a running game always has one.
- `Search` (`search.dfy`): `evaluate_position`, `calculate_move_score` and
  `get_best_move` as the functions `Evaluate`, `Score` and `BestMove`.
- `Engine` (`engine.dfy`): the same operations as imperative methods over
  the two arrays. Each deterministic one is proved equal to its function;
  `get_random_move` is proved to return some legal move. The look-ahead
  writes a mark, recurses and erases it in place; the methods prove that it
  leaves the sub-boards as found and never writes the main board.
- `Driver` (`driver.dfy`): the state one match keeps between events, as the
  class `Match`: boards, player to move, target, `game_over`. It holds a
  human click and an AI turn, with the invariant `Valid` kept across turns.

A consequence proved along the way: the look-ahead never updates the main
board, so every leaf of the search evaluates the same board. Every score is
therefore either 0 or `evaluate_position` of the current main board
(`Search.ScoreIsLeafOrZero`). While that board is level, the hard AI simply
plays the first legal move (`Search.LevelBoardPicksFirstMove`).

Behaviour of the code that is kept as written:

- `get_possible_moves` returns no moves for a specific target whose sub-board
  is decided. It does not fall back to every sub-board itself; the fallback
  happens in the game loop after each move.
- `get_possible_moves` does not check whether the game is over.
- `make_move` does no validation. Legality is the caller's check against
  `get_possible_moves`.
- The look-ahead targets the square just played without the fallback, and
  it never records sub-board outcomes.

## Model

| member | source | states |
|---|---|---|
| Rules.Other | main.py:121 | the opponent of a player is the other player: 'X' for 'O' and 'O' for 'X' |
| Rules.CheckWin | main.py:246-263 | check_win as a predicate: some row, some column, the diagonal or the anti-diagonal is entirely p (its meaning is stated by Rules.CheckWinIffThreeInARow) |
| Rules.CheckFull | main.py:265-266 | check_full holds exactly when no square or entry is '' (what that means for a sub-board's outcome and for the end of the game is stated by Rules.GameOverIff and Moves.UndecidedHasRoom) |
| Rules.CheckGameOver | main.py:268-275 | check_game_over as a predicate: X wins, O wins, or the grid is full (its meaning is stated by Rules.GameOverIff) |
| Rules.Place | main.py:236 | the write of the mover into the addressed square, on values (its effect is stated by Rules.PlaceOtherBoards and Rules.PlaceOwnBoard) |
| Rules.Settle | main.py:238-241 | the main-board update after the write: only the played sub-board's entry can change, and it becomes the mover, 'D' or stays as it was |
| Rules.NextTarget | main.py:358-360 | the next target is "any sub-board" exactly when the main-board entry of the played square's position is decided, and otherwise that position (that a specific target then always names an undecided sub-board is kept by Driver.Match.PlayMove) |
| Rules.CheckWinIffThreeInARow | main.py:246-263 | check_win holds exactly when one of the eight lines of the grid (three rows, three columns, two diagonals) holds p in all three squares |
| Rules.GameOverIff | main.py:268-275 | check_game_over holds exactly when X or O has a line on the main board or no entry is empty; a 'D' counts as filled but never as part of a line |
| Rules.WriteKeepsOtherWins | main.py:236-241 | writing p into an empty square neither creates nor destroys a line of any other mark |
| Rules.PlaceOtherBoards | main.py:236 | writing one square leaves every other sub-board unchanged |
| Rules.PlaceOwnBoard | main.py:236 | within the played sub-board, the write changes exactly square cell_row*3+cell_col |
| Rules.FreshBoardsWellFormed | main.py:69-72 | the fresh boards are consistent: every sub-board is undecided and the main board is not over |
| Rules.SettleOwnBoard | main.py:236-241 | after a move into an undecided sub-board, its main-board entry becomes the mover on a line, 'D' when full without a line, or stays '' otherwise |
| Rules.SettlePreservesWellFormed | main.py:233-244 | a move on an empty square of an undecided sub-board keeps every main-board entry equal to its sub-board's outcome; no other sub-board or entry changes; the played entry becomes '', the mover or 'D' |
| Moves.PossibleMoves | main.py:189-208 | get_possible_moves on values: the scan of every undecided sub-board for (-1,-1), of the target sub-board if undecided, else nothing (its meaning is stated by Moves.PossibleMovesExactly and Moves.PossibleMovesIncreasing) |
| Moves.PossibleMovesExactly | main.py:189-208 | a move is offered exactly when it lies in the target sub-board (any one for (-1,-1)), that sub-board's main-board entry is '', and the square is '' |
| Moves.PossibleMovesIncreasing | main.py:189-208 | moves come in row-major board-then-square order, each at most once |
| Moves.IncreasingUnique | main.py:189-208 | two strictly ordered move lists with the same members are equal, so the two lemmas above determine the list completely |
| Moves.FreshTopLeftMoves | main.py:200-207 | on fresh boards, target (0,0) offers exactly the nine squares of the top-left sub-board in row-major order |
| Moves.MovesAvailable | main.py:189-208 | in a consistent position, if the target sub-board is undecided (or the target is (-1,-1) and the game is not over), at least one move is offered |
| Moves.OpenBoard | main.py:265-275 | a main board that is not over has an entry that is '' |
| Search.Evaluate | main.py:161-169 | the static evaluation (O entries minus X entries) lies within [-9, 9] |
| Search.Score | main.py:130-159 | calculate_move_score on values: the static value at depth 0, 0 with no legal move, otherwise the max (min) over the legal moves of the opponent's score one ply shallower (its meaning is stated by Search.BestIsExtremum and Search.ScoreIsLeafOrZero) |
| Search.BestIsExtremum | main.py:138-159 | the running max (min) over the candidates is at least (at most) every candidate's score and equals some candidate's score |
| Search.ScoreIsLeafOrZero | main.py:130-169 | every search score is 0 or the static evaluation of the unchanged main board, hence within [-9, 9] |
| Search.Pick | main.py:112-127 | the strict-greater scan of get_best_move finds a move exactly when the candidate list is non-empty |
| Search.BestMove | main.py:110-128 | get_best_move on values: the scan over the legal moves scored by their root score (its meaning is stated by Search.BestMoveSpec) |
| Search.PickIsFirstMaximum | main.py:115-128 | the strict-greater scan finds nothing exactly on an empty list, otherwise a candidate of maximal score that beats every earlier candidate strictly |
| Search.BestMoveSpec | main.py:110-128 | get_best_move gives None exactly when there is no legal move, otherwise the first legal move of maximal root score |
| Search.LevelBoardPicksFirstMove | main.py:110-128 | when the main board has as many O as X entries and a move exists, get_best_move returns the first legal move |
| Engine.CreateGameBoards | main.py:69-72 | two fresh arrays, 81 squares and 9 entries, all '' |
| Engine.EmptySquares | main.py:196-199 | the scan of one sub-board returns exactly its empty squares, in row-major order |
| Engine.GetPossibleMoves | main.py:189-208 | the nested loops return the specification list of legal moves, so exactly the allowed moves, in increasing order |
| Engine.GetRandomMove | main.py:106-108 | None exactly when there is no legal move, otherwise a legal move |
| Engine.MakeMove | main.py:233-244 | writes the mover into the square, records a win or draw of that sub-board on the main board, returns the played square as the next target |
| Engine.EvaluatePosition | main.py:161-169 | the square-by-square loop computes O entries minus X entries of the main board, within [-9, 9] |
| Engine.CalculateMoveScore | main.py:130-159 | returns the minimax score of the position and leaves the sub-boards as found without writing the main board |
| Engine.BestOfMoves | main.py:138-159 | the loop over a non-empty candidate list returns the running max (min) of the candidates' scores and restores the sub-boards |
| Engine.PlayAndScore | main.py:141-146 | write, score, erase: returns the score of the position after the move and restores the sub-boards |
| Engine.GetBestMove | main.py:110-128 | returns the first legal move of strictly greatest root score (None when there is none) and restores the sub-boards |
| Driver.EasyAiCallRaises | main.py:370-371 | the AI call passes four arguments, which binds for get_best_move but not for get_random_move (three parameters) |
| Driver.Match.constructor | main.py:327-330 | a match starts with fresh boards, X to move, target (-1,-1), not over, and the invariant holds |
| Driver.Match.PlayMove | main.py:355-360 | for a move the click or the AI made legally: make_move, then the next target is the played square unless its sub-board is decided, in which case (-1,-1); the outcome invariant is kept |
| Driver.Match.Advance | main.py:355-366 | after a legal move: boards as make_move leaves them, next target by the fallback rule, game_over is check_game_over of the main board, and the player flips only when the game is not over |
| Driver.Match.HumanTurn | main.py:344-366 | a click is played exactly when the game is running, it is a human's turn, and the move is among get_possible_moves; then the boards are as make_move leaves them and game_over is check_game_over; otherwise nothing changes |
| Driver.Match.AiTurn | main.py:368-386 | when the game is running and O is to move, the AI always finds a legal move and plays it (the hard AI plays get_best_move's choice), leaving the boards as make_move does; otherwise nothing changes |
| Driver.Match.AiTurnAsWritten | main.py:368-386 | the AI turn with the call as written: on O's turn in a running easy game it raises before choosing a move and changes nothing; otherwise nothing is raised and its contract is AiTurn's: nothing changes unless the game is running and O is to move; a hard move is legal, leaves the boards as make_move does, sets game_over, the next target and the player as the game loop does, and is get_best_move's choice |

## Left out

- Rendering, menus and screens are not modelled: `draw_grid`, `draw_moves`, `draw_x`, `draw_o`, `show_won_board`, `show_active_board`, `show_game_over`, `Button` and the menu and game-over screens are presentation only.
- The mouse-to-square arithmetic (main.py:346-350) is left out: `Driver.Match.HumanTurn` takes the four coordinates directly, and coordinates off the board are rejected.
- The 0.5 s debounce (main.py:344, 369) is treated as always elapsed, because clocks are outside the model.
- Driver.Match.HumanTurn: the game mode is the flag `aiOpponent` ("pvp" is `false`), because the menu that sets it is not modelled.
- Engine.GetRandomMove: returns some legal move rather than a uniformly random one, because `random.choice` is not modelled.
- Driver.Match.AiTurn: calls the easy AI with the three arguments `get_random_move` declares, not the four of main.py:371 (see Findings).
- The message `show_game_over(player)` shows after a main-board draw is not modelled, because it is display only.
- The nested lists are two separate flat arrays, so aliasing between boards is not modelled: `Driver.Match.Valid` requires the two arrays to be distinct.
- The two branches of `calculate_move_score` are one loop with a max/min switch (`Search.Combine`), because they differ only in that choice.
- Python's dynamic typing is not modelled: squares hold only the four marks, and players are only X and O.

## Findings

| source | as written | input that shows it | evidently intended | confidence | as-written member | corrected member |
|---|---|---|---|---|---|---|
| main.py:370-371 | `ai_func(boards, main_board, current_board, player)` passes four arguments, but `get_random_move` takes three | choose "Player vs Easy AI" and play any legal move as X: the AI's turn raises TypeError | call `get_random_move(boards, main_board, current_board)` | high, not executed | Driver.Match.AiTurnAsWritten | Driver.Match.AiTurn |
