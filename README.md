# Tic-tac-toe engine, modelled in Dafny

This project models the game logic of a browser tic-tac-toe page, found in `script.js`. A person plays X by clicking cells. The computer plays O, using one of three strategies picked by a difficulty selector:

- an exhaustive minimax search (`bestMove`);
- a heuristic that takes a win, else blocks, else moves at random (`mediumMove`);
- a uniformly random empty cell (`randomMove`).

The page also keeps tallies of X wins, O wins and draws. It has a restart button and a new-game button.

Modules, one per part of the script:

- `Boards` (`boards.dfy`): cells, boards, the table of eight winning lines, `evaluateBoard` as `Evaluate`, and `checkWin` as `CheckWin`.
- `Strategies` (`strategies.dfy`): `findWinningMove`, `findBlockingMove`, `randomMove` and `mediumMove`. All of them are pure functions of the board. `Math.random()` becomes a parameter.
- `Search` (`search.dfy`): `minimax` and `bestMove`.
  - Both are methods over the shared `array<Cell>`. Like the script, they write a mark into a cell, recurse, and clear the cell again.
  - Each method is proved to return the value of a specification function (`MinimaxValue`, `BestMoveChoice`) and to leave the array as it found it.
  - The properties of the search are lemmas about those functions.
- `Controller` (`controller.dfy`): the page's mutable state is a class `Game`. It holds the nine cells, the current player, the difficulty, the three tallies, and whether the cells have their click listener. The class has one method per handler: `handleClick`, `aiMove`, `restartGame`, `newGame` and the difficulty `change` listener.

Two points of orientation are reproduced as the script has them:

- **Minimax polarity.** The maximising ply places O, yet `evaluateBoard` gives +10 to an X line. `bestMove` maximises over O's moves, which steers O towards positions where X wins. The model keeps this as written:
  - `ImmediateWinNotPreferred` shows that, on a board where some O move is worth 0 or more, the move `bestMove` picks does not score -10.
  - `NoOLineWhenNotPreferred` adds: if moreover no line is owned yet, the picked move does not complete an O line.
  - `BestMoveDeclinesImmediateWin` gives a concrete board where O could win in cell 2 but `bestMove` picks cell 5.
  - No lemma claims that the search plays well for O.
- **Difficulty labels.** 'easy' runs the exhaustive search and 'hard' the random pick. `ChooseMove` maps them in that order.

Modelling choices:

- `Math.random()` is a draw `num/den` with `0 <= num < den`. The index picked from `n` items is `num*n/den`, which is `Math.floor(Math.random() * n)` for that draw.
- The running extremes `-Infinity`/`+Infinity` become -11 and +11. Every score is -10, 0 or 10, so a comparison against either sentinel comes out the same as in the script.
- The cell element that `bestMove` and the strategies return becomes its index (`Option<Index>`). The script's `null` or `undefined` becomes `None`.
- The 500 ms `setTimeout` between the click and the reply is not modelled. `AiMove` is a separate step, to be called after `HandleClick` hands the turn to O.

## Model

| member | source | states |
|---|---|---|
| Boards.LinesAreRowsColumnsDiagonals | script.js:17-26 | the table is the three rows, then the three columns, then the diagonals 0-4-8 and 2-4-6, each with its cells in increasing order |
| Boards.Evaluate | script.js:28-35 | the evaluation is null (None), 0, 10 or -10, and null only on a board that is not full |
| Boards.EvaluateFrom | script.js:29-34 | the scan from line k has the same range, and is null only on a non-full board |
| Boards.EvaluateIsFirstOwnedLine | script.js:28-35 | +10 iff the first owned line of the table is X's; -10 iff it is O's; 0 iff no line is owned and the board is full; null iff no line is owned and a cell is empty |
| Boards.EvaluateFromIsFirstOwnedLine | script.js:29-34 | the same four equivalences for the scan from line k, given that no earlier line is owned |
| Boards.CheckWin | script.js:161-166 | checkWin(p) holds iff some line of the table is held entirely by p |
| Boards.CheckWinFrom | script.js:162-165 | `some` from line k holds iff a line at or after k is held by p |
| Boards.EvaluateAgreesWithCheckWin | script.js:28-35 | +10 implies checkWin('X') and -10 implies checkWin('O'); either side holding a line is equivalent to a ±10 evaluation |
| Boards.OwnedLineScoresWin | script.js:29-34 | a board with a line scores ±10 even when full: the line test comes before the draw test |
| Boards.Count | script.js:34 | the count of a content is at most the board size, and is zero iff no cell shows it |
| Boards.CountUpdate | script.js:45 | writing a mark into a cell adds one of that mark, removes one of what was there, and leaves the third content's count alone |
| Boards.CountTotal | script.js:34 | empty, X and O cells together make up the whole board |
| Strategies.LineGap | script.js:87-95 | the three tests on one line find a cell iff the line has two of p's marks and one empty cell; the cell found is empty, on the line, and completes it for p |
| Strategies.FindWinningMove | script.js:85-98 | a returned cell is empty, gives p a line, and lies on the first threatened line of the table; null iff no line is a threat for p |
| Strategies.FindFrom | script.js:86-97 | the same for the scan from line k, given no earlier line is a threat |
| Strategies.FindBlockingMove | script.js:100-102 | a returned cell is empty, would give the opponent a line, and lies on the opponent's first threatened line of the table; null iff the opponent has no threat |
| Strategies.NoWinningMoveIffNoWinningCell | script.js:85-98 | when p holds no line yet, findWinningMove returns null iff no empty cell would give p a line |
| Strategies.WinningCellMakesThreat | script.js:87-95 | an empty cell that completes a line for p lies in a line that is a threat for p |
| Strategies.Empties | script.js:105 | the filter yields exactly the empty cells, in increasing board order, and nothing iff the board is full |
| Strategies.EmptiesFrom | script.js:105 | the filter from cell i yields exactly the empty cells at or after i, in increasing order |
| Strategies.Pick | script.js:107 | Math.floor(Math.random() * n) is below n |
| Strategies.PickBelow | script.js:107 | num*n/den < n for a draw num/den in [0, 1) |
| Strategies.PickExact | script.js:107 | the draw k/n picks exactly item k of n |
| Strategies.RandomMove | script.js:104-108 | null iff the board is full; otherwise an empty cell |
| Strategies.RandomMoveReachesEveryEmptyCell | script.js:104-108 | every empty cell is the random move for some draw |
| Strategies.MediumMove | script.js:78-83 | null iff the board is full; a returned cell is empty; if O has a threat, O's winning cell; else if X has one, the cell that blocks it; else the random move |
| Strategies.MediumTakesWinBeforeBlock | script.js:79 | when O can win and X threatens too, O takes the win |
| Strategies.MediumBlocksWhenNoWin | script.js:79-80 | when O cannot win and X threatens, O blocks |
| Search.MinimaxValue | script.js:37-57 | the value is -10, 0 or 10, and equals the evaluation on a finished board |
| Search.MinimaxLoop | script.js:43-55 | the loop result is a score, or the start value; it is a score when some cell from i on is empty |
| Search.ChildScores | script.js:44-46 | every empty cell carries a score (-10, 0 or 10), namely minimax of the board after the mover plays there; every occupied cell carries the start value |
| Search.MinimaxLoopIsFold | script.js:43-55 | the loop equals a fold over the precomputed move scores |
| Search.FoldIsBest | script.js:49-53 | the fold with Math.max is at least its start and every remaining score; with Math.min, at most; and it is the start or one of those scores |
| Search.MinimaxIsBestMove | script.js:37-57 | on a board in play the maximising value is the largest O move value, the minimising value the smallest X move value, and some empty cell attains it |
| Search.Minimax | script.js:37-57 | the in-place search returns MinimaxValue of the board it was given and restores every cell |
| Search.BestMoveChoice | script.js:59-76 | a cell bestMove returns is empty |
| Search.BestMoveLoop | script.js:63-74 | the loop from cell i returns the move it was given, or a later empty cell whose score beats the running best |
| Search.BestMoveLoopIsFirstMaximum | script.js:63-74 | the strict-greater loop ends with the first empty cell of largest score, or nothing when no cell is empty |
| Search.BestMoveIsFirstMaximum | script.js:59-76 | bestMove returns nothing iff the board is full; otherwise an empty cell whose O move value is at least every other, with every earlier empty cell worth strictly less |
| Search.BestMove | script.js:59-76 | the in-place loop returns BestMoveChoice of the board it was given and restores every cell |
| Search.ImmediateWinNotPreferred | script.js:59-76 | if some O move is worth 0 or more, bestMove returns a cell, and O's move there does not score -10 |
| Search.NoOLineWhenNotPreferred | script.js:59-76 | if moreover no line is owned yet, O's move in bestMove's cell completes no O line |
| Search.NewOLineScoresMinusTen | script.js:28-35 | on a board with no owned line, an O move that completes a line is scored -10 |
| Search.LastCellDecides | script.js:43-56 | with one empty cell left on a board in play, minimax is the value of the move into it |
| Search.BestMoveDeclinesImmediateWin | script.js:59-76 | on O O _ / X X _ / X O X, O could win in cell 2, but bestMove returns cell 5 |
| Search.BlockedExampleValue | script.js:37-57 | after O plays cell 5 on that board, minimax(false) is 10 |
| Search.ExampleEvaluations | script.js:28-35 | the evaluations of that example: O's top row scores -10, the board after O's cell 5 is in play, and X's diagonal then scores 10 |
| Controller.ChooseMove | script.js:112-122 | the move of every difficulty is null iff the board is full, and otherwise an empty cell |
| Controller.ClickKeepsBalance | script.js:145-158 | after X's placement the mark counts stay those of alternating play, whichever outcome follows |
| Controller.ReplyKeepsBalance | script.js:124-138 | after O's reply the counts stay balanced and the board is not full, so the draw branch of aiMove (script.js:131-134) cannot run in play |
| Controller.Game.constructor | script.js:11-15 | the page starts with empty cells, X to move, 'easy', zero tallies and listeners attached |
| Controller.Game.SetDifficulty | script.js:189-191 | the selector sets the difficulty and nothing else |
| Controller.Game.HandleClick | script.js:141-159 | without a listener, on a taken cell or on O's turn nothing changes; otherwise X is placed and exactly one of X's win (tallied, listeners removed), a draw (tallied) or O's turn follows; balance is kept |
| Controller.Game.SelectMove | script.js:112-122 | the switch returns the strategy move of the current difficulty and leaves the cells as they were |
| Controller.Game.AiMove | script.js:110-139 | with no move nothing changes; otherwise O is placed in the chosen cell and exactly one of O's win, a draw or X's turn follows; fired when due, it adds exactly one O, keeps balance and never tallies a draw |
| Controller.Game.RestartGame | script.js:168-173 | all cells empty, X to move, listeners attached, tallies and difficulty unchanged |
| Controller.Game.NewGame | script.js:175-181 | tallies zeroed, then as restartGame |

## Left out

- DOM lookups and the status messages (script.js:1-9, 127, 132, 147, 152, 171): these are presentation only. `cells` is the model's array.
- `updateScore` (script.js:183-187) only copies the tallies to the page. The tallies themselves are modelled.
- Listener registration (script.js:130, 150, 172, 193-195) is modelled as the flag `inputEnabled`. The method calls stand for the events.
- The 500 ms `setTimeout` (script.js:157) is not modelled. Nor is a restart or new game that lands between the click and the reply; in the script, the pending reply then acts on the cleared board.
- Floating point: `Math.random()` is a rational draw in [0, 1), and `±Infinity` is ±11.
- Difficulty values other than the three selector options. In the script, such a value leaves `move` undefined, and `aiMove` does nothing.
- The `oWins++` arm of the conditional at script.js:148. The guard at script.js:143 lets only X place a mark there, so that arm cannot run. The model tallies X's win directly.
- Controller.Game.AiMove: it keeps `Consistent()` only when called in the state where the reply is due (O to move, listeners attached). That is the only state in which the script schedules it.
- Optimality: no lemma states that the search is optimal for either side. Given the polarity above, it is not.
