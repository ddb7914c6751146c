# Tic-tac-toe engine of the `App` component

This project models the game engine inside the React `App` component of a browser
tic-tac-toe game, where a human plays either a friend on the same screen or a
computer opponent. It covers three parts:

- **The board.** Nine cells in row-major order. Each cell is empty (`null`) or holds `"X"` or `"O"`.
- **Two pure scans of the fixed table of eight winning triples:**
  - `checkWinner` answers whether some mark holds a whole triple;
  - `findBestMove` is the computer's one-ply heuristic. It returns the empty cell of the first triple in which `player` holds two cells and the third is empty, or -1.
- **The component's state machine.** Its state is the board, the mark to move, whether the human may move, and the game mode. Four transitions change it:
  - a click on a cell (`handleClick`);
  - the computer's move (`handleComputerMove`): win if it can, else block, else a random empty cell;
  - a restart (`resetGame`);
  - a mode selection (`handleModeSelection`).

The files:

- `wrappers.dfy`: the `Option` type.
- `board.dfy` (module `Board`):
  - marks, cells, the board as a 9-element sequence, the triple table;
  - `CheckWinner`, with its specification `WonBy`;
  - writing a cell (`Place`) and counting occupied cells (`Filled`).
- `heuristic.dfy` (module `Heuristic`):
  - `FindBestMove`;
  - its independent specification: a *threat* is a triple with two of the player's cells and one empty cell;
  - lemmas that tie the scan's tie-breaking to "the empty cell of the first threatened triple", and a move being found to "an immediate win exists".
- `game.dfy` (module `TicTacToe`):
  - the loop that collects the empty cells (`EmptyIndices`);
  - the computer's choice as a function of the board and the random draw (`ComputerChoice`), with its properties;
  - the class `App`, whose methods are the four transitions.
- `scenarios.dfy` (module `Scenarios`): concrete boards and short games checked against the contracts.

Modelling decisions:

- The board is a sequence value held in a field of the class. The source copies the board (`[...board]`) and writes one cell, so `Place` models that copy plus the write.
- `Math.random()` becomes a parameter `r` with `0 <= r < 1`. The index is `RandomIndex(r, n)`, the floor of the exact product `r * n`; the rounding of that product to a double is not modelled (see below).
- The alerts and timers that announce a result and then restart become the `Outcome` value a transition returns:
  - `PlayerWins(mark)`, `ComputerWins` or `Draw`;
  - `Continue` when play goes on;
  - `Ignored` when a click is refused.

  After a terminal outcome, the caller is expected to call `ResetGame`, as the timer callback does.
- Class invariant `Valid`:
  - in computer mode, the human may move exactly when X is to move;
  - in the other modes, the human may always move.

  Every transition keeps it.

## Model

| member | source | states |
|---|---|---|
| Board.WinnerFrom | src/App.jsx:123-129 | the scan from triple `k` on returns true exactly when some triple from `k` on holds three equal marks |
| Board.CheckWinner | src/App.jsx:111-130 | true exactly when one of the eight triples is entirely X or entirely O |
| Board.LinesDistinct | src/App.jsx:112-121 | the three cells of every triple in the table are distinct |
| Board.Place | src/App.jsx:27-28 | the copy with mark `m` written into cell `e`: that cell holds `m` and the other eight cells are unchanged (also lines 67-68) |
| Board.IsFull | src/App.jsx:36 | every cell is occupied (the `every` of lines 36 and 76) exactly when all nine cells are counted as occupied |
| Board.FilledPlace | src/App.jsx:27-28 | writing a mark into an empty cell raises the count of occupied cells by exactly one |
| Board.FilledAll | src/App.jsx:36 | the count of occupied cells is at most the board size, and equals it exactly when no cell is empty (`every(cell => cell !== null)`) |
| Board.NewWinIsMover | src/App.jsx:31-33 | on a board nobody has won, a triple completed by writing `m` into an empty cell is `m`'s and runs through that cell, so announcing the mover as winner is right |
| Board.PlaceFacts | src/App.jsx:27-31 | a write into an empty cell adds one occupied cell, and a win it creates on an unwon board is the writer's |
| Heuristic.BestMoveFrom | src/App.jsx:99-108 | the scan from triple `k` returns -1 exactly when no triple from `k` on is a threat; otherwise an empty cell of the first threatened triple from `k` on |
| Heuristic.FindBestMove | src/App.jsx:87-109 | -1 exactly when no triple holds two of `p`'s cells and one empty cell; otherwise an empty cell lying on the first such triple in table order |
| Heuristic.BestMoveIsFirstGap | src/App.jsx:99-107 | the move is determined: it is the empty cell of the first threatened triple, whichever of c, b, a it is |
| Heuristic.BestMoveCompletesLine | src/App.jsx:101-106 | playing `p` into the returned cell completes a triple for `p` |
| Heuristic.WinningMoveWasThreat | src/App.jsx:101-106 | a move into an empty cell that wins an unwon board was a threatened triple beforehand |
| Heuristic.BestMoveIffImmediateWin | src/App.jsx:87-109 | on an unwon board a move is returned exactly when `p` has a move that wins at once |
| TicTacToe.EmptyPrefixSpec | src/App.jsx:52-55 | the empty cells listed below `n` are exactly the empty cells below `n`, in ascending order |
| TicTacToe.EmptyCellsIffNotFull | src/App.jsx:52-55 | the list of empty cells is non-empty exactly when the board is not full |
| TicTacToe.EmptyIndices | src/App.jsx:52-55 | the accumulating loop returns the list of the empty cells in ascending order, and an index is in it exactly when its cell is empty |
| TicTacToe.RandomIndex | src/App.jsx:65 | `floor(r * n)` for `0 <= r < 1` is a position of a list of `n` elements |
| TicTacToe.DrawFor | src/App.jsx:65 | every position `k < n` is selected by some draw in [0, 1) |
| TicTacToe.ComputerChoice | src/App.jsx:57-65 | the computer's cell is -1 or an empty cell: an occupied cell is never chosen |
| TicTacToe.ComputerMovesUnlessFull | src/App.jsx:52-65 | the computer has a cell to play exactly when the board is not full |
| TicTacToe.ComputerMoveEffects | src/App.jsx:67-71 | the computer's write adds exactly one occupied cell, and a win it creates on an unwon board is O's |
| TicTacToe.ComputerTakesWin | src/App.jsx:57-62 | when O can win at once, the computer's move wins for O whatever the draw |
| TicTacToe.ComputerBlocks | src/App.jsx:58-64 | when O cannot win at once but X can, the computer plays a cell in which X would have won |
| TicTacToe.ComputerMayPlayAnyEmptyCell | src/App.jsx:60-65 | when neither side can win at once, every empty cell is the computer's move for some draw |
| TicTacToe.App.constructor | src/App.jsx:5-12 | the initial state: the stored board or an empty one, the stored mode or none, X to move, the human's turn |
| TicTacToe.App.ResetGame | src/App.jsx:132-136 | an empty board, X to move, the human's turn, and the mode kept |
| TicTacToe.App.HandleModeSelection | src/App.jsx:138-142 | the mode becomes `mode` and the game is reset |
| TicTacToe.App.Accepts | src/App.jsx:25 | the guard of `handleClick`: the cell exists, is empty, and it is the human's turn; a board that accepts a click is not full |
| TicTacToe.App.HandleClick | src/App.jsx:24-49 | a refused click (missing or occupied cell, or not the human's turn) changes nothing; an accepted click writes the mover's mark into that cell only and adds one occupied cell; a win announces the mover, and on a board nobody had won the mover holds a triple; a full board announces a draw, with the turn kept; otherwise X/O alternate between friends, and against the computer the turn passes to O |
| TicTacToe.App.HandleComputerMove | src/App.jsx:51-85 | O is written into the cell `ComputerChoice` picks, or nothing changes on a full board; a win or a full board is announced with the turn kept, otherwise the turn returns to the human as X |
| Scenarios.TieBreakExample | src/App.jsx:101-102 | with O in cells 0 and 1, the heuristic for O offers cell 2 |
| Scenarios.DrawExample | src/App.jsx:36 | X,O,X / X,O,O / O,X,X is full and won by nobody |
| Scenarios.FriendBoardsOpen | src/App.jsx:123-129 | the boards of a friends' game after each of its first four moves are unwon and not full |
| Scenarios.FriendBoardWon | src/App.jsx:123-129 | X completing the top row wins |
| Scenarios.FriendStart | src/App.jsx:138-142 | selecting friend mode on a new component gives an empty board with X to move |
| Scenarios.FriendOpening | src/App.jsx:42-47 | between friends, the clicks 0, 4, 1 alternate the marks and leave O to move |
| Scenarios.FriendEnding | src/App.jsx:31-33 | continuing that game, O takes 5 and X completes the top row with 2: the outcome announces X |
| Scenarios.TwoThreatsMoves | src/App.jsx:57-58 | with threats on both sides, the heuristic offers O its winning cell and X its own |
| Scenarios.ComputerPrefersWinToBlock | src/App.jsx:57-62 | against the computer, X's click on 5 passes the turn to O with threats on both sides; the computer then completes its own row instead of blocking, and wins |
| Scenarios.AfterClickOpen | src/App.jsx:27-36 | X taking 5 on that board wins nothing and leaves cells empty |
| Scenarios.AfterClickMoves | src/App.jsx:57-58 | on the board after X takes 5, the heuristic offers O cell 8, and cell 8 wins |

## Left out

- Rendering: the JSX for the mode choice and the board markup (src/App.jsx:144-176).
- Browser storage:
  - the `localStorage` reads and writes are left out (src/App.jsx:7, 11, 15, 140); the constructor takes the stored board and mode as optional values instead;
  - a stored board that does not hold exactly nine cells, a stored board whose cells hold values other than `null`, `"X"` or `"O"` (it is parsed unvalidated), and a stored mode other than "", "computer" or "friend" are not modelled.
- Timers and dialogs:
  - the 700 ms delay before the computer moves, the 10 ms delay before `alert`, and the alerts themselves;
  - the `useEffect` that schedules the computer's move when it is O's turn in computer mode (src/App.jsx:14-22);
  - instead, each transition returns its `Outcome`, and the caller performs the reset.
- The 10 ms window: between a human's win and the reset, the source still accepts clicks, because the turn is not taken away. The model shows the same state (the turn is kept), but it does not interleave clicks with timers.
- React hook mechanics (`useState` batching, stale closures): the model applies each transition to the current state at once.
- Full board in `handleComputerMove`: `Math.random() * 0` is 0, so the source reads `emptyIndices[0]`, which is `undefined`, and writes a property that is not a cell. The model writes no cell.
- RandomIndex: the source floors `Math.random() * emptyIndices.length` after the product is rounded to a double. Near a multiple of `1/n` that rounding can select the next position, so for some draws the model picks a different cell. The set of positions some draw selects is the same (`DrawFor`).
- `Math.random` is a foreign call. The draw is the parameter `r` of `HandleComputerMove` and `ComputerChoice`.
- `id`: the source's `id` is whatever the cell's callback passes. The model takes an integer.
