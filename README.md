# Tic-Tac-Toe minimax, modelled in Dafny

This project models the game logic of a console Tic-Tac-Toe program in which a
human plays X against a computer that plays O and chooses its moves by
exhaustive minimax search. It has three parts, each a Dafny module.

- **Board model** (`board.dfy`, module `BoardModel`). The board is nine
  positions numbered 1 to 9 in row-major order. An empty position holds its own
  number and an occupied one holds `X` or `O` (`Cell = Num(n) | X | O`). The
  game keeps one shared board and updates it in place, so the model keeps it in
  an `array<Cell>` of length 9, with position p at index p - 1. The pure
  functions read a `seq<Cell>` snapshot of it. `WellFormed` is the invariant the
  game relies on: every position p holds `X`, `O` or `Num(p)`. The initial board
  has it, and every successful `InsertPiece` keeps it.
- **Terminal-state evaluator** (`evaluator.dfy`, module `TerminalState`). It
  scans the three rows, then the three columns, then the two diagonals. It
  reports the claimant of the first line whose three cells are equal, or
  `None`. It also reports whether the board is full, and whether the game is
  over.
- **Search** (`search.dfy`, module `MiniMaxSearch`). `MiniMax` is a recursive
  method that evaluates the game tree. It writes a hypothetical move into the
  shared array, recurses, and writes the position's number back. `AI` picks the
  first free position with the best score. Both are proved against the
  specification functions `MiniMaxValue`, `ChildValue` and `BestChild`. These
  three are mutually recursive and terminate because every child has one fewer
  free position. Scores are 1 for an X win, -1 for an O win and 0 for a draw.

`wrappers.dfy` holds the `Option` type used where the program returns a value
or `None`.

Three behaviours of the code are worth stating up front.
- `InsertPiece` reports failure with a single boolean. It does not distinguish
  an off-board position from a taken one.
- A line of three equal cells that are not `X` is reported as an `O` win. On a
  well-formed board such a line never consists of empty cells
  (`CompleteLineHoldsMark`, `WinnerHoldsLine`).
- `CheckFull` looks for a position holding its own number. `IsEmpty` looks for
  a position holding neither mark. The two agree only on well-formed boards
  (`CheckFull`, `EmptyHoldsOwnNumber`).

## Model

| member | source | states |
|---|---|---|
| BoardModel.IsOnBoard | game.py:57-60 | a position is on the board exactly when 1 <= p <= 9 |
| BoardModel.IsEmpty | game.py:38-41 | a position is empty exactly when it holds neither X nor O, that is, a number |
| BoardModel.EmptyHoldsOwnNumber | game.py:38-41 | on a well-formed board, a position is empty exactly when it holds its own number |
| BoardModel.InitialBoard | game.py:355 | the starting board is well-formed and every position on it is empty |
| BoardModel.PlaceFillsOneCell | game.py:296-299 | writing a mark on a free position keeps the board well-formed and removes exactly that position from the free set; writing the number back restores the board exactly |
| BoardModel.ToggleMarker | game.py:260-264 | the toggled marker is always the other mark |
| BoardModel.ToggleMarkerInvolution | game.py:260-264 | toggling twice gives back the original mark |
| BoardModel.InsertPiece | game.py:80-92 | succeeds exactly when the position is on the board and empty (the range is tested before the cell is read); on success only that cell changes and it holds the piece; on failure the board is unchanged |
| BoardModel.InsertPreservesWellFormed | game.py:80-85 | a successful insertion keeps the board well-formed and uses up exactly one free position |
| TerminalState.FirstComplete | game.py:170-176 | the scan of a list of lines returns None exactly when no line has three equal cells; otherwise it returns the claimant of a complete line before which no line is complete |
| TerminalState.FirstCompleteConcat | game.py:146-154 | scanning rows and then columns (then diagonals) is the same as scanning their concatenation: a later group is consulted only if the earlier finds nothing |
| TerminalState.CheckHorizontal | game.py:170-176 | rows are positions 3j+1, 3j+2, 3j+3 for j = 0, 1, 2; the result is None exactly when no row has three equal cells, and otherwise the claimant of the first complete row |
| TerminalState.CheckVertical | game.py:192-198 | columns are positions j+1, j+4, j+7 for j = 0, 1, 2; the result is None exactly when no column has three equal cells, and otherwise the claimant of the first complete column |
| TerminalState.CheckDiagonal | game.py:214-219 | deciding from the centre cell gives the same result as scanning the two diagonals in order |
| TerminalState.CheckWins | game.py:146-154 | the winner is the claimant of the first complete line among rows, then columns, then diagonals; it is None exactly when none of the 8 lines has three equal cells |
| TerminalState.CompleteLineHoldsMark | game.py:171-175 | on a well-formed board a complete line holds the mark that is reported for it, never empty cells |
| TerminalState.WinnerHoldsLine | game.py:146-154 | on a well-formed board the reported winner holds three in a row, and there is no winner exactly when neither mark holds a line |
| TerminalState.CheckFullFrom | game.py:235-238 | the scan from position i is true exactly when no position from i to 9 holds its own number |
| TerminalState.CheckFull | game.py:235-238 | on a well-formed board the board is full exactly when no position is empty |
| TerminalState.CheckGameOver | game.py:249-258 | on a well-formed board the game is over exactly when X or O holds a line or no position is empty |
| MiniMaxSearch.MiniMaxValue | game.py:282-312 | the minimax value of every well-formed board is -1, 0 or 1 |
| MiniMaxSearch.ChildValue | game.py:296-298 | the value of a child (the free position filled with the marker, the other mark to move) is -1, 0 or 1 |
| MiniMaxSearch.BestChild | game.py:293-312 | the scan over free positions ends with a real score as soon as one free position exists; the move it keeps is a free position it has seen |
| MiniMaxSearch.BestChildIsFirstBest | game.py:340-352 | the kept score is at least as good as every child's; the kept position's child gives exactly that score; the kept position changes only on strict improvement; every earlier free position gives a strictly worse child |
| MiniMaxSearch.MiniMaxIsBestChild | game.py:293-312 | when nobody has won and a position is free, the value is the maximum of the children's values for X and their minimum for O, and some child attains it |
| MiniMaxSearch.MiniMaxOfFinishedGame | game.py:282-291 | when only X holds a line the value is 1; when only O does, -1; when no line is held and no position is free, 0 |
| MiniMaxSearch.AIMove | game.py:330-353 | the selector returns None exactly when no position is free, and otherwise a free position |
| MiniMaxSearch.AIMoveIsFirstBest | game.py:340-353 | the chosen position is free; no free position gives its player a better child; every free position before it gives a strictly worse one; while nobody has won its child has the board's minimax value |
| MiniMaxSearch.AIPicksWinningMove | game.py:340-353 | with X on 1 and 2, O on 4 and 5 and the rest free, the selector for X picks position 3, which completes the top row |
| MiniMaxSearch.MiniMax | game.py:266-312 | the in-place search returns the minimax value of the board it was given and leaves the board exactly as it found it |
| MiniMaxSearch.AI | game.py:314-353 | the in-place selector returns the specified first best move and leaves the board exactly as it found it |
| MiniMaxSearch.ComputerMove | game.py:117-130 | the computer's piece lands on the selector's position, and the board stays well-formed; the placement cannot fail |

## Left out

- `PrintBoard` (game.py:7-20) is left out: it only writes to the console.
- `PlayerMove` (game.py:94-115) is left out: it reads and parses console input, catches every exception, and asks again by recursion.
- The messages printed by `InsertPiece` and `CheckGameOver` are left out, and so is the lookup of the winner's name in `players` (game.py:251-255). Only the boolean decisions are modelled.
- The top-level board, player names, turn counter and turn loop (game.py:355-368) are left out, and so is the unused `import random` (game.py:5). Only the initial board is modelled, as `InitialBoard`.
- The value of `MiniMax` on the empty board (a draw) is not proved. Establishing it means evaluating the full game tree, roughly 9! positions, which is beyond what the verifier can unfold.
- ComputerMove: does not model the recursive retry on a failed placement. The model proves instead that the placement never fails on a board with a free position, so the retry is unreachable. When no position is free, `AI` returns `None`. `InsertPiece` then evaluates `None >= 1` in `IsOnBoard` (game.py:57), which raises a `TypeError` in Python 3. So the requirement of a free position excludes a crash, not a retry loop.
- InsertPiece: the piece is restricted to the two marks, since the program only ever passes `'X'` or `'O'`.
- MiniMax: requires a well-formed board. On other boards the program's restoring write `board[i] = i` would not give back the previous contents. The game only ever produces well-formed boards (`InitialBoard`, `InsertPreservesWellFormed`).
- AI: requires a well-formed board, for the same reason as MiniMax.
- The program's `MiniMax` has two copies of the search loop, one maximising for X and one minimising for O. The model writes one loop that compares with `Better(marker, score, best)`, which is `>` for X and `<` for any other marker, starting from the same sentinels (-999 and 999).
