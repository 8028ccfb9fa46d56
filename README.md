# OX bingo — a Dafny model

The repository is a single-page Streamlit app (`streamlit_app.py`) for a
two-player OX bingo on a 4×4 board. The players take turns. On even turn
counts (0, 2, …) the mover writes `O`, on odd ones `X`. A player wins by
filling a whole row, column or diagonal with their mark. A full board with no
such line is a draw. The app keeps five values in its per-user session store:
`game_started`, `turn`, `board` (a 4×4 object array of `''`, `'O'`, `'X'`),
`game_over` and `winner`. The page shows the start screen or the game screen
according to `game_started`.

The model has three modules:

- `Board` (`board.dfy`) holds the cells, the two marks and a board as a value
  (`Grid`, a snapshot of the session's array). It defines writing one cell
  (`Place`) and counting the cells that hold a value (`Count`), with the
  counting lemmas.
- `WinCheck` (`win_check.dfy`) holds the win evaluator.
  - `Winner` is its specification: the mark of the first uniform line in the
    scan order of `check_win`. That order is row i then column i for i = 0..3,
    then the main diagonal, then the anti-diagonal.
  - `CheckWin` is the evaluator itself, a loop over the session's `array2`
    board proved equal to `Winner`.
  - Lemmas state what `Winner` means: a mark is returned only for a uniform
    line, `None` exactly when no line is uniform, the first uniform line in
    scan order decides, and after a move only the mover can have won.
- `GameSession` (`game_session.dfy`) holds the session as a class `Session`
  whose fields are the five session values, with the board as an `array2`
  updated in place. Its operations are first-load initialisation, the start
  button, the restart button and a click on a cell, followed by judging the
  board.
  - Every operation keeps the invariant `Consistent`:
    - `turn` is the number of marks on the board, and at most 16;
    - O has as many marks as X, or one more;
    - `winner` is what the evaluator says of the board, and it is the last
      mover;
    - the game is over exactly when there is a winner or the board is full.
  - `Status` is the screen the page shows.

A click that the page offers no button for changes nothing and returns
`accepted == false`. Such clicks are: a click on an occupied cell (its button
is disabled), a move when the game is over or not started, a start while a
game runs, and a restart unless a started game is over (a second restart
after the first is rejected too).

## Model

| member | source | states |
|---|---|---|
| Board.Place | streamlit_app.py:88 | writing a mark puts it in cell (r, c) and leaves the other fifteen cells as they were |
| Board.CountPlace | streamlit_app.py:88-89 | writing a mark into an empty cell adds one to that mark's count, removes one empty cell and leaves the other mark's count alone |
| Board.CountTotal | streamlit_app.py:97 | empty, O and X cells add up to the 16 cells of the board, so 16 marks leave no empty cell |
| WinCheck.Pos | streamlit_app.py:40-51 | the k-th cell of each line: row i reads cells (i, 0..3), column i reads (0..3, i), the main diagonal reads the cells with equal row and column, the anti-diagonal (`np.diag(np.fliplr(board))`) reads (0, 3), (1, 2), (2, 1), (3, 0), the cells whose row and column add up to 3 |
| WinCheck.LineWinner | streamlit_app.py:40-52 | the test on one line returns a mark only if the line is filled with it, and returns nothing only if the line is not filled with one mark |
| WinCheck.LineWinnerMeaning | streamlit_app.py:40-41 | the one-line test (first cell not empty, every cell equal to it) returns m exactly when the line is filled with m, and nothing exactly when the line is not filled with one mark |
| WinCheck.ScanOrderCoversAllLines | streamlit_app.py:38-52 | the scan visits exactly the four rows, four columns and two diagonals |
| WinCheck.FirstWinnerNone | streamlit_app.py:38-55 | scanning a list of lines finds nothing exactly when no line of the list is filled with one mark |
| WinCheck.FirstWinnerSome | streamlit_app.py:38-52 | scanning a list of lines returns m exactly when a line filled with m comes before every other filled line |
| WinCheck.WinnerIsFirstInScanOrder | streamlit_app.py:38-52 | the evaluator returns m exactly when some line filled with m comes earlier in the scan order than every other filled line |
| WinCheck.WinnerNoneIff | streamlit_app.py:38-55 | the evaluator returns None exactly when no row, column or diagonal is filled with one mark |
| WinCheck.Winner | streamlit_app.py:34-55 | the value `check_win` returns: a returned mark fills some row, column or diagonal (the lemmas below characterise it fully) |
| WinCheck.NoMarksNoWinner | streamlit_app.py:34-55 | a board without marks has no winner |
| WinCheck.MoveWinnerIsMover | streamlit_app.py:87-95 | if the board had no winner, writing m into an empty cell leaves either no winner or m as the winner |
| WinCheck.WinNeedsFourMarks | streamlit_app.py:40-52 | a winning mark occupies at least four cells |
| WinCheck.CheckWin | streamlit_app.py:34-55 | the loop over the board array returns exactly the evaluator's result for the board's contents |
| GameSession.MarkFor | streamlit_app.py:60 | the mark to play: counting turns from one, O plays the odd-numbered turns and X the even-numbered ones |
| GameSession.MarksAlternate | streamlit_app.py:60 | the mark to play changes on every turn, repeats every two turns and is O first |
| GameSession.WinTakesSevenMoves | streamlit_app.py:92-95 | when O has as many marks as X or one more, a win needs at least seven marks on the board |
| GameSession.InitialConsistent | streamlit_app.py:14-19 | an empty board at turn 0 with no winner and the game not over satisfies the session invariant |
| GameSession.MoveConsistent | streamlit_app.py:87-99 | a move into an empty cell of a running game, followed by judging the board, keeps the session invariant; a win it produces is the mover's |
| GameSession.Session.constructor | streamlit_app.py:14-19 | first load: not started, turn 0, an empty new board, not over, no winner; the invariant holds |
| GameSession.Session.Start | streamlit_app.py:25-30 | when no game runs: started, turn 0, a fresh empty board, not over, no winner; otherwise nothing changes; the invariant holds |
| GameSession.Session.Restart | streamlit_app.py:69-70 | when a started game is over: back to the start screen with board, turn and result kept; otherwise nothing changes |
| GameSession.Session.Move | streamlit_app.py:83-99 | a click on an empty cell of a running game writes the current mark into that cell only and advances the turn. A win ends the game with the mover as winner, even on the 16th move. Otherwise a full board ends it as a draw. Any other click changes nothing. The invariant holds afterwards |
| GameSession.Session.Play | streamlit_app.py:88-99 | the accepted move: the current mark goes into the empty cell and the turn advances; a win ends the game with the mover as winner, even on the 16th move, and otherwise a full board ends it as a draw; the invariant holds afterwards |
| GameSession.Session.Status | streamlit_app.py:60-74 | the start screen exactly when no game is started. Otherwise it is the board with the player to move (no winner, turn below 16), the winner (the last mover, after at least seven turns), or a draw (a full board with no winner) |

## Left out

- Page rendering: the page title and layout, the headings and messages, the balloons, the turn caption and the button labels. They only display the state.
- `st.rerun()`: it only redraws the page from the session store, which the model keeps in the `Session` object.
- How a button click reaches the program: Streamlit's event loop and widget keys are not modelled. A click is a call to `Move(i, j)` with 0 ≤ i, j < 4, because the page has only those sixteen buttons. The screen that would not show a button is modelled by the `accepted` result.
- The numpy object array is an `array2<Cell>`, with `''` as `Empty`; `np.all`, `np.diag` and `np.fliplr` are written out as reads of the four cells of each line.
- Concurrent sessions: each browser session has its own store, and the model covers one.
