/** One game session: the fields the app keeps in its per-user session
    store (game_started, turn, board, game_over, winner) and the transitions
    that change them — first-load initialisation, start, restart, and a move
    followed by judging the board. */
module GameSession {
  import opened Board
  import opened WinCheck

  /** The mark to play after `turn` moves. Counting turns from one, as the
      start screen does, 'O' plays the odd-numbered turns and 'X' the
      even-numbered ones. */
  function MarkFor(turn: nat): (m: Mark)
    ensures m == O <==> (turn + 1) % 2 == 1
    ensures m == X <==> (turn + 1) % 2 == 0
  {
    if turn % 2 == 0 then O else X
  }

  /** Marks alternate strictly from one move to the next. */
  lemma MarksAlternate(turn: nat)
    ensures MarkFor(turn + 1) != MarkFor(turn)
    ensures MarkFor(turn + 2) == MarkFor(turn)
    ensures MarkFor(0) == O
  {
  }

  /** With O moving first and the players alternating, O has as many cells as X
      or one more. */
  predicate Balanced(g: Grid)
  {
    Count(g, O) == Count(g, X) || Count(g, O) == Count(g, X) + 1
  }

  /** On a balanced board a line needs at least seven moves: four of the
      winner's marks and at least three of the other player's. */
  lemma WinTakesSevenMoves(g: Grid, m: Mark)
    requires Winner(g) == Some(m) && Balanced(g)
    ensures Count(g, O) + Count(g, X) >= 7
  {
    WinNeedsFourMarks(g, m);
  }

  /** The consistency of a session's fields with its board: `turn` counts
      the marks on the board, O and X alternate starting with O, `winner` is
      what the evaluator says of the board and was played by the last mover,
      and the game is over exactly when there is a winner or all 16 cells are
      taken. */
  ghost predicate Consistent(g: Grid, turn: nat, gameOver: bool, winner: Option<Mark>)
  {
    && turn <= 16
    && turn == Count(g, O) + Count(g, X)
    && Count(g, O) == Count(g, X) + turn % 2
    && winner == Winner(g)
    && (gameOver <==> winner.Some? || turn == 16)
    && (winner.Some? ==> turn >= 7 && winner.value == MarkFor(turn - 1))
  }

  /** The state set on first load and on start is consistent. */
  lemma InitialConsistent(g: Grid)
    requires forall r, c :: InRange(r, c) ==> g[r][c] == Empty
    ensures Consistent(g, 0, false, None)
  {
    CountAbsent(g, O);
    CountAbsent(g, X);
    NoMarksNoWinner(g);
  }

  /** A move on an empty cell of a game that is not over, judged as the
      app judges it, keeps the session consistent; a win can only be the
      mover's. */
  lemma MoveConsistent(g: Grid, turn: nat, i: int, j: int, h: Grid, w: Option<Mark>)
    requires Consistent(g, turn, false, None) && InRange(i, j) && g[i][j] == Empty
    requires h == Place(g, i, j, MarkFor(turn)) && w == Winner(h)
    ensures Consistent(h, turn + 1, w.Some? || turn + 1 == 16, w)
    ensures w.Some? ==> w.value == MarkFor(turn)
  {
    var m := MarkFor(turn);
    CountPlace(g, i, j, m, O);
    CountPlace(g, i, j, m, X);
    MoveWinnerIsMover(g, i, j, m);
    if w.Some? {
      WinTakesSevenMoves(h, w.value);
    }
  }

  /** What the page shows: the start screen, the board with the player to
      move, the winner, or a draw. */
  datatype Phase = NotStarted | InProgress(next: Mark) | Won(mark: Mark) | Drawn

  class Session {
    var gameStarted: bool
    var turn: nat
    var board: array2<Cell>
    var gameOver: bool
    var winner: Option<Mark>
    /** The contents of `board`, as a value. */
    ghost var cells: Grid

    ghost predicate Valid()
      reads this, board
    {
      && board.Length0 == 4 && board.Length1 == 4
      && (forall r, c :: InRange(r, c) ==> board[r, c] == cells[r][c])
      && Consistent(cells, turn, gameOver, winner)
    }

    /** First-load initialisation of the session store. */
    constructor ()
      ensures Valid() && fresh(board)
      ensures !gameStarted && turn == 0 && !gameOver && winner == None
      ensures forall r, c :: InRange(r, c) ==> cells[r][c] == Empty
    {
      var empty := new Cell[4, 4]((_, _) => Empty);
      gameStarted, turn, board, gameOver, winner := false, 0, empty, false, None;
      cells := Snapshot(empty);
      new;
      InitialConsistent(cells);
    }

    /** The start button, shown only while no game is running: a new empty
        board, turn 0, nobody has won. */
    method Start() returns (accepted: bool)
      requires Valid()
      modifies this
      ensures Valid()
      ensures accepted == !old(gameStarted)
      ensures accepted ==> gameStarted && turn == 0 && fresh(board) && !gameOver && winner == None
                           && forall r, c :: InRange(r, c) ==> cells[r][c] == Empty
      ensures !accepted ==> gameStarted == old(gameStarted) && turn == old(turn) && board == old(board)
                            && cells == old(cells) && gameOver == old(gameOver) && winner == old(winner)
    {
      if gameStarted {
        return false;
      }
      var empty := new Cell[4, 4]((_, _) => Empty);
      gameStarted, turn, board, gameOver, winner := true, 0, empty, false, None;
      cells := Snapshot(empty);
      InitialConsistent(cells);
      accepted := true;
    }

    /** The restart button, shown only once the game is over: back to the
        start screen; the board, turn and result stay as they were until the
        next start. */
    method Restart() returns (accepted: bool)
      requires Valid()
      modifies this
      ensures Valid()
      ensures accepted == (old(gameStarted) && old(gameOver))
      ensures gameStarted == (old(gameStarted) && !accepted)
      ensures turn == old(turn) && board == old(board) && cells == old(cells)
              && gameOver == old(gameOver) && winner == old(winner)
    {
      accepted := gameStarted && gameOver;
      if accepted {
        gameStarted := false;
      }
    }

    /** A click on cell (i, j). Only an empty cell of a running game that is
        not over has a clickable button; any other click changes nothing. */
    method Move(i: int, j: int) returns (accepted: bool)
      requires Valid() && InRange(i, j)
      modifies this, board
      ensures Valid() && board == old(board) && gameStarted == old(gameStarted)
      ensures accepted == (old(gameStarted) && !old(gameOver) && old(cells)[i][j] == Empty)
      ensures !accepted ==> turn == old(turn) && cells == old(cells)
                            && gameOver == old(gameOver) && winner == old(winner)
      ensures accepted ==> cells == Place(old(cells), i, j, MarkFor(old(turn))) && turn == old(turn) + 1
      ensures accepted ==> match Winner(cells)
                           case Some(m) => gameOver && winner == Some(m) && m == MarkFor(old(turn))
                           case None => winner == None && gameOver == (turn == 16)
    {
      if !gameStarted || gameOver || board[i, j] != Empty {
        return false;
      }
      Play(i, j);
      accepted := true;
    }

    /** The move itself: write the current mark into the cell and advance the
        turn; then a winning line ends the game with that winner, and otherwise
        a full board ends it as a draw. */
    method Play(i: int, j: int)
      requires Valid() && InRange(i, j) && gameStarted && !gameOver && cells[i][j] == Empty
      modifies this, board
      ensures Valid() && board == old(board) && gameStarted
      ensures cells == Place(old(cells), i, j, MarkFor(old(turn))) && turn == old(turn) + 1
      ensures match Winner(cells)
              case Some(m) => gameOver && winner == Some(m) && m == MarkFor(old(turn))
              case None => winner == None && gameOver == (turn == 16)
    {
      var current := MarkFor(turn);
      board[i, j] := current;
      ghost var h := Place(cells, i, j, current);
      SameCells(Snapshot(board), h);
      turn := turn + 1;
      var w := CheckWin(board);
      MoveConsistent(old(cells), old(turn), i, j, h, w);
      cells := h;
      if w.Some? {
        gameOver := true;
        winner := w;
      } else if turn == 16 {
        gameOver := true;
        winner := None;
      }
    }

    /** Which screen the page shows, and what it says. */
    function Status(): (p: Phase)
      reads this, board
      requires Valid()
      ensures p == NotStarted <==> !gameStarted
      ensures p.InProgress? ==> p.next == MarkFor(turn) && turn < 16 && Winner(cells) == None
      ensures p.Won? ==> Winner(cells) == Some(p.mark) && p.mark == MarkFor(turn - 1) && turn >= 7
      ensures p.Drawn? ==> turn == 16 && Count(cells, Empty) == 0 && Winner(cells) == None
    {
      if !gameStarted then NotStarted
      else if !gameOver then InProgress(MarkFor(turn))
      else if winner.Some? then Won(winner.value)
      else
        CountTotal(cells);
        Drawn
    }
  }
}
