/** The win evaluator: which mark, if any, fills a whole row, column or
    diagonal of a board, looked for in the order check_win scans the lines. */
module WinCheck {
  import opened Board

  /** The ten lines of the board. */
  datatype Line = Row(r: int) | Column(c: int) | MainDiagonal | AntiDiagonal

  predicate ValidLine(l: Line)
  {
    match l
    case Row(r) => 0 <= r < 4
    case Column(c) => 0 <= c < 4
    case _ => true
  }

  /** The k-th cell of line l, as (row, column); the cells are counted from
      row 0 down (the anti-diagonal starts in the top-right corner). */
  function Pos(l: Line, k: int): (p: (int, int))
    requires ValidLine(l) && 0 <= k < 4
    ensures InRange(p.0, p.1)
    ensures l.Row? ==> p.0 == l.r && p.1 == k
    ensures !l.Row? ==> p.0 == k
    ensures l.Column? ==> p.1 == l.c
    ensures l.MainDiagonal? ==> p.1 == p.0
    ensures l.AntiDiagonal? ==> p.0 + p.1 == 3
  {
    match l
    case Row(r) => (r, k)
    case Column(c) => (k, c)
    case MainDiagonal => (k, k)
    case AntiDiagonal => (k, 3 - k)
  }

  function CellOn(g: Grid, l: Line, k: int): Cell
    requires ValidLine(l) && 0 <= k < 4
  {
    g[Pos(l, k).0][Pos(l, k).1]
  }

  /** Line l is filled entirely with mark m. */
  predicate Uniform(g: Grid, l: Line, m: Mark)
    requires ValidLine(l)
  {
    CellOn(g, l, 0) == m && CellOn(g, l, 1) == m && CellOn(g, l, 2) == m && CellOn(g, l, 3) == m
  }

  /** Line l is filled entirely with one mark. */
  predicate Completed(g: Grid, l: Line)
    requires ValidLine(l)
  {
    Uniform(g, l, O) || Uniform(g, l, X)
  }

  /** The test applied to one line: the first cell is not empty and every cell
      of the line equals the first. It finds the mark of a uniform line. */
  function LineWinner(g: Grid, l: Line): (w: Option<Mark>)
    requires ValidLine(l)
    ensures w.Some? ==> Uniform(g, l, w.value)
    ensures w.None? ==> !Completed(g, l)
  {
    var first := CellOn(g, l, 0);
    if first != Empty && CellOn(g, l, 1) == first && CellOn(g, l, 2) == first && CellOn(g, l, 3) == first then
      var m: Mark := first; Some(m)
    else None
  }

  /** The test finds exactly the uniform lines, and the mark filling them. */
  lemma LineWinnerMeaning(g: Grid, l: Line)
    requires ValidLine(l)
    ensures forall m: Mark :: LineWinner(g, l) == Some(m) <==> Uniform(g, l, m)
    ensures LineWinner(g, l) == None <==> !Completed(g, l)
  {
  }

  /** Row i and then column i for i = 0, 1, 2, 3, then the main diagonal,
      then the anti-diagonal. */
  const ScanOrder: seq<Line> :=
    [Row(0), Column(0), Row(1), Column(1), Row(2), Column(2), Row(3), Column(3),
     MainDiagonal, AntiDiagonal]

  predicate AllValid(lines: seq<Line>)
  {
    forall k :: 0 <= k < |lines| ==> ValidLine(lines[k])
  }

  lemma ScanOrderAt(i: int)
    requires 0 <= i < 4
    ensures |ScanOrder| == 10
    ensures ScanOrder[2 * i] == Row(i) && ScanOrder[2 * i + 1] == Column(i)
    ensures ScanOrder[8] == MainDiagonal && ScanOrder[9] == AntiDiagonal
  {
    if i == 0 {
    } else if i == 1 {
    } else if i == 2 {
    } else {
    }
  }

  /** The scan order visits every line of the board and nothing else. */
  lemma ScanOrderCoversAllLines(l: Line)
    ensures ValidLine(l) <==> l in ScanOrder
  {
    if ValidLine(l) {
      match l
      case Row(r) => ScanOrderAt(r);
      case Column(c) => ScanOrderAt(c);
      case _ => ScanOrderAt(0);
    }
  }

  /** The mark of the first uniform line among `lines`, if there is one. */
  function FirstWinner(g: Grid, lines: seq<Line>): Option<Mark>
    requires AllValid(lines)
  {
    if lines == [] then None
    else match LineWinner(g, lines[0])
      case Some(m) => Some(m)
      case None => FirstWinner(g, lines[1..])
  }

  /** What check_win returns for a board: the mark of the first line, in scan
      order, that is filled with one mark. A returned mark fills a whole row,
      column or diagonal. */
  function Winner(g: Grid): (w: Option<Mark>)
    ensures w.Some? ==> exists l :: ValidLine(l) && Uniform(g, l, w.value)
  {
    assert AllValid(ScanOrder) by {
      forall k | 0 <= k < |ScanOrder| ensures ValidLine(ScanOrder[k]) {
        ScanOrderCoversAllLines(ScanOrder[k]);
      }
    }
    var w := FirstWinner(g, ScanOrder);
    if w.Some? then
      FirstWinnerSome(g, ScanOrder, w.value);
      var k :| DecidesAt(g, ScanOrder, k, w.value);
      assert ValidLine(ScanOrder[k]);
      w
    else w
  }

  /** Line k of the list is filled with m and no line before it is filled. */
  predicate DecidesAt(g: Grid, lines: seq<Line>, k: int, m: Mark)
    requires AllValid(lines)
  {
    0 <= k < |lines| && Uniform(g, lines[k], m) && forall j :: 0 <= j < k ==> !Completed(g, lines[j])
  }

  /** The result is None exactly when no line in the list is uniform. */
  lemma {:induction false} FirstWinnerNone(g: Grid, lines: seq<Line>)
    requires AllValid(lines)
    ensures FirstWinner(g, lines) == None <==> forall k :: 0 <= k < |lines| ==> !Completed(g, lines[k])
  {
    if lines != [] {
      FirstWinnerNone(g, lines[1..]);
      LineWinnerMeaning(g, lines[0]);
      if LineWinner(g, lines[0]) == None {
        forall k | 1 <= k < |lines| ensures lines[k] == lines[1..][k - 1] { }
      }
    }
  }

  /** The result is Some(m) exactly when a line filled with m comes before
      every other filled line of the list. */
  lemma {:induction false} FirstWinnerSome(g: Grid, lines: seq<Line>, m: Mark)
    requires AllValid(lines)
    ensures FirstWinner(g, lines) == Some(m) <==> exists k :: DecidesAt(g, lines, k, m)
  {
    if lines != [] {
      FirstWinnerSome(g, lines[1..], m);
      LineWinnerMeaning(g, lines[0]);
      var first := LineWinner(g, lines[0]);
      if first.Some? {
        if first.value == m {
          assert DecidesAt(g, lines, 0, m);
        }
      } else {
        if FirstWinner(g, lines) == Some(m) {
          var k :| DecidesAt(g, lines[1..], k, m);
          forall j | 0 <= j < k + 1 ensures !Completed(g, lines[j]) {
            if j > 0 { assert lines[j] == lines[1..][j - 1]; }
          }
          assert DecidesAt(g, lines, k + 1, m);
        }
        if exists k :: DecidesAt(g, lines, k, m) {
          var k :| DecidesAt(g, lines, k, m);
          assert k > 0;
          forall j | 0 <= j < k - 1 ensures !Completed(g, lines[1..][j]) {
            assert lines[1..][j] == lines[j + 1];
          }
          assert DecidesAt(g, lines[1..], k - 1, m);
        }
      }
    }
  }

  /** The evaluator returns m exactly when some line is filled with m and no
      line earlier in the scan order is filled. */
  lemma WinnerIsFirstInScanOrder(g: Grid, m: Mark)
    ensures Winner(g) == Some(m) <==> exists k :: DecidesAt(g, ScanOrder, k, m)
  {
    FirstWinnerSome(g, ScanOrder, m);
  }

  /** The evaluator returns None exactly when no row, column or diagonal is
      filled with one mark. */
  lemma WinnerNoneIff(g: Grid)
    ensures Winner(g) == None <==> forall l :: ValidLine(l) ==> !Completed(g, l)
  {
    FirstWinnerNone(g, ScanOrder);
    forall l | ValidLine(l) && Winner(g) == None
      ensures !Completed(g, l)
    {
      ScanOrderCoversAllLines(l);
    }
  }

  /** Nothing is returned for a board without marks. */
  lemma NoMarksNoWinner(g: Grid)
    requires forall r, c :: InRange(r, c) ==> g[r][c] == Empty
    ensures Winner(g) == None
  {
    forall l | ValidLine(l)
      ensures !Completed(g, l)
    {
      assert CellOn(g, l, 0) == Empty;
    }
    WinnerNoneIff(g);
  }

  /** When the board had no winner, writing m into an empty cell can only make
      m the winner: every newly filled line passes through that cell. */
  lemma MoveWinnerIsMover(g: Grid, r: int, c: int, m: Mark)
    requires InRange(r, c) && g[r][c] == Empty && Winner(g) == None
    ensures Winner(Place(g, r, c, m)) in {None, Some(m)}
  {
    var h := Place(g, r, c, m);
    if Winner(h) != None {
      var m' := Winner(h).value;
      var l :| ValidLine(l) && Uniform(h, l, m');
      WinnerNoneIff(g);
      assert !Uniform(g, l, m');
      var k := if CellOn(g, l, 0) != m' then 0 else if CellOn(g, l, 1) != m' then 1
               else if CellOn(g, l, 2) != m' then 2 else 3;
      assert CellOn(g, l, k) != m' && CellOn(h, l, k) == m';
      assert Pos(l, k) == (r, c);
    }
  }

  /** A winning mark fills four cells. */
  lemma WinNeedsFourMarks(g: Grid, m: Mark)
    requires Winner(g) == Some(m)
    ensures Count(g, m) >= 4
  {
    var l :| ValidLine(l) && Uniform(g, l, m);
    if l.Row? {
      forall k | 0 <= k < 4 ensures g[l.r][k] == m {
        assert CellOn(g, l, k) == m;
      }
      CountRowAll(g[l.r], m);
      CountAtLeastRow(g, l.r, m);
    } else {
      forall k | 0 <= k < 4 ensures CountRow(g[k], m) >= 1 {
        assert CellOn(g, l, k) == m;
        CountRowPresent(g[k], Pos(l, k).1, m);
      }
      CountEveryRow(g, m);
    }
  }

  /** The one-line test written out over the four cells, as check_win does. */
  lemma LineTest(g: Grid, l: Line, a: Cell, b: Cell, c: Cell, d: Cell)
    requires ValidLine(l)
    requires CellOn(g, l, 0) == a && CellOn(g, l, 1) == b && CellOn(g, l, 2) == c && CellOn(g, l, 3) == d
    ensures LineWinner(g, l).Some? <==> a != Empty && b == a && c == a && d == a
    ensures LineWinner(g, l).Some? ==> LineWinner(g, l).value == a
  {
  }

  /** One step of the scan: the remaining lines from position n on decide as
      line n does if it is uniform, and as the lines after it otherwise. */
  lemma ScanStep(g: Grid, n: int)
    requires 0 <= n < |ScanOrder| && AllValid(ScanOrder)
    ensures AllValid(ScanOrder[n..]) && AllValid(ScanOrder[n + 1..])
    ensures FirstWinner(g, ScanOrder[n..]) ==
            match LineWinner(g, ScanOrder[n])
            case Some(m) => Some(m)
            case None => FirstWinner(g, ScanOrder[n + 1..])
  {
    assert ScanOrder[n..][1..] == ScanOrder[n + 1..];
  }

  /** check_win on the session's board array: rows and columns
      in turn, then the two diagonals, returning the first mark found. */
  method CheckWin(board: array2<Cell>) returns (w: Option<Mark>)
    requires board.Length0 == 4 && board.Length1 == 4
    ensures w == Winner(Snapshot(board))
  {
    ghost var g := Snapshot(board);
    ScanOrderAt(0);
    assert ScanOrder[0..] == ScanOrder;
    var i := 0;
    while i < 4
      invariant 0 <= i <= 4
      invariant AllValid(ScanOrder[2 * i..]) && Winner(g) == FirstWinner(g, ScanOrder[2 * i..])
    {
      ScanOrderAt(i);
      ScanStep(g, 2 * i);
      ScanStep(g, 2 * i + 1);
      // row i
      var a, b, c, d := board[i, 0], board[i, 1], board[i, 2], board[i, 3];
      LineTest(g, Row(i), a, b, c, d);
      if a != Empty && b == a && c == a && d == a {
        return Some(a);
      }
      // column i
      a, b, c, d := board[0, i], board[1, i], board[2, i], board[3, i];
      LineTest(g, Column(i), a, b, c, d);
      if a != Empty && b == a && c == a && d == a {
        return Some(a);
      }
      i := i + 1;
    }
    ScanStep(g, 8);
    ScanStep(g, 9);
    // top-left to bottom-right
    var a, b, c, d := board[0, 0], board[1, 1], board[2, 2], board[3, 3];
    LineTest(g, MainDiagonal, a, b, c, d);
    if a != Empty && b == a && c == a && d == a {
      return Some(a);
    }
    // top-right to bottom-left
    a, b, c, d := board[0, 3], board[1, 2], board[2, 1], board[3, 0];
    LineTest(g, AntiDiagonal, a, b, c, d);
    if a != Empty && b == a && c == a && d == a {
      return Some(a);
    }
    return None;
  }
}
