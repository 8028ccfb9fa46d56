/** The 4×4 playing field of the OX bingo game: cells and marks, the board as
    a value (a snapshot of the session's array), writing one cell, and counting
    the cells that hold a given value. */
module Board {

  datatype Option<+T> = None | Some(value: T)

  /** A cell is empty (the empty string on the app's board) or holds a mark. */
  datatype Cell = Empty | O | X

  /** A mark is what a player writes into a cell, and what can win a line. */
  type Mark = c: Cell | c != Empty witness O

  /** A board snapshot: four rows of four cells, indexed [row][column]. */
  type Grid = g: seq<seq<Cell>> | |g| == 4 && forall r :: 0 <= r < 4 ==> |g[r]| == 4
    witness seq(4, _ => seq(4, _ => Empty))

  predicate InRange(r: int, c: int)
  {
    0 <= r < 4 && 0 <= c < 4
  }

  /** The current contents of a 4×4 board array, as a value. */
  function Snapshot(a: array2<Cell>): (g: Grid)
    requires a.Length0 == 4 && a.Length1 == 4
    reads a
    ensures forall r, c :: InRange(r, c) ==> g[r][c] == a[r, c]
  {
    seq(4, r requires 0 <= r < 4 reads a => seq(4, c requires 0 <= c < 4 reads a => a[r, c]))
  }

  /** Two boards are equal when they agree cell by cell. */
  lemma SameCells(g: Grid, h: Grid)
    requires forall r, c :: InRange(r, c) ==> g[r][c] == h[r][c]
    ensures g == h
  {
    forall r | 0 <= r < 4
      ensures g[r] == h[r]
    {
      assert forall c :: 0 <= c < 4 ==> InRange(r, c) && g[r][c] == h[r][c];
    }
  }

  /** The board after writing mark m into cell (r, c). */
  function Place(g: Grid, r: int, c: int, m: Mark): (h: Grid)
    requires InRange(r, c)
    ensures h[r][c] == m
    ensures forall r', c' :: InRange(r', c') && (r' != r || c' != c) ==> h[r'][c'] == g[r'][c']
  {
    g[r := g[r][c := m]]
  }

  /** How many cells of one row hold x. */
  function CountRow(s: seq<Cell>, x: Cell): (n: nat)
    ensures n <= |s|
  {
    if s == [] then 0 else (if s[0] == x then 1 else 0) + CountRow(s[1..], x)
  }

  /** How many cells of a board (or of some of its rows) hold x. */
  function Count(g: seq<seq<Cell>>, x: Cell): nat
  {
    if g == [] then 0 else CountRow(g[0], x) + Count(g[1..], x)
  }

  lemma {:induction false} CountRowUpdate(s: seq<Cell>, k: int, v: Cell, x: Cell)
    requires 0 <= k < |s|
    ensures CountRow(s[k := v], x) + (if s[k] == x then 1 else 0)
         == CountRow(s, x) + (if v == x then 1 else 0)
  {
    if k > 0 {
      CountRowUpdate(s[1..], k - 1, v, x);
      assert s[k := v][1..] == s[1..][k - 1 := v];
    } else {
      assert s[k := v][1..] == s[1..];
    }
  }

  lemma {:induction false} CountUpdate(g: seq<seq<Cell>>, r: int, row: seq<Cell>, x: Cell)
    requires 0 <= r < |g|
    ensures Count(g[r := row], x) + CountRow(g[r], x) == Count(g, x) + CountRow(row, x)
  {
    if r > 0 {
      CountUpdate(g[1..], r - 1, row, x);
      assert g[r := row][1..] == g[1..][r - 1 := row];
    } else {
      assert g[r := row][1..] == g[1..];
    }
  }

  /** Writing m into an empty cell adds one m, removes one Empty and leaves
      every other count alone. */
  lemma CountPlace(g: Grid, r: int, c: int, m: Mark, x: Cell)
    requires InRange(r, c) && g[r][c] == Empty
    ensures Count(Place(g, r, c, m), x)
         == Count(g, x) + (if x == m then 1 else 0) - (if x == Empty then 1 else 0)
  {
    CountRowUpdate(g[r], c, m, x);
    CountUpdate(g, r, g[r][c := m], x);
  }

  lemma {:induction false} CountRowTotal(s: seq<Cell>)
    ensures CountRow(s, Empty) + CountRow(s, O) + CountRow(s, X) == |s|
  {
    if s != [] {
      CountRowTotal(s[1..]);
    }
  }

  /** Every cell is Empty, O or X, so the three counts add up to 16. */
  lemma {:induction false} CountTotal(g: seq<seq<Cell>>)
    requires forall r :: 0 <= r < |g| ==> |g[r]| == 4
    ensures Count(g, Empty) + Count(g, O) + Count(g, X) == 4 * |g|
  {
    if g != [] {
      CountRowTotal(g[0]);
      CountTotal(g[1..]);
    }
  }

  lemma {:induction false} CountRowAbsent(s: seq<Cell>, x: Cell)
    requires forall k :: 0 <= k < |s| ==> s[k] != x
    ensures CountRow(s, x) == 0
  {
    if s != [] {
      CountRowAbsent(s[1..], x);
    }
  }

  lemma {:induction false} CountAbsent(g: seq<seq<Cell>>, x: Cell)
    requires forall r, c :: 0 <= r < |g| && 0 <= c < |g[r]| ==> g[r][c] != x
    ensures Count(g, x) == 0
  {
    if g != [] {
      CountRowAbsent(g[0], x);
      CountAbsent(g[1..], x);
    }
  }

  lemma {:induction false} CountRowAll(s: seq<Cell>, x: Cell)
    requires forall k :: 0 <= k < |s| ==> s[k] == x
    ensures CountRow(s, x) == |s|
  {
    if s != [] {
      CountRowAll(s[1..], x);
    }
  }

  lemma {:induction false} CountRowPresent(s: seq<Cell>, k: int, x: Cell)
    requires 0 <= k < |s| && s[k] == x
    ensures CountRow(s, x) >= 1
  {
    if k > 0 {
      CountRowPresent(s[1..], k - 1, x);
    }
  }

  lemma {:induction false} CountAtLeastRow(g: seq<seq<Cell>>, r: int, x: Cell)
    requires 0 <= r < |g|
    ensures Count(g, x) >= CountRow(g[r], x)
  {
    if r > 0 {
      CountAtLeastRow(g[1..], r - 1, x);
    }
  }

  /** A value present in every row is counted at least once per row. */
  lemma {:induction false} CountEveryRow(g: seq<seq<Cell>>, x: Cell)
    requires forall r :: 0 <= r < |g| ==> CountRow(g[r], x) >= 1
    ensures Count(g, x) >= |g|
  {
    if g != [] {
      CountEveryRow(g[1..], x);
    }
  }
}
