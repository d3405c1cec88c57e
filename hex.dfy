/** Geometry of the 11-row hexagonal board embedded in a 13x13 index space.
    Row r holds RowSize(r) playable cells, at columns
    RowOffset(r) + 1 .. RowOffset(r) + RowSize(r); rows and columns 0 and 12
    are border cells that stay Empty. */
module Hex {

  type Pos = (int, int)

  /** Number of playable cells in a row; zero outside rows 1..11. */
  function RowSize(row: int): (n: int)
    ensures n >= 0
    ensures n > 0 <==> 1 <= row <= 11
    ensures 1 <= row <= 11 ==> 1 <= RowOffset(row) + 1 && RowOffset(row) + n <= 11
    ensures 1 <= row <= 11 ==> n == 11 - (if row <= 6 then 6 - row else row - 6)
  {
    if row <= 0 || row > 11 then 0
    else if row <= 6 then row + 5
    else 17 - row
  }

  /** Column just before the first playable cell of a row. */
  function RowOffset(row: int): int
  {
    if row <= 6 then 0 else row - 6
  }

  /** A cell inside the border: its six neighbours are all in the 13x13 grid. */
  predicate Interior(p: Pos) { 1 <= p.0 <= 11 && 1 <= p.1 <= 11 }

  /** A playable cell of the hexagon. */
  predicate InWindow(p: Pos) {
    1 <= p.0 <= 11 && RowOffset(p.0) + 1 <= p.1 <= RowOffset(p.0) + RowSize(p.0)
  }

  /** The rows at and above the middle one start against the left border,
      the rows at and below it end against the right border. */
  lemma RowsMeetBorder(row: int)
    requires 1 <= row <= 11
    ensures row <= 6 ==> RowOffset(row) + 1 == 1
    ensures 6 <= row ==> RowOffset(row) + RowSize(row) == 11
  {
  }

  /** The playable cells form a hexagon: the cells inside the border whose
      column is within five of their row, so that each step down a row
      past the middle moves the window one column right. */
  lemma WindowDiagonal(p: Pos)
    ensures InWindow(p) <==> Interior(p) && -5 <= p.1 - p.0 <= 5
  {
  }

  /** The centre cell, where Gold sits. */
  const Centre: Pos := (6, 6)

  /** Row-major order on cells. */
  predicate Before(p: Pos, q: Pos) { p.0 < q.0 || (p.0 == q.0 && p.1 < q.1) }

  /** Cells listed in strictly increasing row-major order (hence without repeats). */
  predicate Ascending(s: seq<Pos>) {
    forall i, j :: 0 <= i < j < |s| ==> Before(s[i], s[j])
  }

  /** Appending a cell after every listed one keeps a list ascending. */
  lemma AscendingAppend(s: seq<Pos>, p: Pos)
    requires Ascending(s) && forall q :: q in s ==> Before(q, p)
    ensures Ascending(s + [p])
  {
    var t := s + [p];
    forall i, j | 0 <= i < j < |t| ensures Before(t[i], t[j]) {
      if j == |s| {
        assert t[i] in s;
      }
    }
  }

  /** The playable cells of one row, left to right. */
  function RowCells(row: int): seq<Pos> {
    seq(RowSize(row), k => (row, RowOffset(row) + 1 + k))
  }

  /** The playable cells of rows 1..rows, in row-major order. */
  function WindowCells(rows: int): seq<Pos>
    decreases rows
  {
    if rows <= 0 then [] else WindowCells(rows - 1) + RowCells(rows)
  }

  /** One row's cells are its playable cells, left to right. */
  lemma RowCellsOf(row: int)
    requires 1 <= row <= 11
    ensures forall p :: p in RowCells(row) <==> InWindow(p) && p.0 == row
    ensures Ascending(RowCells(row))
  {
    var cells := RowCells(row);
    forall p | InWindow(p) && p.0 == row ensures p in cells {
      assert cells[p.1 - RowOffset(row) - 1] == p;
    }
  }

  /** Two ascending lists, every cell of the first before every cell of the
      second, make an ascending list. */
  lemma AscendingConcat(s: seq<Pos>, t: seq<Pos>)
    requires Ascending(s) && Ascending(t) && forall p, q :: p in s && q in t ==> Before(p, q)
    ensures Ascending(s + t)
  {
    var u := s + t;
    forall i, j | 0 <= i < j < |u| ensures Before(u[i], u[j]) {
      if j < |s| {
        assert u[i] == s[i] && u[j] == s[j];
      } else if i >= |s| {
        assert u[i] == t[i - |s|] && u[j] == t[j - |s|];
      } else {
        assert u[i] in s && u[j] in t;
      }
    }
  }

  lemma {:induction false} WindowCellsOf(rows: int)
    requires 0 <= rows <= 11
    ensures forall p :: p in WindowCells(rows) <==> InWindow(p) && p.0 <= rows
    ensures Ascending(WindowCells(rows))
  {
    if rows > 0 {
      WindowCellsOf(rows - 1);
      RowCellsOf(rows);
      AscendingConcat(WindowCells(rows - 1), RowCells(rows));
    }
  }

  /** The window is inside the border and has 91 cells, listed in row-major order. */
  lemma {:induction false} WindowShape()
    ensures forall p :: InWindow(p) ==> Interior(p)
    ensures |WindowCells(11)| == 91
    ensures forall p :: p in WindowCells(11) <==> InWindow(p)
    ensures Ascending(WindowCells(11))
  {
    WindowCellsOf(11);
    var n := 0;
    for r := 1 to 12
      invariant n == |WindowCells(r - 1)|
      invariant n == if r <= 7 then (r - 1) * (r + 10) / 2 else 51 + (r - 7) * (28 - r) / 2
    {
      n := n + RowSize(r);
    }
  }
}
