/** `board_positions`: reading a layout (one string per row, '#' for an
    occupied cell, '.' for a free one, anything else ignored) into the list
    of cells that start occupied, optionally flipped with `12 - col`. */
module Layout {
  import opened Hex

  /** Number of '.' and '#' characters: the cells a layout string describes. */
  function Cells(s: string): (n: nat)
    ensures n <= |s|
  {
    if s == [] then 0
    else Cells(s[..|s| - 1]) + (if s[|s| - 1] == '.' || s[|s| - 1] == '#' then 1 else 0)
  }

  /** A layout of the catalogue: 11 strings, row r describing RowSize(r)
      cells, 54 of them occupied besides the centre (one per tile dealt). */
  ghost predicate WellFormed(layout: seq<string>) {
    && |layout| == 11 && (forall r :: 0 <= r < 11 ==> Cells(layout[r]) == RowSize(r + 1))
    && |Positions(layout, false)| == 54
  }

  /** The column a layout cell at column col is placed in. */
  function Placed(col: int, flip: bool): int {
    if flip then 12 - col else col
  }

  /** The cells row `row`'s string s contributes, its first cell being at column col0. */
  ghost function RowPositions(s: string, row: int, col0: int, flip: bool): seq<Pos>
    decreases |s|
  {
    if s == [] then []
    else
      var col := col0 + Cells(s[..|s| - 1]);
      RowPositions(s[..|s| - 1], row, col0, flip)
        + (if s[|s| - 1] == '#' && (row != 6 || col != 6) then [(row, Placed(col, flip))] else [])
  }

  /** The cells the strings of a layout contribute, their first being row 1. */
  ghost function Positions(layout: seq<string>, flip: bool): seq<Pos>
    decreases |layout|
  {
    if layout == [] then []
    else
      var row := |layout|;
      Positions(layout[..row - 1], flip) + RowPositions(layout[row - 1], row, RowOffset(row) + 1, flip)
  }

  /** `board_positions` with its two draws, the layout index and the flip,
      supplied by the caller. On a well-formed layout every cell lies inside
      the border and none is the centre, flipped or not. */
  method BoardPositions(layouts: seq<seq<string>>, index: nat, flip: bool) returns (list: seq<Pos>)
    requires index < |layouts|
    ensures list == Positions(layouts[index], flip)
    ensures WellFormed(layouts[index]) ==> forall p :: p in list ==> Interior(p) && p != Centre
  {
    var layout := layouts[index];
    list := [];
    var row := 1;
    for k := 0 to |layout|
      invariant row == k + 1
      invariant list == Positions(layout[..k], flip)
    {
      var cells := RowOf(layout[k], row, flip);
      list := list + cells;
      assert layout[..k + 1][..k] == layout[..k];
      row := row + 1;
    }
    assert layout[..|layout|] == layout;
    if WellFormed(layout) {
      PositionsInBounds(layout, flip);
    }
  }

  /** The inner loop of `board_positions`: the cells of one row's string. */
  method RowOf(s: string, row: int, flip: bool) returns (list: seq<Pos>)
    ensures list == RowPositions(s, row, RowOffset(row) + 1, flip)
  {
    list := [];
    var col := RowOffset(row) + 1;
    for i := 0 to |s|
      invariant col == RowOffset(row) + 1 + Cells(s[..i])
      invariant list == RowPositions(s[..i], row, RowOffset(row) + 1, flip)
    {
      assert s[..i + 1][..i] == s[..i];
      var character := s[i];
      if character == '.' {
        col := col + 1;
      } else if character == '#' {
        if row != 6 || col != 6 {
          list := list + [(row, if flip then 12 - col else col)];
        }
        col := col + 1;
      }
    }
    assert s[..|s|] == s;
  }

  lemma {:induction false} RowPositionsIn(s: string, row: int, col0: int, flip: bool)
    ensures forall p :: p in RowPositions(s, row, col0, flip) ==>
      p.0 == row && col0 <= Placed(p.1, flip) < col0 + Cells(s) && (row != 6 || Placed(p.1, flip) != 6)
    decreases |s|
  {
    if s != [] {
      RowPositionsIn(s[..|s| - 1], row, col0, flip);
    }
  }

  lemma {:induction false} PositionsIn(layout: seq<string>, flip: bool)
    requires |layout| <= 11
    requires forall r :: 0 <= r < |layout| ==> Cells(layout[r]) == RowSize(r + 1)
    ensures forall p :: p in Positions(layout, flip) ==>
      InWindow((p.0, Placed(p.1, flip))) && (p.0, Placed(p.1, flip)) != Centre
    decreases |layout|
  {
    if layout != [] {
      var row := |layout|;
      PositionsIn(layout[..row - 1], flip);
      RowPositionsIn(layout[row - 1], row, RowOffset(row) + 1, flip);
    }
  }

  /** Every cell of a well-formed layout is inside the border and is not the
      centre, with or without the flip; unflipped, it is a cell of its row's
      window. */
  lemma PositionsInBounds(layout: seq<string>, flip: bool)
    requires WellFormed(layout)
    ensures forall p :: p in Positions(layout, flip) ==> Interior(p) && p != Centre
    ensures !flip ==> forall p :: p in Positions(layout, flip) ==> InWindow(p)
  {
    PositionsIn(layout, flip);
    forall p | p in Positions(layout, flip) ensures Interior(p) && p != Centre {
      var q := (p.0, Placed(p.1, flip));
      assert InWindow(q) && q != Centre;
      assert p.1 == Placed(q.1, flip);
    }
  }

  /** The flip mirrors row 6 onto itself (its window is columns 1..11)... */
  lemma {:induction false} FlipMirrorsRowSix(col: int)
    requires InWindow((6, col))
    ensures InWindow((6, Placed(col, true))) && Placed(Placed(col, true), true) == col
  {
  }

  /** ...but not the shorter rows: the first cell of row 2 (column 1 of the
      window 1..7) is placed at column 11, outside that row's window. */
  lemma FlipLeavesShortRows()
    ensures RowPositions("#", 2, RowOffset(2) + 1, true) == [(2, 11)]
    ensures !InWindow((2, 11))
  {
    assert "#"[..0] == [];
  }

  /** The flip moves cells within their row and keeps their number. */
  lemma {:induction false} RowPositionsLength(s: string, row: int, col0: int, flip: bool)
    ensures |RowPositions(s, row, col0, flip)| == |RowPositions(s, row, col0, false)|
    decreases |s|
  {
    if s != [] {
      RowPositionsLength(s[..|s| - 1], row, col0, flip);
    }
  }

  lemma {:induction false} PositionsLength(layout: seq<string>, flip: bool)
    ensures |Positions(layout, flip)| == |Positions(layout, false)|
    decreases |layout|
  {
    if layout != [] {
      var row := |layout|;
      PositionsLength(layout[..row - 1], flip);
      RowPositionsLength(layout[row - 1], row, RowOffset(row) + 1, flip);
    }
  }

  /** A catalogue layout lists 54 cells, flipped or not. */
  lemma PositionsCount(layout: seq<string>, flip: bool)
    requires WellFormed(layout)
    ensures |Positions(layout, flip)| == 54
  {
    PositionsLength(layout, flip);
  }
}
