/** The pure rules of the game, stated on board values: which tiles pair with
    each other, when a tile is free to be selected, and how many tiles a
    board still holds. */
module Rules {
  import opened Tiles
  import opened Hex

  /** A board value: 13 rows of 13 tiles, indexed [row][col]. */
  type Grid = seq<seq<Tile>>

  predicate IsGrid(g: Grid) {
    |g| == 13 && forall r :: 0 <= r < 13 ==> |g[r]| == 13
  }

  predicate OnGrid(p: Pos) { 0 <= p.0 < 13 && 0 <= p.1 < 13 }

  function At(g: Grid, p: Pos): Tile
    requires IsGrid(g) && OnGrid(p)
  {
    g[p.0][p.1]
  }

  /** Rows and columns 0 and 12 are Empty. */
  ghost predicate Bordered(g: Grid)
    requires IsGrid(g)
  {
    forall p :: OnGrid(p) && !Interior(p) ==> At(g, p) == Empty
  }

  /** The board value with one cell replaced. */
  function Put(g: Grid, p: Pos, t: Tile): (h: Grid)
    requires IsGrid(g) && OnGrid(p)
    ensures IsGrid(h)
    ensures forall q :: OnGrid(q) ==> At(h, q) == if q == p then t else At(g, q)
  {
    g[p.0 := g[p.0][p.1 := t]]
  }

  /** Board values that agree on every cell are equal. */
  lemma GridsEqual(g: Grid, h: Grid)
    requires IsGrid(g) && IsGrid(h)
    requires forall p :: OnGrid(p) ==> At(g, p) == At(h, p)
    ensures g == h
  {
    forall r | 0 <= r < 13 ensures g[r] == h[r] {
      forall c | 0 <= c < 13 ensures g[r][c] == h[r][c] {
        assert At(g, (r, c)) == At(h, (r, c));
      }
    }
  }

  /** Emptying a cell, or writing inside the border, keeps the border Empty. */
  lemma PutBordered(g: Grid, p: Pos, t: Tile)
    requires IsGrid(g) && Bordered(g) && OnGrid(p) && (Interior(p) || t == Empty)
    ensures Bordered(Put(g, p, t))
  {
  }

  // ---------------------------------------------------------------- matching

  /** The matching rule, case by case. */
  predicate MatchSpec(a: Tile, b: Tile, nextMetal: Tile) {
    || (a == b && IsBasic(a))
    || (a == Salt && IsElement(b)) || (b == Salt && IsElement(a))
    || (a == Vitae && b == Mors) || (a == Mors && b == Vitae)
    || (a == Quicksilver && b == nextMetal) || (b == Quicksilver && a == nextMetal)
  }

  /** `can_match` on the two tiles: identical basics pair; otherwise the
      tiles are ordered so that Quicksilver, Mors or Salt comes second and
      the three cross-kind rules are tried. While the metal to claim is a
      metal, this is exactly the case list of MatchSpec. */
  function CanMatch(a: Tile, b: Tile, nextMetal: Tile): (r: bool)
    ensures IsMetal(nextMetal) ==> (r <==> MatchSpec(a, b, nextMetal))
  {
    if a == b && Air <= a <= Salt then true
    else
      var (t1, t2) := if a == Quicksilver || a == Mors || a == Salt then (b, a) else (a, b);
      || (t2 == Salt && Air <= t1 <= Earth)
      || (t1 == Vitae && t2 == Mors)
      || (t2 == Quicksilver && t1 == nextMetal)
  }

  /** Swapping the two cells never changes the verdict while the metal to
      claim is a metal, which it always is during play. */
  lemma CanMatchSymmetric(a: Tile, b: Tile, nextMetal: Tile)
    requires IsMetal(nextMetal)
    ensures CanMatch(a, b, nextMetal) == CanMatch(b, a, nextMetal)
  {
  }

  /** The normalising swap does not make the rule symmetric for every
      integer: with Salt as the metal to claim, Quicksilver pairs with Salt
      in one order only. */
  lemma CanMatchOrderMatters()
    ensures CanMatch(Quicksilver, Salt, Salt) && !CanMatch(Salt, Quicksilver, Salt)
  {
  }

  /** Empty never matches anything. */
  lemma EmptyNeverMatches(t: Tile, nextMetal: Tile)
    requires nextMetal != Empty
    ensures !CanMatch(Empty, t, nextMetal) && !CanMatch(t, Empty, nextMetal)
  {
  }

  // --------------------------------------------------------------- unlocking

  /** The six neighbour cells in the fixed cyclic order. */
  function NeighbourCells(p: Pos): (ns: seq<Pos>)
    ensures |ns| == 6
  {
    [(p.0 - 1, p.1 - 1), (p.0 - 1, p.1), (p.0, p.1 + 1),
     (p.0 + 1, p.1 + 1), (p.0 + 1, p.1), (p.0, p.1 - 1)]
  }

  /** The tiles on the six neighbours of an interior cell, in cyclic order. */
  function Neighbours(g: Grid, p: Pos): (ns: seq<Tile>)
    requires IsGrid(g) && Interior(p)
    ensures |ns| == 6
    ensures forall k :: 0 <= k < 6 ==> OnGrid(NeighbourCells(p)[k]) && ns[k] == At(g, NeighbourCells(p)[k])
  {
    seq(6, k requires 0 <= k < 6 => At(g, NeighbourCells(p)[k]))
  }

  /** Neighbours k, k+1 and k+2 (cyclically) are all Empty. */
  predicate EmptyRun(ns: seq<Tile>, k: int)
    requires |ns| == 6 && 0 <= k < 6
  {
    ns[k] == Empty && ns[(k + 1) % 6] == Empty && ns[(k + 2) % 6] == Empty
  }

  /** Entries j, j+1 and j+2 of a list are all Empty. */
  predicate EmptyAround(around: seq<Tile>, j: int)
    requires 0 <= j && j + 3 <= |around|
  {
    around[j] == Empty && around[j + 1] == Empty && around[j + 2] == Empty
  }

  /** The six neighbours followed by the first two again hold every cyclic
      window of three as three adjacent entries. */
  lemma EmptyRunAround(ns: seq<Tile>, j: int)
    requires |ns| == 6 && 0 <= j < 6
    ensures EmptyRun(ns, j) <==> EmptyAround(ns + ns[..2], j)
  {
    var around := ns + ns[..2];
    assert around[6] == ns[0] && around[7] == ns[1];
    if j == 4 {
      assert (j + 1) % 6 == 5 && (j + 2) % 6 == 0;
    } else if j == 5 {
      assert (j + 1) % 6 == 0 && (j + 2) % 6 == 1;
    } else {
      assert (j + 1) % 6 == j + 1 && (j + 2) % 6 == j + 2;
    }
  }

  /** The six neighbour cells followed by the first two again. */
  function AroundCells(p: Pos): (cs: seq<Pos>)
    ensures |cs| == 8
  {
    NeighbourCells(p) + NeighbourCells(p)[..2]
  }

  /** Along AroundCells lie the neighbour tiles followed by the first two
      again, and an open side is three adjacent Empty entries of that list. */
  lemma AroundTiles(g: Grid, p: Pos) returns (around: seq<Tile>)
    requires IsGrid(g) && Interior(p)
    ensures |around| == 8
    ensures forall k :: 0 <= k < 8 ==> OnGrid(AroundCells(p)[k]) && around[k] == At(g, AroundCells(p)[k])
    ensures OpenSide(Neighbours(g, p)) <==> exists j :: 0 <= j < 6 && EmptyAround(around, j)
  {
    var ns := Neighbours(g, p);
    around := ns + ns[..2];
    forall j | 0 <= j < 6 ensures EmptyRun(ns, j) <==> EmptyAround(around, j) {
      EmptyRunAround(ns, j);
    }
  }

  /** Some three cyclically consecutive neighbours are Empty. */
  predicate OpenSide(ns: seq<Tile>)
    requires |ns| == 6
  {
    exists k :: 0 <= k < 6 && EmptyRun(ns, k)
  }

  /** The unlock rule for a tile given its neighbours: Empty is never free,
      the restart marker always is, a metal other than the one to claim is
      locked, and anything else is free when it has an open side. */
  predicate UnlockRule(t: Tile, ns: seq<Tile>, nextMetal: Tile)
    requires |ns| == 6
  {
    if t == Empty then false
    else if t == Restart then true
    else if IsMetal(t) && t != nextMetal then false
    else OpenSide(ns)
  }

  predicate Unlocked(g: Grid, nextMetal: Tile, p: Pos)
    requires IsGrid(g) && Interior(p)
  {
    UnlockRule(At(g, p), Neighbours(g, p), nextMetal)
  }

  /** Whether a cell has an open side depends only on which cells are Empty. */
  lemma OpenSideByEmptiness(g: Grid, h: Grid, p: Pos)
    requires IsGrid(g) && IsGrid(h) && Interior(p)
    requires forall q :: OnGrid(q) ==> (At(g, q) == Empty <==> At(h, q) == Empty)
    ensures OpenSide(Neighbours(g, p)) == OpenSide(Neighbours(h, p))
  {
    var ns, ms := Neighbours(g, p), Neighbours(h, p);
    forall k | 0 <= k < 6 ensures EmptyRun(ns, k) == EmptyRun(ms, k) {
      var k1, k2 := (k + 1) % 6, (k + 2) % 6;
      assert ns[k] == Empty <==> ms[k] == Empty;
      assert ns[k1] == Empty <==> ms[k1] == Empty;
      assert ns[k2] == Empty <==> ms[k2] == Empty;
    }
  }

  /** Emptying another cell never locks a free tile. */
  lemma {:induction false} UnlockedAfterEmptying(g: Grid, nextMetal: Tile, p: Pos, q: Pos)
    requires IsGrid(g) && Interior(p) && OnGrid(q) && q != p
    requires Unlocked(g, nextMetal, p)
    ensures Unlocked(Put(g, q, Empty), nextMetal, p)
  {
    var h := Put(g, q, Empty);
    var ns, ms := Neighbours(g, p), Neighbours(h, p);
    assert forall k :: 0 <= k < 6 && ns[k] == Empty ==> ms[k] == Empty;
    if At(g, p) != Restart {
      var k :| 0 <= k < 6 && EmptyRun(ns, k);
      assert EmptyRun(ms, k);
    }
  }

  // ------------------------------------------------------------------ moves

  /** A playable cell whose tile is free to be selected. */
  predicate Selectable(g: Grid, nextMetal: Tile, p: Pos)
    requires IsGrid(g)
  {
    InWindow(p) && Unlocked(g, nextMetal, p)
  }

  /** A legal move: two selectable cells, in row-major order, whose tiles match. */
  predicate IsMove(g: Grid, nextMetal: Tile, p: Pos, q: Pos)
    requires IsGrid(g)
  {
    Selectable(g, nextMetal, p) && Selectable(g, nextMetal, q) && Before(p, q)
    && CanMatch(At(g, p), At(g, q), nextMetal)
  }

  /** Every pair a < b of `cells` that comes before (i, j) in row-major
      order of indices and whose tiles match is in `moves`. */
  ghost predicate ListedBefore(g: Grid, nextMetal: Tile, cells: seq<Pos>, moves: seq<(Pos, Pos)>, i: int, j: int)
    requires IsGrid(g)
  {
    forall a, b :: 0 <= a < b < |cells| && (a < i || (a == i && b < j)) && MatchAt(g, nextMetal, cells[a], cells[b]) ==> (cells[a], cells[b]) in moves
  }

  /** Both cells are on the grid and their tiles match. */
  predicate MatchAt(g: Grid, nextMetal: Tile, p: Pos, q: Pos)
    requires IsGrid(g)
  {
    OnGrid(p) && OnGrid(q) && CanMatch(At(g, p), At(g, q), nextMetal)
  }

  /** Trying the pair (i, j) moves on to (i, j + 1). */
  lemma ListedStep(g: Grid, nextMetal: Tile, cells: seq<Pos>, moves: seq<(Pos, Pos)>, i: int, j: int)
    requires IsGrid(g) && 0 <= i < j < |cells| && ListedBefore(g, nextMetal, cells, moves, i, j)
    ensures MatchAt(g, nextMetal, cells[i], cells[j]) ==>
      ListedBefore(g, nextMetal, cells, moves + [(cells[i], cells[j])], i, j + 1)
    ensures !MatchAt(g, nextMetal, cells[i], cells[j]) ==> ListedBefore(g, nextMetal, cells, moves, i, j + 1)
  {
    var more := moves + [(cells[i], cells[j])];
    forall a, b | 0 <= a < b < |cells| && (a < i || (a == i && b < j)) && MatchAt(g, nextMetal, cells[a], cells[b])
      ensures (cells[a], cells[b]) in more
    {
      assert (cells[a], cells[b]) in moves;
    }
  }

  /** Finishing the pairs (i, b) for every b moves on to i + 1. */
  lemma {:induction false} ListedNextRow(g: Grid, nextMetal: Tile, cells: seq<Pos>, moves: seq<(Pos, Pos)>, i: int)
    requires IsGrid(g) && ListedBefore(g, nextMetal, cells, moves, i, |cells|)
    ensures ListedBefore(g, nextMetal, cells, moves, i + 1, 0)
  {
  }

  /** When `cells` lists exactly the selectable cells in row-major order,
      a list holding each legal move made of two of them holds every legal
      move. */
  lemma AllMovesListed(g: Grid, nextMetal: Tile, cells: seq<Pos>, moves: seq<(Pos, Pos)>)
    requires IsGrid(g) && Ascending(cells)
    requires forall p :: p in cells <==> Selectable(g, nextMetal, p)
    requires ListedBefore(g, nextMetal, cells, moves, |cells|, 0)
    ensures forall p, q :: IsMove(g, nextMetal, p, q) ==> (p, q) in moves
  {
    forall p, q | IsMove(g, nextMetal, p, q) ensures (p, q) in moves {
      assert p in cells && q in cells;
      var a :| 0 <= a < |cells| && cells[a] == p;
      var b :| 0 <= b < |cells| && cells[b] == q;
      assert !Before(q, p) && p != q;
    }
  }

  ghost predicate NoMove(g: Grid, nextMetal: Tile)
    requires IsGrid(g)
  {
    forall p, q :: !IsMove(g, nextMetal, p, q)
  }

  /** A move is made of two different occupied cells inside the border. */
  lemma MoveCellsOccupied(g: Grid, nextMetal: Tile, p: Pos, q: Pos)
    requires IsGrid(g) && IsMove(g, nextMetal, p, q)
    ensures p != q && Interior(p) && Interior(q) && At(g, p) != Empty && At(g, q) != Empty
  {
  }

  /** With no move listed in a list of all legal moves, there is none. */
  lemma NoMoveListed(g: Grid, nextMetal: Tile, moves: seq<(Pos, Pos)>)
    requires IsGrid(g) && moves == []
    requires forall m :: m in moves <==> IsMove(g, nextMetal, m.0, m.1)
    ensures NoMove(g, nextMetal)
  {
    forall p, q ensures !IsMove(g, nextMetal, p, q) {
      assert (p, q) !in moves;
    }
  }

  // ---------------------------------------------------------------- counting

  /** Number of non-Empty tiles in a row. */
  function RowCount(row: seq<Tile>): (n: nat)
    ensures n <= |row|
  {
    if row == [] then 0 else RowCount(row[..|row| - 1]) + (if row[|row| - 1] != Empty then 1 else 0)
  }

  /** Number of non-Empty cells on the board. */
  function Occupied(g: seq<seq<Tile>>): nat {
    if g == [] then 0 else Occupied(g[..|g| - 1]) + RowCount(g[|g| - 1])
  }

  lemma {:induction false} RowCountPut(row: seq<Tile>, c: int, t: Tile)
    requires 0 <= c < |row|
    ensures RowCount(row[c := t]) ==
            RowCount(row) - (if row[c] != Empty then 1 else 0) + (if t != Empty then 1 else 0)
  {
    var n := |row| - 1;
    if c < n {
      assert row[c := t][..n] == row[..n][c := t];
      RowCountPut(row[..n], c, t);
    } else {
      assert row[c := t][..n] == row[..n];
    }
  }

  lemma {:induction false} OccupiedPut(g: seq<seq<Tile>>, r: int, c: int, t: Tile)
    requires 0 <= r < |g| && 0 <= c < |g[r]|
    ensures Occupied(g[r := g[r][c := t]]) ==
            Occupied(g) - (if g[r][c] != Empty then 1 else 0) + (if t != Empty then 1 else 0)
  {
    var n := |g| - 1;
    var h := g[r := g[r][c := t]];
    if r < n {
      assert h[..n] == g[..n][r := g[r][c := t]];
      OccupiedPut(g[..n], r, c, t);
    } else {
      assert h[..n] == g[..n];
      RowCountPut(g[r], c, t);
    }
  }

  /** Emptying an occupied cell lowers the tile count by exactly one. */
  lemma EmptyingCountsDown(g: Grid, p: Pos)
    requires IsGrid(g) && OnGrid(p) && At(g, p) != Empty
    ensures Occupied(Put(g, p, Empty)) == Occupied(g) - 1
  {
    OccupiedPut(g, p.0, p.1, Empty);
  }

  /** Playing a move removes exactly two tiles. */
  lemma MoveCountsDown(g: Grid, nextMetal: Tile, p: Pos, q: Pos)
    requires IsGrid(g) && IsMove(g, nextMetal, p, q)
    ensures Occupied(Put(Put(g, p, Empty), q, Empty)) == Occupied(g) - 2
  {
    MoveCellsOccupied(g, nextMetal, p, q);
    EmptyingCountsDown(g, p);
    EmptyingCountsDown(Put(g, p, Empty), q);
  }
}
