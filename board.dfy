/** The `Board` class: the 13x13 grid of tiles and the metal that can be
    claimed next, with the queries the game asks of it and the moves that
    change it. */
module Boards {
  import opened Tiles
  import opened Hex
  import opened Rules
  import Random
  import Layout
  import Slots
  import Deal

  type Move = (Pos, Pos)

  // ------------------------------------------------------------- playouts

  /** The board and metal to claim after the move mv: both cells emptied,
      the next metal claimed exactly when one of them held Quicksilver. */
  ghost function AfterMove(g: Grid, m: Tile, mv: Move): (r: (Grid, Tile))
    requires IsGrid(g) && OnGrid(mv.0) && OnGrid(mv.1)
    ensures IsGrid(r.0)
  {
    (Put(Put(g, mv.0, Empty), mv.1, Empty),
     m + if At(g, mv.0) == Quicksilver || At(g, mv.1) == Quicksilver then 1 else 0)
  }

  /** Every move of the trace is legal on the board the moves before it leave. */
  ghost predicate Playable(g: Grid, m: Tile, trace: seq<Move>)
    requires IsGrid(g)
    decreases |trace|, 0
  {
    trace == [] ||
      var prefix, last := trace[..|trace| - 1], trace[|trace| - 1];
      && Playable(g, m, prefix)
      && var r := Replay(g, m, prefix); IsMove(r.0, r.1, last.0, last.1)
  }

  /** The board and metal to claim after playing the trace from g and m. */
  ghost function Replay(g: Grid, m: Tile, trace: seq<Move>): (r: (Grid, Tile))
    requires IsGrid(g) && Playable(g, m, trace)
    ensures IsGrid(r.0)
    decreases |trace|, 1
  {
    if trace == [] then (g, m)
    else
      var r := Replay(g, m, trace[..|trace| - 1]);
      AfterMove(r.0, r.1, trace[|trace| - 1])
  }

  /** A legal move after a playable trace extends it. */
  lemma PlayableStep(g: Grid, m: Tile, trace: seq<Move>, mv: Move)
    requires IsGrid(g) && Playable(g, m, trace)
    requires var r := Replay(g, m, trace); IsMove(r.0, r.1, mv.0, mv.1)
    ensures Playable(g, m, trace + [mv])
    ensures Replay(g, m, trace + [mv]) == AfterMove(Replay(g, m, trace).0, Replay(g, m, trace).1, mv)
  {
    assert (trace + [mv])[..|trace|] == trace;
  }

  /** A playable trace that leaves board b with metal m, followed by a
      legal move on b that gives board c with metal n, is playable and
      leaves c with n. */
  lemma TraceStep(g: Grid, m0: Tile, trace: seq<Move>, b: Grid, m: Tile, mv: Move, c: Grid, n: Tile)
    requires IsGrid(g) && Playable(g, m0, trace) && Replay(g, m0, trace) == (b, m)
    requires IsGrid(b) && IsMove(b, m, mv.0, mv.1)
    requires c == Put(Put(b, mv.0, Empty), mv.1, Empty)
    requires n == m + if At(b, mv.0) == Quicksilver || At(b, mv.1) == Quicksilver then 1 else 0
    ensures Playable(g, m0, trace + [mv]) && Replay(g, m0, trace + [mv]) == (c, n)
  {
    PlayableStep(g, m0, trace, mv);
  }

  /** A playout only ever empties cells: every cell ends Empty or as it
      began, two tiles go per move, and the metal to claim never goes back. */
  lemma {:induction false} ReplayOnlyEmpties(g: Grid, m: Tile, trace: seq<Move>)
    requires IsGrid(g) && Playable(g, m, trace)
    ensures var r := Replay(g, m, trace);
      && (forall p :: OnGrid(p) ==> At(r.0, p) == Empty || At(r.0, p) == At(g, p))
      && Occupied(r.0) == Occupied(g) - 2 * |trace|
      && r.1 >= m
    decreases |trace|
  {
    if trace != [] {
      var prefix, last := trace[..|trace| - 1], trace[|trace| - 1];
      ReplayOnlyEmpties(g, m, prefix);
      var r := Replay(g, m, prefix);
      MoveCountsDown(r.0, r.1, last.0, last.1);
    }
  }

  /** One random game: the moves it played from g with metal m, and whether
      it was won. */
  datatype Playout = Playout(won: bool, trace: seq<Move>)

  /** A random game from g: a playable trace that ends where no move is
      left, won exactly when the centre tile is then free. */
  ghost predicate PlayoutFrom(g: Grid, m: Tile, play: Playout)
    requires IsGrid(g)
  {
    && Playable(g, m, play.trace)
    && var r := Replay(g, m, play.trace);
       NoMove(r.0, r.1) && (play.won <==> Unlocked(r.0, r.1, Centre))
  }

  /** The number of won games. */
  function Wins(plays: seq<Playout>): (n: nat)
    ensures n <= |plays|
  {
    if plays == [] then 0
    else Wins(plays[..|plays| - 1]) + if plays[|plays| - 1].won then 1 else 0
  }

  /** No game is counted as won exactly when every game was lost. */
  lemma {:induction false} NoWinsAllLost(plays: seq<Playout>)
    ensures Wins(plays) == 0 <==> forall i :: 0 <= i < |plays| ==> !plays[i].won
  {
    if plays != [] {
      var n := |plays| - 1;
      NoWinsAllLost(plays[..n]);
      assert forall i :: 0 <= i < n ==> plays[..n][i] == plays[i];
    }
  }

  /** The board `generate` starts carving from: Gold at the centre, Salt on
      the layout's cells, Empty elsewhere. */
  ghost predicate Seeded(start: Grid, positions: seq<Pos>)
    requires IsGrid(start)
  {
    forall p :: OnGrid(p) ==> At(start, p) == if p == Centre then Gold else if p in positions then Salt else Empty
  }

  /** What `generate` produces from `start`: 27 slots carved with the metal
      to claim carved with, symbols dealt onto them in carving order with
      each slot's cells in either order, the tiles of a full deal with the
      metals in order, and Lead to claim next. */
  ghost predicate Generated(g: Grid, nextMetal: Tile, start: Grid, carvedWith: Tile,
                            slots: seq<Slots.Slot>, placed: seq<Slots.Slot>, symbols: seq<(Tile, Tile)>)
  {
    && IsGrid(g) && IsGrid(start) && nextMetal == Lead
    && Slots.Carving(start, carvedWith, slots) && |slots| == 27
    && |placed| == 27 && |symbols| == 27 && Slots.OnBoard(placed)
    && Slots.SameSlots(placed, slots)
    && g == Slots.Filled(Slots.Carved(start, slots), placed, symbols)
    && Deal.PairsInOrder(symbols) && Deal.Quicksilvers(symbols) == 5
    && forall t :: multiset(Deal.Flat(symbols))[t] == Deal.Full(t)
  }

  /** The scan of `unlocked_tiles` has reached cell `upTo`: the list holds
      exactly the selectable cells before it, in ascending order. */
  ghost predicate Scanned(g: Grid, nextMetal: Tile, list: seq<Pos>, upTo: Pos)
    requires IsGrid(g)
  {
    && (forall p :: p in list <==> Selectable(g, nextMetal, p) && Before(p, upTo))
    && Ascending(list) && forall p :: p in list ==> Before(p, upTo)
  }

  /** Skipping the cells before a row's window finds nothing selectable. */
  lemma ScanStart(g: Grid, nextMetal: Tile, list: seq<Pos>, row: int)
    requires IsGrid(g) && 1 <= row <= 11 && Scanned(g, nextMetal, list, (row, 0))
    ensures Scanned(g, nextMetal, list, (row, RowOffset(row) + 1))
  {
  }

  /** One cell of the scan: the cell is appended when it is selectable. */
  lemma ScanStep(g: Grid, nextMetal: Tile, list: seq<Pos>, row: int, col: int)
    requires IsGrid(g) && Scanned(g, nextMetal, list, (row, col))
    ensures Scanned(g, nextMetal, if Selectable(g, nextMetal, (row, col)) then list + [(row, col)] else list, (row, col + 1))
  {
    if Selectable(g, nextMetal, (row, col)) {
      AscendingAppend(list, (row, col));
    }
  }

  /** Skipping the cells after a row's window finds nothing selectable. */
  lemma ScanEnd(g: Grid, nextMetal: Tile, list: seq<Pos>, row: int)
    requires IsGrid(g) && 1 <= row <= 11
    requires Scanned(g, nextMetal, list, (row, RowOffset(row) + RowSize(row) + 1))
    ensures Scanned(g, nextMetal, list, (row + 1, 0))
  {
  }

  /** A scan past row 11 has found every selectable cell. */
  lemma ScanDone(g: Grid, nextMetal: Tile, list: seq<Pos>)
    requires IsGrid(g) && Scanned(g, nextMetal, list, (12, 0))
    ensures forall p :: p in list <==> Selectable(g, nextMetal, p)
    ensures forall i :: 0 <= i < |list| ==> Selectable(g, nextMetal, list[i])
    ensures Ascending(list)
  {
  }

  class Board {
    var tiles: array2<Tile>
    var nextMetal: Tile

    /** The grid is 13x13 and its border cells are Empty. */
    ghost predicate Valid()
      reads this, tiles
    {
      tiles.Length0 == 13 && tiles.Length1 == 13 && Bordered(Grid())
    }

    /** The board as a value. */
    ghost function Grid(): (g: Grid)
      reads this, tiles
      ensures tiles.Length0 == 13 && tiles.Length1 == 13 ==>
        IsGrid(g) && forall p {:trigger At(g, p)} :: OnGrid(p) ==> At(g, p) == tiles[p.0, p.1]
    {
      Rows(tiles.Length0)
    }

    /** The first n rows of the board as a value. */
    ghost function Rows(n: nat): (g: seq<seq<Tile>>)
      requires n <= tiles.Length0
      reads this, tiles
      ensures |g| == n
      ensures forall r :: 0 <= r < n ==> |g[r]| == tiles.Length1
      ensures forall r, c :: 0 <= r < n && 0 <= c < tiles.Length1 ==> g[r][c] == tiles[r, c]
    {
      if n == 0 then []
      else Rows(n - 1) + [seq(tiles.Length1, c requires 0 < n <= tiles.Length0 && 0 <= c < tiles.Length1 reads this, tiles => tiles[n - 1, c])]
    }

    /** A new board is all Empty; the metal to claim is left unset. */
    constructor ()
      ensures Valid() && fresh(tiles)
      ensures forall p :: OnGrid(p) ==> At(Grid(), p) == Empty
    {
      tiles := new Tile[13, 13]((r, c) => Empty);
    }

    /** `clear`: a fresh all-Empty grid; the metal to claim is untouched. */
    method Clear()
      modifies this
      ensures Valid() && fresh(tiles) && nextMetal == old(nextMetal)
      ensures forall p :: OnGrid(p) ==> At(Grid(), p) == Empty
    {
      tiles := new Tile[13, 13]((r, c) => Empty);
    }

    /** `copy`: an equal board that shares nothing with this one. */
    method Copy() returns (b: Board)
      requires Valid()
      ensures fresh(b) && fresh(b.tiles) && b.Valid()
      ensures b.Grid() == Grid() && b.nextMetal == nextMetal
    {
      var source := tiles;
      b := new Board();
      b.tiles := new Tile[13, 13]((r, c) requires 0 <= r < source.Length0 && 0 <= c < source.Length1
        reads source => source[r, c]);
      b.nextMetal := nextMetal;
      assert forall r :: 0 <= r < 13 ==> b.Grid()[r] == Grid()[r];
    }

    /** `can_match` on two cells. */
    function CanMatchAt(p: Pos, q: Pos): (r: bool)
      requires Valid() && OnGrid(p) && OnGrid(q)
      reads this, tiles
      ensures r == Rules.CanMatch(At(Grid(), p), At(Grid(), q), nextMetal)
    {
      Rules.CanMatch(tiles[p.0, p.1], tiles[q.0, q.1], nextMetal)
    }

    /** `tile_is_unlocked`: Empty is locked, the restart marker is free, a
        metal other than the one to claim is locked, and any other tile is
        free when three cyclically consecutive neighbours are Empty. Border
        cells are Empty, so they are reported locked before any neighbour
        is read. */
    method TileIsUnlocked(row: int, col: int) returns (u: bool)
      requires Valid() && OnGrid((row, col))
      ensures u == (Interior((row, col)) && Unlocked(Grid(), nextMetal, (row, col)))
    {
      var tile := tiles[row, col];
      assert At(Grid(), (row, col)) == tile;
      if tile == Empty {
        return false;
      }
      if tile == Restart {
        return true;
      }
      if tile >= Lead && tile <= Gold && tile != nextMetal {
        return false;
      }
      var neighbours := [
        (row - 1, col - 1), (row - 1, col), (row, col + 1),
        (row + 1, col + 1), (row + 1, col), (row, col - 1),
        (row - 1, col - 1), (row - 1, col)];
      assert neighbours == AroundCells((row, col));
      ghost var around := AroundTiles(Grid(), (row, col));
      u := ThreeEmptyInARow(neighbours, around);
    }

    /** The neighbour scan of `tile_is_unlocked`: a running count of
        consecutive Empty cells along the list, which holds the six
        neighbours followed by the first two again, so that every cyclic
        window of three is seen. */
    method ThreeEmptyInARow(cells: seq<Pos>, ghost around: seq<Tile>) returns (open: bool)
      requires |cells| == 8 && |around| == 8
      requires forall k :: 0 <= k < 8 ==>
        0 <= cells[k].0 < tiles.Length0 && 0 <= cells[k].1 < tiles.Length1 && tiles[cells[k].0, cells[k].1] == around[k]
      ensures open <==> exists j :: 0 <= j < 6 && EmptyAround(around, j)
    {
      var count := 0;
      for k := 0 to 8
        invariant 0 <= count <= k && count < 3
        invariant count >= 1 ==> around[k - 1] == Empty
        invariant count >= 2 ==> around[k - 2] == Empty
        invariant count < k ==> around[k - count - 1] != Empty
        invariant forall j :: 0 <= j < 6 && j + 3 <= k ==> !EmptyAround(around, j)
      {
        var (row, col) := cells[k];
        var neighbour := tiles[row, col];
        if neighbour == Empty {
          count := count + 1;
          if count >= 3 {
            assert EmptyAround(around, k - 2);
            return true;
          }
        } else {
          count := 0;
        }
      }
      return false;
    }

    /** `unlocked_tiles`: the selectable cells, row by row across each row's
        window; so exactly the selectable cells, in row-major order. */
    method UnlockedTiles() returns (list: seq<Pos>)
      requires Valid()
      ensures forall p :: p in list <==> Selectable(Grid(), nextMetal, p)
      ensures forall i :: 0 <= i < |list| ==> Selectable(Grid(), nextMetal, list[i])
      ensures Ascending(list)
    {
      list := [];
      for row := 1 to 12
        invariant Scanned(Grid(), nextMetal, list, (row, 0))
      {
        list := UnlockedInRow(row, list);
      }
      ScanDone(Grid(), nextMetal, list);
    }

    /** The inner loop of `unlocked_tiles`: appends the selectable cells of
        one row, left to right across its window. */
    method UnlockedInRow(row: int, list0: seq<Pos>) returns (list: seq<Pos>)
      requires Valid() && 1 <= row <= 11 && Scanned(Grid(), nextMetal, list0, (row, 0))
      ensures Scanned(Grid(), nextMetal, list, (row + 1, 0))
    {
      ghost var g := Grid();
      list := list0;
      var offset := RowOffset(row);
      ScanStart(g, nextMetal, list, row);
      for col := offset + 1 to offset + RowSize(row) + 1
        invariant Scanned(g, nextMetal, list, (row, col))
      {
        var u := TileIsUnlocked(row, col);
        ScanStep(g, nextMetal, list, row, col);
        if u {
          list := list + [(row, col)];
        }
      }
      ScanEnd(g, nextMetal, list, row);
    }

    /** `legal_moves`: every pair i < j of the selectable cells whose tiles
        match; so exactly the legal moves. */
    method LegalMoves() returns (moves: seq<Move>)
      requires Valid()
      ensures forall m :: m in moves <==> IsMove(Grid(), nextMetal, m.0, m.1)
    {
      moves := [];
      var unlocked := UnlockedTiles();
      for i := 0 to |unlocked|
        invariant forall m :: m in moves ==> IsMove(Grid(), nextMetal, m.0, m.1)
        invariant ListedBefore(Grid(), nextMetal, unlocked, moves, i, 0)
      {
        moves := MatchesOf(unlocked, i, moves);
        ListedNextRow(Grid(), nextMetal, unlocked, moves, i);
      }
      AllMovesListed(Grid(), nextMetal, unlocked, moves);
    }

    /** The inner loop of `legal_moves`: appends each pair of selectable
        cell i with a later selectable cell whose tiles match. */
    method MatchesOf(unlocked: seq<Pos>, i: int, moves0: seq<Move>) returns (moves: seq<Move>)
      requires Valid() && 0 <= i < |unlocked| && Ascending(unlocked)
      requires forall k :: 0 <= k < |unlocked| ==> Selectable(Grid(), nextMetal, unlocked[k])
      requires forall m :: m in moves0 ==> IsMove(Grid(), nextMetal, m.0, m.1)
      requires ListedBefore(Grid(), nextMetal, unlocked, moves0, i, 0)
      ensures forall m :: m in moves ==> IsMove(Grid(), nextMetal, m.0, m.1)
      ensures ListedBefore(Grid(), nextMetal, unlocked, moves, i, |unlocked|)
    {
      ghost var g := Grid();
      moves := moves0;
      for j := i + 1 to |unlocked|
        invariant forall m :: m in moves ==> IsMove(g, nextMetal, m.0, m.1)
        invariant ListedBefore(g, nextMetal, unlocked, moves, i, j)
      {
        var (p, q) := (unlocked[i], unlocked[j]);
        ListedStep(g, nextMetal, unlocked, moves, i, j);
        if CanMatchAt(p, q) {
          assert IsMove(g, nextMetal, p, q);
          moves := moves + [(p, q)];
        } else {
          assert !IsMove(g, nextMetal, p, q);
        }
      }
    }

    /** `try_match`: when the two tiles match, both cells become Empty and
        the metal to claim advances by one exactly when one of them was
        Quicksilver; otherwise nothing changes. */
    method TryMatch(p: Pos, q: Pos) returns (matched: bool)
      requires Valid() && OnGrid(p) && OnGrid(q)
      modifies this, tiles
      ensures Valid() && tiles == old(tiles)
      ensures matched == CanMatch(At(old(Grid()), p), At(old(Grid()), q), old(nextMetal))
      ensures matched ==> Grid() == Put(Put(old(Grid()), p, Empty), q, Empty)
      ensures matched ==>
        nextMetal == old(nextMetal) + if At(old(Grid()), p) == Quicksilver || At(old(Grid()), q) == Quicksilver then 1 else 0
      ensures !matched ==> Grid() == old(Grid()) && nextMetal == old(nextMetal)
    {
      ghost var g := Grid();
      if CanMatchAt(p, q) {
        var (tile1, tile2) := (tiles[p.0, p.1], tiles[q.0, q.1]);
        if tile1 == Quicksilver || tile2 == Quicksilver {
          nextMetal := nextMetal + 1;
        }
        tiles[p.0, p.1] := Empty;
        tiles[q.0, q.1] := Empty;
        GridsEqual(Grid(), Put(Put(g, p, Empty), q, Empty));
        return true;
      }
      return false;
    }

    // -------------------------------------------------------------- generate

    /** `generate`: Gold at the centre and Salt on a random layout, then 27
        rounds carving slots out of the free cells, then the symbols dealt
        onto the slots from the budget. A round that finds fewer than two
        free cells starts over; `fuel` bounds how often. */
    method Generate(layouts: seq<seq<string>>, fuel: nat)
      returns (ok: bool, ghost start: Grid, positions: seq<Pos>,
               slots: seq<Slots.Slot>, ghost placed: seq<Slots.Slot>, ghost symbols: seq<(Tile, Tile)>)
      requires |layouts| > 0 && forall i :: 0 <= i < |layouts| ==> Layout.WellFormed(layouts[i])
      modifies this
      ensures Valid() && fresh(tiles)
      ensures ok ==> exists index, flip :: 0 <= index < |layouts| && positions == Layout.Positions(layouts[index], flip)
      ensures ok ==> IsGrid(start) && Seeded(start, positions)
      ensures ok ==> Generated(Grid(), nextMetal, start, old(nextMetal), slots, placed, symbols)
      ensures !ok ==> nextMetal == old(nextMetal) && Slots.Cornered(Grid(), nextMetal)
      decreases fuel
    {
      positions := Seed(layouts);
      start := Grid();
      ok, slots := CarveSlots();
      if !ok {
        if fuel == 0 {
          return false, start, positions, slots, [], [];
        }
        ok, start, positions, slots, placed, symbols := Generate(layouts, fuel - 1);
        return;
      }
      Slots.CarvingInWindow(start, nextMetal, slots);
      placed, symbols := DealAll(slots);
    }

    /** The second part of `generate`: the budget and Salt queue prepared,
        the symbols dealt onto the slots, and Lead to claim next. */
    method DealAll(slots: seq<Slots.Slot>) returns (ghost placed: seq<Slots.Slot>, ghost symbols: seq<(Tile, Tile)>)
      requires Valid() && |slots| == 27
      requires forall k :: 0 <= k < 27 ==> Interior(slots[k].0) && Interior(slots[k].1)
      modifies this, tiles
      ensures Valid() && tiles == old(tiles) && nextMetal == Lead
      ensures |placed| == 27 && |symbols| == 27 && Slots.OnBoard(placed) && Slots.SameSlots(placed, slots)
      ensures Grid() == Slots.Filled(old(Grid()), placed, symbols)
      ensures Deal.PairsInOrder(symbols) && Deal.Quicksilvers(symbols) == 5
      ensures forall t :: multiset(Deal.Flat(symbols))[t] == Deal.Full(t)
    {
      var stock := Deal.PrepareStock();
      ghost var carved := Grid();
      placed, symbols := DealSymbols(slots, stock);
      ghost var dealt := Grid();
      assert dealt == Slots.Filled(carved, placed, symbols);
      nextMetal := Lead;
      GridsEqual(Grid(), dealt);
    }

    /** `generate_hard`: generates boards until one loses all 30 random
        games played on copies of it, the source's test `difficulty(30) >=
        1.0`; `attempts` bounds how many boards are tried, and `fuel` is
        handed to each `generate`. */
    method GenerateHard(layouts: seq<seq<string>>, attempts: nat, fuel: nat)
      returns (hard: bool, ghost wins: nat, ghost plays: seq<Playout>, ghost carvedWith: Tile, ghost start: Grid,
               positions: seq<Pos>, slots: seq<Slots.Slot>, ghost placed: seq<Slots.Slot>, ghost symbols: seq<(Tile, Tile)>)
      requires |layouts| > 0 && forall i :: 0 <= i < |layouts| ==> Layout.WellFormed(layouts[i])
      modifies this
      ensures Valid() && fresh(tiles)
      ensures hard ==> wins == 0
      ensures hard ==> |plays| == 30 && forall i :: 0 <= i < 30 ==> PlayoutFrom(Grid(), nextMetal, plays[i]) && !plays[i].won
      ensures hard ==> exists index, flip :: 0 <= index < |layouts| && positions == Layout.Positions(layouts[index], flip)
      ensures hard ==> IsGrid(start) && Seeded(start, positions)
      ensures hard ==> Generated(Grid(), nextMetal, start, carvedWith, slots, placed, symbols)
    {
      var tries := 0;
      while true
        invariant tries <= attempts
        decreases attempts - tries
      {
        carvedWith := nextMetal;
        var ok;
        ok, start, positions, slots, placed, symbols := Generate(layouts, fuel);
        if !ok {
          return false, 0, [], carvedWith, start, positions, slots, placed, symbols;
        }
        ghost var g := Grid();
        var played;
        played, plays := Difficulty(30);
        assert Grid() == g;
        wins := played;
        HardExactlyWhenNoWin(played, 30);
        NoWinsAllLost(plays);
        if 1.0 - (played as real) / 30.0 >= 1.0 {
          return true, wins, plays, carvedWith, start, positions, slots, placed, symbols;
        }
        if tries == attempts {
          return false, wins, plays, carvedWith, start, positions, slots, placed, symbols;
        }
        tries := tries + 1;
      }
    }

    /** The first part of `generate`: a cleared board with Gold at the
        centre and Salt on the cells of a random layout, flipped or not. */
    method Seed(layouts: seq<seq<string>>) returns (positions: seq<Pos>)
      requires |layouts| > 0 && forall i :: 0 <= i < |layouts| ==> Layout.WellFormed(layouts[i])
      modifies this
      ensures Valid() && fresh(tiles) && nextMetal == old(nextMetal)
      ensures exists index, flip :: 0 <= index < |layouts| && positions == Layout.Positions(layouts[index], flip)
      ensures Seeded(Grid(), positions)
    {
      Clear();
      tiles[6, 6] := Gold;
      var index := Random.Below(|layouts|);
      var coin := Random.Below(2);
      positions := Layout.BoardPositions(layouts, index, coin == 1);
      LaySalt(positions);
    }

    /** The Salt loop of `generate`: every listed cell gets Salt. */
    method LaySalt(positions: seq<Pos>)
      requires Valid() && forall p :: p in positions ==> Interior(p)
      modifies tiles
      ensures Valid()
      ensures forall p :: OnGrid(p) ==> At(Grid(), p) == if p in positions then Salt else At(old(Grid()), p)
    {
      ghost var g0 := Grid();
      var rest := positions;
      while |rest| > 0
        invariant Valid() && |rest| <= |positions| && rest == positions[..|rest|]
        invariant forall p :: OnGrid(p) ==> At(Grid(), p) == if p in positions[|rest|..] then Salt else At(g0, p)
      {
        var cell := rest[|rest| - 1];
        assert positions[|rest| - 1..] == [cell] + positions[|rest|..];
        assert cell in positions;
        rest := rest[..|rest| - 1];
        ghost var before := Grid();
        tiles[cell.0, cell.1] := Salt;
        PutBordered(before, cell, Salt);
        GridsEqual(Grid(), Put(before, cell, Salt));
      }
    }

    /** The slot rounds of `generate`, 27 of them. Reports failure, with the
        board cornered, when a round finds fewer than two cells. */
    method CarveSlots() returns (ok: bool, slots: seq<Slots.Slot>)
      requires Valid()
      modifies tiles
      ensures Valid()
      ensures Slots.Carving(old(Grid()), nextMetal, slots) && Grid() == Slots.Carved(old(Grid()), slots)
      ensures ok ==> |slots| == 27
      ensures !ok ==> Slots.Cornered(Grid(), nextMetal)
    {
      ghost var g0 := Grid();
      slots := [];
      for i := 0 to 27
        invariant Valid() && |slots| == i
        invariant Slots.Carving(g0, nextMetal, slots) && Grid() == Slots.Carved(g0, slots)
      {
        var found, a, b := PickSlot();
        if !found {
          return false, slots;
        }
        Slots.CarvingStep(g0, nextMetal, slots, a, b);
        EmptyBoth(a, b);
        slots := slots + [(a, b)];
      }
      return true, slots;
    }

    /** One slot round: lists the free cells, drops the centre, shuffles,
        and picks the last two, which are two different candidates; with
        fewer than two left, no two different candidates exist. */
    method PickSlot() returns (found: bool, a: Pos, b: Pos)
      requires Valid()
      ensures found ==> a != b && Slots.Candidate(Grid(), nextMetal, a) && Slots.Candidate(Grid(), nextMetal, b)
      ensures !found ==> Slots.Cornered(Grid(), nextMetal)
    {
      ghost var g := Grid();
      var free := UnlockedTiles();
      free := Slots.SpliceCentre(free);
      Slots.AscendingDistinct(free);
      found, a, b := Slots.PickTwo(free, g, nextMetal);
    }

    /** Empties two cells. */
    method EmptyBoth(a: Pos, b: Pos)
      requires Valid() && OnGrid(a) && OnGrid(b)
      modifies tiles
      ensures Valid() && Grid() == Put(Put(old(Grid()), a, Empty), b, Empty)
    {
      ghost var before := Grid();
      tiles[a.0, a.1] := Empty;
      tiles[b.0, b.1] := Empty;
      PutBordered(before, a, Empty);
      PutBordered(Put(before, a, Empty), b, Empty);
      GridsEqual(Grid(), Put(Put(before, a, Empty), b, Empty));
    }

    /** The dealing loop of `generate`: for each slot in carving order, its
        two cells are shuffled, `pick_random` draws a kind from the budget,
        and the kind's pair of tiles is written, the budget, the Salt queue
        and the metal being updated as the stock says. */
    method DealSymbols(slots: seq<Slots.Slot>, stock: Deal.Stock)
      returns (ghost placed: seq<Slots.Slot>, ghost symbols: seq<(Tile, Tile)>)
      requires Valid() && |slots| == 27
      requires forall k :: 0 <= k < 27 ==> Interior(slots[k].0) && Interior(slots[k].1)
      requires Deal.Counts(stock, 0) && stock.metal == Lead && forall t :: Deal.Dealt(t, stock) == 0
      modifies tiles
      ensures Valid() && |placed| == 27 && |symbols| == 27 && Slots.OnBoard(placed)
      ensures Slots.SameSlots(placed, slots)
      ensures Grid() == Slots.Filled(old(Grid()), placed, symbols)
      ensures Deal.PairsInOrder(symbols) && Deal.Quicksilvers(symbols) == 5
      ensures forall t :: multiset(Deal.Flat(symbols))[t] == Deal.Full(t)
    {
      ghost var g1 := Grid();
      var budget, queue, metal := stock.budget, stock.queue, stock.metal;
      placed, symbols := [], [];
      Deal.DealStart(stock);
      for k := 0 to 27
        invariant Valid() && |placed| == k && |symbols| == k && Slots.OnBoard(placed)
        invariant Slots.SameSlots(placed, slots)
        invariant Grid() == Slots.Filled(g1, placed, symbols)
        invariant Deal.Dealing(symbols, Deal.Stock(budget, queue, metal), k)
      {
        var p, q; ghost var pair;
        budget, queue, metal, p, q, pair := DealOne(slots[k], budget, queue, metal, symbols, k);
        Slots.FilledStep(g1, placed, symbols, p, q, pair);
        Slots.SameSlotsStep(placed, slots, p, q);
        placed, symbols := placed + [(p, q)], symbols + [pair];
      }
      Deal.DealDone(symbols, Deal.Stock(budget, queue, metal));
    }

    /** One slot of the deal: its two cells in shuffled order, a kind drawn
        with `pick_random`, and the kind's pair written on the cells. */
    method DealOne(slot: Slots.Slot, budget0: map<Tile, int>, queue0: seq<Tile>, metal0: Tile,
                   ghost symbols: seq<(Tile, Tile)>, ghost k: int)
      returns (budget: map<Tile, int>, queue: seq<Tile>, metal: Tile, p: Pos, q: Pos, ghost pair: (Tile, Tile))
      requires Valid() && Interior(slot.0) && Interior(slot.1)
      requires Deal.Dealing(symbols, Deal.Stock(budget0, queue0, metal0), k) && k < 27
      modifies tiles
      ensures Valid() && OnGrid(p) && OnGrid(q) && Slots.SameSlot((p, q), slot)
      ensures Deal.Dealing(symbols + [pair], Deal.Stock(budget, queue, metal), k + 1)
      ensures Grid() == Put(Put(old(Grid()), p, pair.0), q, pair.1)
    {
      p, q := ShuffleSlot(slot);
      ghost var s := Deal.Stock(budget0, queue0, metal0);
      Deal.StockHasDraws(s, k);
      var x := Random.Below(Random.Total(Deal.Keys, budget0));
      var kind := Random.PickRandom(Deal.Keys, budget0, x);
      Deal.DealStep(symbols, kind, s, k);
      pair := Deal.Symbols(kind, s);
      budget, queue, metal := WritePair(p, q, kind, budget0, queue0, metal0);
    }

    /** `shuffle` on the two cells of a slot. */
    static method ShuffleSlot(slot: Slots.Slot) returns (p: Pos, q: Pos)
      ensures Slots.SameSlot((p, q), slot)
    {
      var cells, js := Random.ShuffleList([slot.0, slot.1]);
      Slots.ShuffledSlot(cells, slot);
      p, q := cells[0], cells[1];
    }

    /** One pair of the deal: the tiles of the drawn kind on the two cells,
        and the budget, Salt queue and metal after the draw. */
    method WritePair(p: Pos, q: Pos, kind: Tile, budget0: map<Tile, int>, queue0: seq<Tile>, metal0: Tile)
      returns (budget: map<Tile, int>, queue: seq<Tile>, metal: Tile)
      requires Valid() && Interior(p) && Interior(q)
      requires kind in budget0 && Quicksilver in budget0 && (kind == Salt ==> |queue0| > 0)
      modifies tiles
      ensures Valid()
      ensures Deal.Stock(budget, queue, metal) == Deal.After(kind, Deal.Stock(budget0, queue0, metal0))
      ensures var pair := Deal.Symbols(kind, Deal.Stock(budget0, queue0, metal0));
        Grid() == Put(Put(old(Grid()), p, pair.0), q, pair.1)
    {
      ghost var g := Grid();
      ghost var pair := Deal.Symbols(kind, Deal.Stock(budget0, queue0, metal0));
      budget, queue, metal := budget0, queue0, metal0;
      if kind == Mors {
        tiles[p.0, p.1] := Mors;
        tiles[q.0, q.1] := Vitae;
      } else if kind == Quicksilver {
        tiles[p.0, p.1] := Quicksilver;
        tiles[q.0, q.1] := metal;
        metal := metal + 1;
        if metal != Gold {
          budget := budget[Quicksilver := budget[Quicksilver] + 1];
        } else {
          budget := budget[Quicksilver := 1];
        }
      } else if kind == Salt {
        var element := queue[|queue| - 1];
        queue := queue[..|queue| - 1];
        tiles[p.0, p.1] := Salt;
        tiles[q.0, q.1] := element;
      } else {
        tiles[p.0, p.1] := kind;
        tiles[q.0, q.1] := kind;
      }
      budget := budget[kind := budget[kind] - 1];
      PutBordered(g, p, pair.0);
      PutBordered(Put(g, p, pair.0), q, pair.1);
      GridsEqual(Grid(), Put(Put(g, p, pair.0), q, pair.1));
    }

    /** `random_move`: plays the first of the shuffled legal moves and
        reports 1; with no legal move, empties the centre and reports 2 when
        its tile is free, and otherwise reports 0 and changes nothing. Each
        report removes two, one or no tiles. */
    method RandomMove() returns (outcome: int, ghost move: Move)
      requires Valid()
      modifies this, tiles
      ensures Valid() && tiles == old(tiles)
      ensures 0 <= outcome <= 2
      ensures outcome == 1 ==> IsMove(old(Grid()), old(nextMetal), move.0, move.1)
      ensures outcome == 1 ==> Grid() == Put(Put(old(Grid()), move.0, Empty), move.1, Empty)
      ensures outcome == 1 ==>
        nextMetal == old(nextMetal) + if At(old(Grid()), move.0) == Quicksilver || At(old(Grid()), move.1) == Quicksilver then 1 else 0
      ensures outcome != 1 ==> NoMove(old(Grid()), old(nextMetal)) && nextMetal == old(nextMetal)
      ensures outcome == 2 ==> Unlocked(old(Grid()), old(nextMetal), Centre) && Grid() == Put(old(Grid()), Centre, Empty)
      ensures outcome == 0 ==> !Unlocked(old(Grid()), old(nextMetal), Centre) && Grid() == old(Grid())
      ensures Occupied(Grid()) == Occupied(old(Grid())) - if outcome == 1 then 2 else if outcome == 2 then 1 else 0
    {
      ghost var g := Grid();
      var moves := LegalMoves();
      var shuffled, js := Random.ShuffleList(moves);
      if |shuffled| == 0 {
        NoMoveListed(g, nextMetal, moves);
        outcome := ClaimCentre();
        return outcome, ((0, 0), (0, 0));
      }
      move := shuffled[0];
      assert move in multiset(moves);
      var picked := shuffled[0];
      assert IsMove(g, nextMetal, picked.0, picked.1) && Grid() == g;
      PlayMove(picked.0, picked.1);
      return 1, move;
    }

    /** The move branch of `random_move`: `try_match` on a legal move
        removes its two tiles. */
    method PlayMove(p: Pos, q: Pos)
      requires Valid() && IsMove(Grid(), nextMetal, p, q)
      modifies this, tiles
      ensures Valid() && tiles == old(tiles)
      ensures Grid() == Put(Put(old(Grid()), p, Empty), q, Empty)
      ensures nextMetal == old(nextMetal) + if At(old(Grid()), p) == Quicksilver || At(old(Grid()), q) == Quicksilver then 1 else 0
      ensures Occupied(Grid()) == Occupied(old(Grid())) - 2
    {
      MoveCellsOccupied(Grid(), nextMetal, p, q);
      MoveCountsDown(Grid(), nextMetal, p, q);
      var matched := TryMatch(p, q);
      assert matched;
    }

    /** The no-move branch of `random_move`: empties the centre and reports
        2 when its tile is free, and otherwise reports 0. */
    method ClaimCentre() returns (outcome: int)
      requires Valid()
      modifies tiles
      ensures Valid()
      ensures outcome == 2 || outcome == 0
      ensures outcome == 2 ==> Unlocked(old(Grid()), nextMetal, Centre) && Grid() == Put(old(Grid()), Centre, Empty)
      ensures outcome == 2 ==> Occupied(Grid()) == Occupied(old(Grid())) - 1
      ensures outcome == 0 ==> !Unlocked(old(Grid()), nextMetal, Centre) && Grid() == old(Grid())
    {
      ghost var g := Grid();
      var u := TileIsUnlocked(6, 6);
      if u {
        tiles[6, 6] := Empty;
        GridsEqual(Grid(), Put(g, Centre, Empty));
        EmptyingCountsDown(g, Centre);
        return 2;
      }
      return 0;
    }

    /** `random_play`: random moves until none is left. `trace` is the moves
        it played, each legal in turn from the board it started from, and
        `before` is the board they leave, where no move is left. It reports
        a win exactly when the centre tile is free there, and then removes
        it; a loss leaves `before` as it is. The tile count drops with
        every move, so the play ends. */
    method RandomPlay() returns (won: bool, ghost before: Grid, ghost trace: seq<Move>)
      requires Valid()
      modifies this, tiles
      ensures Valid() && tiles == old(tiles)
      ensures nextMetal >= old(nextMetal)
      ensures won ==> IsGrid(before) && NoMove(before, nextMetal) && Unlocked(before, nextMetal, Centre)
      ensures won ==> Grid() == Put(before, Centre, Empty)
      ensures !won ==> NoMove(Grid(), nextMetal) && !Unlocked(Grid(), nextMetal, Centre)
      ensures Playable(old(Grid()), old(nextMetal), trace)
      ensures Replay(old(Grid()), old(nextMetal), trace) == (before, nextMetal)
      ensures PlayoutFrom(old(Grid()), old(nextMetal), Playout(won, trace))
      ensures !won ==> Grid() == before
    {
      ghost var g0, m0 := Grid(), nextMetal;
      trace := [];
      while true
        invariant Valid() && tiles == old(tiles) && nextMetal >= old(nextMetal)
        invariant g0 == old(Grid()) && m0 == old(nextMetal)
        invariant Playable(g0, m0, trace) && Replay(g0, m0, trace) == (Grid(), nextMetal)
        decreases Occupied(Grid())
      {
        var x;
        x, before, trace := PlayoutStep(g0, m0, trace);
        if x == 0 {
          return false, before, trace;
        }
        if x == 2 {
          return true, before, trace;
        }
      }
    }

    /** One turn of `random_play`: `random_move` on the board a playable
        trace has left, with the trace extended by the move it made. */
    method PlayoutStep(ghost g0: Grid, ghost m0: Tile, ghost trace: seq<Move>)
      returns (outcome: int, ghost before: Grid, ghost extended: seq<Move>)
      requires Valid() && IsGrid(g0) && Playable(g0, m0, trace) && Replay(g0, m0, trace) == (Grid(), nextMetal)
      modifies this, tiles
      ensures Valid() && tiles == old(tiles) && nextMetal >= old(nextMetal)
      ensures 0 <= outcome <= 2 && before == old(Grid())
      ensures outcome == 1 ==> Playable(g0, m0, extended) && Replay(g0, m0, extended) == (Grid(), nextMetal)
      ensures outcome == 1 ==> Occupied(Grid()) < Occupied(old(Grid()))
      ensures outcome != 1 ==> extended == trace && nextMetal == old(nextMetal) && NoMove(before, nextMetal)
      ensures outcome == 2 ==> Unlocked(before, nextMetal, Centre) && Grid() == Put(before, Centre, Empty)
      ensures outcome == 0 ==> !Unlocked(before, nextMetal, Centre) && Grid() == before
    {
      before := Grid();
      ghost var m := nextMetal;
      ghost var move;
      outcome, move := RandomMove();
      extended := trace;
      if outcome == 1 {
        ghost var after := Grid();
        TraceStep(g0, m0, trace, before, m, move, after, nextMetal);
        extended := trace + [move];
      }
    }

    /** `difficulty`: plays `games` random games, each on a copy, and counts
        the wins; `plays` records each game, a random game from this board,
        and the board itself is left as it was. */
    method Difficulty(games: nat) returns (wins: nat, ghost plays: seq<Playout>)
      requires Valid()
      ensures wins <= games
      ensures |plays| == games && wins == Wins(plays)
      ensures forall i :: 0 <= i < games ==> PlayoutFrom(Grid(), nextMetal, plays[i])
    {
      wins := 0;
      plays := [];
      for i := 0 to games
        invariant wins <= i
        invariant |plays| == i && wins == Wins(plays)
        invariant forall j :: 0 <= j < i ==> PlayoutFrom(Grid(), nextMetal, plays[j])
      {
        var board2 := Copy();
        var won, before, trace := board2.RandomPlay();
        ghost var previous := plays;
        plays := plays + [Playout(won, trace)];
        assert plays[..i] == previous;
        if won {
          wins := wins + 1;
        }
      }
    }
  }

  /** The acceptance test of `generate_hard`, `difficulty(games) >= 1.0`
      where difficulty is 1 - wins/games, holds exactly when no game was won. */
  lemma HardExactlyWhenNoWin(wins: nat, games: nat)
    requires 0 < games && wins <= games
    ensures 1.0 - (wins as real) / (games as real) >= 1.0 <==> wins == 0
  {
    if wins > 0 {
      assert (wins as real) / (games as real) > 0.0;
    }
  }
}
