/** Why `generate` deals solvable boards: it carves the board in rounds,
    each round emptying two cells that are selectable at that point, and
    then deals the matching pairs onto those cells in carving order. Played
    back in that order, every dealt pair is a legal move when its turn comes
    and playing it leaves the board the carving had at the next round. */
module Solving {
  import opened Tiles
  import opened Hex
  import opened Rules
  import Slots
  import Deal
  import Boards
  import Layout

  /** The board after the first k dealt pairs have been played. */
  ghost function Played(g: Grid, placed: seq<Slots.Slot>, k: int): (b: Grid)
    requires IsGrid(g) && Slots.OnBoard(placed) && 0 <= k <= |placed|
    ensures IsGrid(b)
  {
    Slots.Carved(g, placed[..k])
  }

  /** The metal to claim after the first k dealt pairs have been played:
      every Quicksilver pair claims one metal, starting from Lead. */
  function MetalAfter(symbols: seq<(Tile, Tile)>, k: int): Tile
    requires 0 <= k <= |symbols|
  {
    Lead + Deal.Quicksilvers(symbols[..k])
  }

  /** A prefix of slots on the board is on the board. */
  lemma OnBoardPrefix(slots: seq<Slots.Slot>, k: int)
    requires Slots.OnBoard(slots) && 0 <= k <= |slots|
    ensures Slots.OnBoard(slots[..k])
  {
    assert forall j :: 0 <= j < k ==> slots[..k][j] == slots[j];
  }

  /** Slots that are apart: no slot before the k-th uses one of its cells. */
  lemma ApartFresh(slots: seq<Slots.Slot>, k: int)
    requires Slots.Apart(slots) && 0 <= k < |slots|
    ensures Slots.Untouched(slots[..k], slots[k].0) && Slots.Untouched(slots[..k], slots[k].1)
  {
    assert forall j :: 0 <= j < k ==> slots[..k][j] == slots[j];
  }

  /** One cell of a carved board: Empty if a slot uses it, as before otherwise. */
  lemma CarvedCell(g: Grid, slots: seq<Slots.Slot>, p: Pos)
    requires IsGrid(g) && Slots.OnBoard(slots) && OnGrid(p)
    ensures At(Slots.Carved(g, slots), p) == if Slots.Untouched(slots, p) then At(g, p) else Empty
  {
    Slots.CarvedAt(g, slots);
    if !Slots.Untouched(slots, p) {
      var j :| 0 <= j < |slots| && (p == slots[j].0 || p == slots[j].1);
    }
  }

  /** What the replay needs to know of the deal: the slots and their
      reordered cells are apart, the pairs are dealt in order, each dealt
      cell holds its tile, and the cells no slot uses hold what they held
      at the start, where every slot cell was occupied. */
  ghost predicate Replayable(g: Grid, start: Grid, slots: seq<Slots.Slot>,
                        placed: seq<Slots.Slot>, symbols: seq<(Tile, Tile)>)
  {
    && IsGrid(g) && IsGrid(start)
    && |slots| == 27 && |placed| == 27 && |symbols| == 27
    && Slots.OnBoard(slots) && Slots.OnBoard(placed) && Slots.SameSlots(placed, slots)
    && Slots.Apart(slots) && Slots.Apart(placed)
    && Deal.PairsInOrder(symbols) && Deal.Quicksilvers(symbols) == 5
    && (forall j :: 0 <= j < 27 ==>
          At(g, placed[j].0) == symbols[j].0 && At(g, placed[j].1) == symbols[j].1)
    && (forall j :: 0 <= j < 27 ==>
          At(start, slots[j].0) != Empty && At(start, slots[j].1) != Empty)
    && (forall p :: OnGrid(p) && Slots.Untouched(slots, p) ==> At(g, p) == At(start, p))
    && (forall p, k :: 0 <= k <= 27 ==> (Slots.Untouched(placed[..k], p) <==> Slots.Untouched(slots[..k], p)))
  }

  /** Filling the carved board writes the pairs and keeps the rest. */
  lemma FilledCells(c: Grid, g: Grid, start: Grid, slots: seq<Slots.Slot>,
                    placed: seq<Slots.Slot>, symbols: seq<(Tile, Tile)>)
    requires IsGrid(start) && Slots.OnBoard(slots) && Slots.OnBoard(placed)
    requires |placed| == |symbols| == |slots| && Slots.Apart(placed)
    requires forall p, k :: 0 <= k <= |slots| ==> (Slots.Untouched(placed[..k], p) <==> Slots.Untouched(slots[..k], p))
    requires c == Slots.Carved(start, slots) && g == Slots.Filled(c, placed, symbols)
    ensures forall j :: 0 <= j < |placed| ==>
      At(g, placed[j].0) == symbols[j].0 && At(g, placed[j].1) == symbols[j].1
    ensures forall p :: OnGrid(p) && Slots.Untouched(slots, p) ==> At(g, p) == At(start, p)
  {
    Slots.FilledAt(c, placed, symbols);
    Slots.CarvedAt(start, slots);
    assert placed[..|slots|] == placed && slots[..|slots|] == slots;
  }

  /** Every generated board satisfies what the replay needs. */
  lemma GeneratedDealt(g: Grid, start: Grid, m0: Tile, slots: seq<Slots.Slot>,
                       placed: seq<Slots.Slot>, symbols: seq<(Tile, Tile)>)
    requires Boards.Generated(g, Lead, start, m0, slots, placed, symbols)
    ensures Replayable(g, start, slots, placed, symbols)
  {
    Slots.CarvingApart(start, m0, slots);
    Slots.SameSlotsApart(placed, slots);
    FilledCells(Slots.Carved(start, slots), g, start, slots, placed, symbols);
  }

  /** A generated board holds Gold at the centre: no slot uses the centre. */
  lemma GeneratedCentre(g: Grid, start: Grid, positions: seq<Pos>, m0: Tile, slots: seq<Slots.Slot>,
                        placed: seq<Slots.Slot>, symbols: seq<(Tile, Tile)>)
    requires Boards.Generated(g, Lead, start, m0, slots, placed, symbols) && Boards.Seeded(start, positions)
    ensures At(g, Centre) == Gold
  {
    GeneratedDealt(g, start, m0, slots, placed, symbols);
    Slots.CarvingInWindow(start, m0, slots);
    assert Slots.Untouched(slots, Centre);
  }

  /** Halfway through the replay, a cell is Empty exactly when the carving
      had emptied it by that round. */
  lemma CellEmptiness(g: Grid, start: Grid, slots: seq<Slots.Slot>,
                      placed: seq<Slots.Slot>, symbols: seq<(Tile, Tile)>, k: int, p: Pos)
    requires Replayable(g, start, slots, placed, symbols) && 0 <= k <= 27 && OnGrid(p)
    ensures Slots.OnBoard(slots[..k])
    ensures At(Played(g, placed, k), p) == Empty <==> At(Slots.Carved(start, slots[..k]), p) == Empty
  {
    OnBoardPrefix(slots, k);
    OnBoardPrefix(placed, k);
    CarvedCell(g, placed[..k], p);
    CarvedCell(start, slots[..k], p);
    var b, h := Played(g, placed, k), Slots.Carved(start, slots[..k]);
    if !Slots.Untouched(slots[..k], p) {
      assert !Slots.Untouched(placed[..k], p);
      assert At(b, p) == Empty && At(h, p) == Empty;
    } else if !Slots.Untouched(slots, p) {
      assert Slots.Untouched(placed[..k], p);
      var j :| 0 <= j < 27 && (p == slots[j].0 || p == slots[j].1);
      assert Slots.SameSlot(placed[j], slots[j]) && Deal.PairKind(symbols[j]);
      NotYetPlayed(g, start, slots[j], placed[j], symbols[j], placed[..k], slots[..k], p);
    } else {
      assert Slots.Untouched(placed[..k], p);
      assert At(b, p) == At(g, p) == At(start, p) == At(h, p);
    }
  }

  /** A cell of the j-th slot, when no slot before the k-th uses it, is
      still occupied both in the replay and in the carving. */
  lemma NotYetPlayed(g: Grid, start: Grid, slot: Slots.Slot, cells: Slots.Slot, pair: (Tile, Tile),
                     before: seq<Slots.Slot>, carvedBefore: seq<Slots.Slot>, p: Pos)
    requires IsGrid(g) && IsGrid(start) && OnGrid(p)
    requires Slots.OnBoard(before) && Slots.OnBoard(carvedBefore)
    requires Slots.Untouched(before, p) && Slots.Untouched(carvedBefore, p)
    requires OnGrid(slot.0) && OnGrid(slot.1) && (p == slot.0 || p == slot.1)
    requires Slots.SameSlot(cells, slot) && Deal.PairKind(pair)
    requires At(g, cells.0) == pair.0 && At(g, cells.1) == pair.1
    requires At(start, slot.0) != Empty && At(start, slot.1) != Empty
    ensures At(Slots.Carved(g, before), p) != Empty && At(Slots.Carved(start, carvedBefore), p) != Empty
  {
    CarvedCell(g, before, p);
    CarvedCell(start, carvedBefore, p);
  }

  /** Halfway through the replay, exactly the cells the carving had emptied
      by that round are Empty. */
  lemma SameEmptiness(g: Grid, start: Grid, slots: seq<Slots.Slot>,
                      placed: seq<Slots.Slot>, symbols: seq<(Tile, Tile)>, k: int)
    requires Replayable(g, start, slots, placed, symbols) && 0 <= k <= 27
    ensures Slots.OnBoard(slots[..k])
    ensures forall p :: OnGrid(p) ==>
      (At(Played(g, placed, k), p) == Empty <==> At(Slots.Carved(start, slots[..k]), p) == Empty)
  {
    OnBoardPrefix(slots, k);
    forall p | OnGrid(p)
      ensures At(Played(g, placed, k), p) == Empty <==> At(Slots.Carved(start, slots[..k]), p) == Empty
    {
      CellEmptiness(g, start, slots, placed, symbols, k, p);
    }
  }

  /** The k-th carved slot: its two cells are different and, on the board
      the carving had then, hold Salt with an open side. */
  lemma CarvedSlot(start: Grid, positions: seq<Pos>, m0: Tile, slots: seq<Slots.Slot>, k: int)
    requires IsGrid(start) && Boards.Seeded(start, positions)
    requires Slots.Carving(start, m0, slots) && 0 <= k < |slots|
    ensures Slots.OnBoard(slots[..k]) && slots[k].0 != slots[k].1
    ensures InWindow(slots[k].0) && InWindow(slots[k].1)
    ensures OpenSide(Neighbours(Slots.Carved(start, slots[..k]), slots[k].0))
    ensures OpenSide(Neighbours(Slots.Carved(start, slots[..k]), slots[k].1))
  {
    Slots.CarvingRound(start, m0, slots, k);
    Slots.CarvingApart(start, m0, slots);
    Slots.CarvingInWindow(start, m0, slots);
    ApartFresh(slots, k);
    CarvedCell(start, slots[..k], slots[k].0);
    CarvedCell(start, slots[..k], slots[k].1);
  }

  /** The k-th dealt pair, on the board after the first k pairs: both tiles
      still lie on their cells, both cells are playable with an open side,
      and the metal to claim is a metal. */
  lemma PairReady(g: Grid, start: Grid, positions: seq<Pos>, m0: Tile, slots: seq<Slots.Slot>,
                  placed: seq<Slots.Slot>, symbols: seq<(Tile, Tile)>, k: int)
    requires Replayable(g, start, slots, placed, symbols) && Slots.Carving(start, m0, slots)
    requires Boards.Seeded(start, positions) && 0 <= k < 27
    ensures placed[k].0 != placed[k].1 && InWindow(placed[k].0) && InWindow(placed[k].1)
    ensures At(Played(g, placed, k), placed[k].0) == symbols[k].0
    ensures At(Played(g, placed, k), placed[k].1) == symbols[k].1
    ensures OpenSide(Neighbours(Played(g, placed, k), placed[k].0))
    ensures OpenSide(Neighbours(Played(g, placed, k), placed[k].1))
    ensures IsMetal(MetalAfter(symbols, k))
  {
    CarvedSlot(start, positions, m0, slots, k);
    SameEmptiness(g, start, slots, placed, symbols, k);
    var b, h := Played(g, placed, k), Slots.Carved(start, slots[..k]);
    assert Slots.SameSlot(placed[k], slots[k]);
    OpenSideByEmptiness(b, h, slots[k].0);
    OpenSideByEmptiness(b, h, slots[k].1);
    OnBoardPrefix(placed, k);
    ApartFresh(placed, k);
    CarvedCell(g, placed[..k], placed[k].0);
    CarvedCell(g, placed[..k], placed[k].1);
    Deal.QuicksilversPrefix(symbols, k);
  }

  /** Two playable cells with open sides holding a dealt pair, with the
      metal its Quicksilver needs, are a legal move in one of their orders. */
  lemma ReadyCellsMove(b: Grid, m: Tile, p: Pos, q: Pos, pair: (Tile, Tile))
    requires IsGrid(b) && InWindow(p) && InWindow(q) && p != q
    requires At(b, p) == pair.0 && At(b, q) == pair.1
    requires OpenSide(Neighbours(b, p)) && OpenSide(Neighbours(b, q))
    requires Deal.PairKind(pair) && IsMetal(m) && (pair.0 == Quicksilver ==> pair.1 == m)
    ensures IsMove(b, m, p, q) || IsMove(b, m, q, p)
  {
    assert MatchSpec(pair.0, pair.1, m);
    CanMatchSymmetric(pair.0, pair.1, m);
    assert !IsMetal(pair.0) && (IsMetal(pair.1) ==> pair.1 == m);
    assert Unlocked(b, m, p) && Unlocked(b, m, q);
    if Before(p, q) {
      assert IsMove(b, m, p, q);
    } else {
      assert p.0 != q.0 || p.1 != q.1;
      assert Before(q, p);
      assert IsMove(b, m, q, p);
    }
  }

  /** The k-th dealt pair is a legal move when its turn comes, in one of the
      two orders of its cells. */
  lemma PairIsMove(g: Grid, start: Grid, positions: seq<Pos>, m0: Tile, slots: seq<Slots.Slot>,
                   placed: seq<Slots.Slot>, symbols: seq<(Tile, Tile)>, k: int)
    requires Boards.Generated(g, Lead, start, m0, slots, placed, symbols) && Boards.Seeded(start, positions)
    requires 0 <= k < 27
    ensures var b, m := Played(g, placed, k), MetalAfter(symbols, k);
      IsMove(b, m, placed[k].0, placed[k].1) || IsMove(b, m, placed[k].1, placed[k].0)
  {
    GeneratedDealt(g, start, m0, slots, placed, symbols);
    PairReady(g, start, positions, m0, slots, placed, symbols, k);
    assert Deal.PairKind(symbols[k]);
    assert symbols[k].0 == Quicksilver ==> symbols[k].1 == MetalAfter(symbols, k);
    ReadyCellsMove(Played(g, placed, k), MetalAfter(symbols, k), placed[k].0, placed[k].1, symbols[k]);
  }

  /** Playing the k-th dealt pair empties its two cells, giving the board
      after k + 1 pairs, and claims a metal exactly when one of its tiles is
      Quicksilver. */
  lemma PlayPair(g: Grid, start: Grid, m0: Tile, slots: seq<Slots.Slot>,
                 placed: seq<Slots.Slot>, symbols: seq<(Tile, Tile)>, k: int)
    requires Boards.Generated(g, Lead, start, m0, slots, placed, symbols) && 0 <= k < 27
    ensures var b := Played(g, placed, k);
      Played(g, placed, k + 1) == Put(Put(b, placed[k].0, Empty), placed[k].1, Empty)
    ensures var b := Played(g, placed, k);
      MetalAfter(symbols, k + 1) == MetalAfter(symbols, k) +
        if At(b, placed[k].0) == Quicksilver || At(b, placed[k].1) == Quicksilver then 1 else 0
  {
    GeneratedDealt(g, start, m0, slots, placed, symbols);
    PlayStep(g, placed, symbols, k);
  }

  /** One step of the replay on the facts it needs. */
  lemma PlayStep(g: Grid, placed: seq<Slots.Slot>, symbols: seq<(Tile, Tile)>, k: int)
    requires IsGrid(g) && Slots.OnBoard(placed) && Slots.Apart(placed) && |symbols| == |placed|
    requires 0 <= k < |placed| && Deal.PairKind(symbols[k])
    requires At(g, placed[k].0) == symbols[k].0 && At(g, placed[k].1) == symbols[k].1
    ensures var b := Played(g, placed, k);
      Played(g, placed, k + 1) == Put(Put(b, placed[k].0, Empty), placed[k].1, Empty)
    ensures var b := Played(g, placed, k);
      MetalAfter(symbols, k + 1) == MetalAfter(symbols, k) +
        if At(b, placed[k].0) == Quicksilver || At(b, placed[k].1) == Quicksilver then 1 else 0
  {
    OnBoardPrefix(placed, k);
    ApartFresh(placed, k);
    CarvedCell(g, placed[..k], placed[k].0);
    CarvedCell(g, placed[..k], placed[k].1);
    assert placed[..k + 1][..k] == placed[..k];
    assert symbols[..k + 1][..k] == symbols[..k];
  }

  /** Once all 27 pairs are played every dealt cell is Empty, and what is
      left is the seeded board outside the dealt cells, Gold at the centre
      among it. */
  lemma AllPlayed(g: Grid, start: Grid, positions: seq<Pos>, m0: Tile, slots: seq<Slots.Slot>,
                  placed: seq<Slots.Slot>, symbols: seq<(Tile, Tile)>)
    requires Boards.Generated(g, Lead, start, m0, slots, placed, symbols) && Boards.Seeded(start, positions)
    ensures forall j :: 0 <= j < 27 ==>
      At(Played(g, placed, 27), placed[j].0) == Empty && At(Played(g, placed, 27), placed[j].1) == Empty
    ensures forall p :: OnGrid(p) && Slots.Untouched(placed, p) ==> At(Played(g, placed, 27), p) == At(start, p)
    ensures At(Played(g, placed, 27), Centre) == Gold
  {
    GeneratedDealt(g, start, m0, slots, placed, symbols);
    Slots.CarvingInWindow(start, m0, slots);
    assert placed[..27] == placed && slots[..27] == slots;
    Slots.CarvedAt(g, placed);
    assert Slots.Untouched(slots, Centre);
  }

  // ------------------------------------------------- nothing is left over

  /** The cells the slots use. */
  ghost function SlotCells(slots: seq<Slots.Slot>): set<Pos>
    decreases |slots|
  {
    if slots == [] then {}
    else SlotCells(slots[..|slots| - 1]) + {slots[|slots| - 1].0} + {slots[|slots| - 1].1}
  }

  /** A cell is among the slot cells exactly when a slot uses it. */
  lemma {:induction false} SlotCellsOf(slots: seq<Slots.Slot>)
    ensures forall p :: p in SlotCells(slots) <==> !Slots.Untouched(slots, p)
    decreases |slots|
  {
    if slots != [] {
      var n := |slots| - 1;
      var prefix := slots[..n];
      SlotCellsOf(prefix);
      forall p ensures p in SlotCells(slots) <==> !Slots.Untouched(slots, p) {
        if !Slots.Untouched(prefix, p) {
          var j :| 0 <= j < n && (p == prefix[j].0 || p == prefix[j].1);
          assert prefix[j] == slots[j];
        } else if Slots.Untouched(slots, p) {
          assert p != slots[n].0 && p != slots[n].1;
        }
      }
    }
  }

  /** Slots that are apart use two cells each. */
  lemma {:induction false} SlotCellsCount(slots: seq<Slots.Slot>)
    requires Slots.Apart(slots)
    ensures |SlotCells(slots)| == 2 * |slots|
    decreases |slots|
  {
    if slots != [] {
      var n := |slots| - 1;
      var prefix, last := slots[..n], slots[n];
      assert Slots.Apart(prefix) by {
        assert forall j :: 0 <= j < n ==> prefix[j] == slots[j];
      }
      SlotCellsCount(prefix);
      SlotCellsOf(prefix);
      ApartFresh(slots, n);
      assert last.0 !in SlotCells(prefix) && last.1 !in SlotCells(prefix) && last.0 != last.1;
    }
  }

  /** A list has at least as many entries as it has different ones. */
  lemma {:induction false} MembersBound(s: seq<Pos>)
    ensures |set p | p in s| <= |s|
    decreases |s|
  {
    if s != [] {
      var n := |s| - 1;
      MembersBound(s[..n]);
      assert (set p | p in s) == (set p | p in s[..n]) + {s[n]} by {
        assert s == s[..n] + [s[n]];
      }
    }
  }

  /** When the layout lists 54 cells, the 27 carved slots use every one of
      them: each slot cell started with Salt, so it is a layout cell, and
      the slots use 54 different cells. */
  lemma SlotsCoverLayout(start: Grid, positions: seq<Pos>, m0: Tile, slots: seq<Slots.Slot>)
    requires IsGrid(start) && Boards.Seeded(start, positions) && Slots.Carving(start, m0, slots)
    requires |slots| == 27 && |positions| == 54
    ensures forall p :: p in positions ==> !Slots.Untouched(slots, p)
  {
    Slots.CarvingApart(start, m0, slots);
    Slots.CarvingInWindow(start, m0, slots);
    SlotCellsOf(slots);
    SlotCellsCount(slots);
    MembersBound(positions);
    var used, listed := SlotCells(slots), set p | p in positions;
    SlotCellsListed(start, positions, slots);
    assert used * listed == used;
    assert |listed - used| == 0;
    forall p | p in positions ensures !Slots.Untouched(slots, p) {
      assert p in listed && p !in listed - used;
    }
  }

  /** Slot cells that were occupied at the start, off the centre, are layout cells. */
  lemma SlotCellsListed(start: Grid, positions: seq<Pos>, slots: seq<Slots.Slot>)
    requires IsGrid(start) && Boards.Seeded(start, positions) && Slots.OnBoard(slots)
    requires forall j :: 0 <= j < |slots| ==> At(start, slots[j].0) != Empty && At(start, slots[j].1) != Empty
    requires forall j :: 0 <= j < |slots| ==> slots[j].0 != Centre && slots[j].1 != Centre
    ensures SlotCells(slots) <= set p | p in positions
  {
    SlotCellsOf(slots);
    forall c | c in SlotCells(slots) ensures c in positions {
      var j :| 0 <= j < |slots| && (c == slots[j].0 || c == slots[j].1);
      assert OnGrid(c);
    }
  }

  /** On a generated board, from a layout of 54 cells, every cell no slot
      uses is Empty, the centre apart: the board holds the dealt pairs and
      Gold and nothing else. */
  lemma OnlyDealtTiles(g: Grid, start: Grid, positions: seq<Pos>, m0: Tile, slots: seq<Slots.Slot>,
                       placed: seq<Slots.Slot>, symbols: seq<(Tile, Tile)>)
    requires Boards.Generated(g, Lead, start, m0, slots, placed, symbols) && Boards.Seeded(start, positions)
    requires |positions| == 54
    ensures forall p :: OnGrid(p) && p != Centre && Slots.Untouched(placed, p) ==>
      At(start, p) == Empty && At(g, p) == Empty
  {
    GeneratedDealt(g, start, m0, slots, placed, symbols);
    SlotsCoverLayout(start, positions, m0, slots);
    assert placed[..27] == placed && slots[..27] == slots;
    forall p | OnGrid(p) && p != Centre && Slots.Untouched(placed, p)
      ensures At(start, p) == Empty && At(g, p) == Empty
    {
      assert Slots.Untouched(slots, p);
      assert p !in positions;
    }
  }

  /** Every cell of the layout a board was generated from lies in the
      window: a layout whose cells the flip moves out of the window is
      never the one a generated board comes from. */
  lemma LayoutInWindow(g: Grid, start: Grid, positions: seq<Pos>, m0: Tile, slots: seq<Slots.Slot>,
                       placed: seq<Slots.Slot>, symbols: seq<(Tile, Tile)>)
    requires Boards.Generated(g, Lead, start, m0, slots, placed, symbols) && Boards.Seeded(start, positions)
    requires |positions| == 54
    ensures forall p :: p in positions ==> InWindow(p)
  {
    SlotsCoverLayout(start, positions, m0, slots);
    Slots.CarvingInWindow(start, m0, slots);
    forall p | p in positions ensures InWindow(p) {
      var j :| 0 <= j < 27 && (p == slots[j].0 || p == slots[j].1);
    }
  }

  /** A board holding nothing but the centre tile has no move. */
  lemma OnlyCentreNoMove(b: Grid, m: Tile)
    requires IsGrid(b) && forall p :: OnGrid(p) && p != Centre ==> At(b, p) == Empty
    ensures NoMove(b, m)
  {
    forall p, q ensures !IsMove(b, m, p, q) {
      if Before(p, q) {
        var r := if p != Centre then p else q;
        assert r != Centre;
        assert !Selectable(b, m, r);
      }
    }
  }

  /** Every generated board, from a layout of 54 cells, is solved by its
      replay: after the 27 dealt pairs only Gold is left, at the centre,
      Gold is the metal to claim, no pair move is left, and Gold is free,
      so the last click (or `random_move`'s centre rule) clears the board. */
  lemma Solvable(g: Grid, start: Grid, positions: seq<Pos>, m0: Tile, slots: seq<Slots.Slot>,
                 placed: seq<Slots.Slot>, symbols: seq<(Tile, Tile)>)
    requires Boards.Generated(g, Lead, start, m0, slots, placed, symbols) && Boards.Seeded(start, positions)
    requires |positions| == 54
    ensures var b := Played(g, placed, 27);
      && (forall p :: OnGrid(p) && p != Centre ==> At(b, p) == Empty)
      && At(b, Centre) == Gold && MetalAfter(symbols, 27) == Gold
      && Unlocked(b, Gold, Centre) && NoMove(b, Gold)
  {
    AllPlayed(g, start, positions, m0, slots, placed, symbols);
    OnlyDealtTiles(g, start, positions, m0, slots, placed, symbols);
    var b := Played(g, placed, 27);
    forall p | OnGrid(p) && p != Centre ensures At(b, p) == Empty {
      if !Slots.Untouched(placed, p) {
        var j :| 0 <= j < 27 && (p == placed[j].0 || p == placed[j].1);
      }
    }
    assert symbols[..27] == symbols;
    var ns := Neighbours(b, Centre);
    assert NeighbourCells(Centre)[0] != Centre && NeighbourCells(Centre)[1] != Centre
      && NeighbourCells(Centre)[2] != Centre;
    assert EmptyRun(ns, 0);
    OnlyCentreNoMove(b, Gold);
  }

  /** The same for the boards `generate` deals: catalogue layouts list 54
      cells, flipped or not. */
  lemma GeneratedSolvable(layouts: seq<seq<string>>, index: int, flip: bool,
                          g: Grid, start: Grid, positions: seq<Pos>, m0: Tile, slots: seq<Slots.Slot>,
                          placed: seq<Slots.Slot>, symbols: seq<(Tile, Tile)>)
    requires 0 <= index < |layouts| && Layout.WellFormed(layouts[index])
    requires positions == Layout.Positions(layouts[index], flip)
    requires Boards.Generated(g, Lead, start, m0, slots, placed, symbols) && Boards.Seeded(start, positions)
    ensures var b := Played(g, placed, 27);
      && (forall p :: OnGrid(p) && p != Centre ==> At(b, p) == Empty)
      && Unlocked(b, MetalAfter(symbols, 27), Centre) && NoMove(b, MetalAfter(symbols, 27))
    ensures forall p :: p in positions ==> InWindow(p)
  {
    Layout.PositionsCount(layouts[index], flip);
    Solvable(g, start, positions, m0, slots, placed, symbols);
    LayoutInWindow(g, start, positions, m0, slots, placed, symbols);
  }
}
