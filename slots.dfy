/** The slot phase of `generate`: starting from the layout's cells all
    holding Salt and Gold at the centre, 27 rounds each empty two free
    non-centre cells, recording them as a slot. Later the symbols are dealt
    onto the slots. */
module Slots {
  import opened Tiles
  import opened Hex
  import opened Rules
  import Random

  /** Two cells emptied in one round. */
  type Slot = (Pos, Pos)

  /** A cell a round may empty: selectable and not the centre. */
  predicate Candidate(g: Grid, nextMetal: Tile, p: Pos)
    requires IsGrid(g)
  {
    Selectable(g, nextMetal, p) && p != Centre
  }

  /** No two different cells are candidates: a round cannot go on. */
  ghost predicate Cornered(g: Grid, nextMetal: Tile)
    requires IsGrid(g)
  {
    forall p, q :: Candidate(g, nextMetal, p) && Candidate(g, nextMetal, q) ==> p == q
  }

  ghost predicate OnBoard(slots: seq<Slot>) {
    forall k :: 0 <= k < |slots| ==> OnGrid(slots[k].0) && OnGrid(slots[k].1)
  }

  /** No slot uses p. */
  ghost predicate Untouched(slots: seq<Slot>, p: Pos) {
    forall j :: 0 <= j < |slots| ==> p != slots[j].0 && p != slots[j].1
  }

  /** No cell belongs to two slots and no slot uses a cell twice. */
  ghost predicate Apart(slots: seq<Slot>) {
    forall i, j :: 0 <= i < |slots| && 0 <= j < |slots| ==>
      slots[i].0 != slots[j].1 && (i != j ==> slots[i].0 != slots[j].0 && slots[i].1 != slots[j].1)
  }

  /** The board with the cells of the slots emptied, slot after slot. */
  ghost function Carved(g: Grid, slots: seq<Slot>): (h: Grid)
    requires IsGrid(g) && OnBoard(slots)
    ensures IsGrid(h)
    decreases |slots|
  {
    if slots == [] then g
    else
      var last := slots[|slots| - 1];
      Put(Put(Carved(g, slots[..|slots| - 1]), last.0, Empty), last.1, Empty)
  }

  /** Each slot is two different cells that were candidates on the board
      left by the slots before it. */
  ghost predicate Carving(g: Grid, nextMetal: Tile, slots: seq<Slot>)
    requires IsGrid(g)
    decreases |slots|
  {
    OnBoard(slots) &&
    (slots == [] ||
      var prefix, last := slots[..|slots| - 1], slots[|slots| - 1];
      && Carving(g, nextMetal, prefix)
      && last.0 != last.1
      && Candidate(Carved(g, prefix), nextMetal, last.0)
      && Candidate(Carved(g, prefix), nextMetal, last.1))
  }

  /** Carving empties exactly the slot cells. */
  lemma {:induction false} CarvedAt(g: Grid, slots: seq<Slot>)
    requires IsGrid(g) && OnBoard(slots)
    ensures forall j :: 0 <= j < |slots| ==>
      At(Carved(g, slots), slots[j].0) == Empty && At(Carved(g, slots), slots[j].1) == Empty
    ensures forall p :: OnGrid(p) && Untouched(slots, p) ==> At(Carved(g, slots), p) == At(g, p)
  {
    if slots != [] {
      var prefix := slots[..|slots| - 1];
      assert OnBoard(prefix) by {
        forall k | 0 <= k < |prefix| ensures OnGrid(prefix[k].0) && OnGrid(prefix[k].1) {
          assert prefix[k] == slots[k];
        }
      }
      CarvedAt(g, prefix);
      forall j | 0 <= j < |slots| - 1
        ensures At(Carved(g, slots), slots[j].0) == Empty && At(Carved(g, slots), slots[j].1) == Empty
      {
        assert slots[j] == prefix[j];
      }
      forall p | OnGrid(p) && Untouched(slots, p) ensures At(Carved(g, slots), p) == At(g, p) {
        assert Untouched(prefix, p) by {
          forall j | 0 <= j < |prefix| ensures p != prefix[j].0 && p != prefix[j].1 {
            assert prefix[j] == slots[j];
          }
        }
        assert p != slots[|slots| - 1].0 && p != slots[|slots| - 1].1;
      }
    }
  }

  /** The slots of a carving are apart, and their cells were occupied at
      the start. */
  lemma {:induction false} CarvingApart(g: Grid, nextMetal: Tile, slots: seq<Slot>)
    requires IsGrid(g) && Carving(g, nextMetal, slots)
    ensures Apart(slots)
    ensures forall j :: 0 <= j < |slots| ==> At(g, slots[j].0) != Empty && At(g, slots[j].1) != Empty
  {
    if slots != [] {
      var n := |slots| - 1;
      var prefix, last := slots[..n], slots[n];
      CarvingApart(g, nextMetal, prefix);
      LastSlotFresh(g, nextMetal, slots);
      ApartLast(slots);
      forall j | 0 <= j < n ensures At(g, slots[j].0) != Empty && At(g, slots[j].1) != Empty {
        assert slots[j] == prefix[j];
      }
    }
  }

  /** The last slot of a carving is two different cells that no earlier
      slot uses and that were occupied at the start. */
  lemma LastSlotFresh(g: Grid, nextMetal: Tile, slots: seq<Slot>)
    requires IsGrid(g) && Carving(g, nextMetal, slots) && slots != []
    ensures var prefix, last := slots[..|slots| - 1], slots[|slots| - 1];
      && last.0 != last.1 && Untouched(prefix, last.0) && Untouched(prefix, last.1)
      && At(g, last.0) != Empty && At(g, last.1) != Empty
  {
    var prefix, last := slots[..|slots| - 1], slots[|slots| - 1];
    CarvedAt(g, prefix);
    var h := Carved(g, prefix);
    assert At(h, last.0) != Empty && At(h, last.1) != Empty;
  }

  /** A last slot of two different cells no earlier slot uses keeps the slots apart. */
  lemma ApartLast(slots: seq<Slot>)
    requires slots != [] && Apart(slots[..|slots| - 1])
    requires var prefix, last := slots[..|slots| - 1], slots[|slots| - 1];
      Untouched(prefix, last.0) && Untouched(prefix, last.1) && last.0 != last.1
    ensures Apart(slots)
  {
    var n := |slots| - 1;
    var prefix := slots[..n];
    forall i, j | 0 <= i < |slots| && 0 <= j < |slots|
      ensures slots[i].0 != slots[j].1 && (i != j ==> slots[i].0 != slots[j].0 && slots[i].1 != slots[j].1)
    {
      if i < n {
        assert slots[i] == prefix[i];
      }
      if j < n {
        assert slots[j] == prefix[j];
      }
    }
  }

  /** The first k slots of a carving are a carving. */
  lemma {:induction false} CarvingPrefix(g: Grid, nextMetal: Tile, slots: seq<Slot>, k: int)
    requires IsGrid(g) && Carving(g, nextMetal, slots) && 0 <= k <= |slots|
    ensures Carving(g, nextMetal, slots[..k])
    decreases |slots|
  {
    if k < |slots| {
      var prefix := slots[..|slots| - 1];
      CarvingPrefix(g, nextMetal, prefix, k);
      assert prefix[..k] == slots[..k];
    } else {
      assert slots[..k] == slots;
    }
  }

  /** Slot k of a carving was two different candidates on the board the
      slots before it leave. */
  lemma CarvingRound(g: Grid, nextMetal: Tile, slots: seq<Slot>, k: int)
    requires IsGrid(g) && Carving(g, nextMetal, slots) && 0 <= k < |slots|
    ensures Carving(g, nextMetal, slots[..k])
    ensures slots[k].0 != slots[k].1
    ensures Candidate(Carved(g, slots[..k]), nextMetal, slots[k].0)
    ensures Candidate(Carved(g, slots[..k]), nextMetal, slots[k].1)
  {
    CarvingPrefix(g, nextMetal, slots, k + 1);
    var upto := slots[..k + 1];
    assert upto[..k] == slots[..k] && upto[k] == slots[k];
  }

  /** `shuffle` on a two-cell list either keeps or swaps its cells. */
  predicate SameSlot(a: Slot, b: Slot) {
    (a.0 == b.0 && a.1 == b.1) || (a.0 == b.1 && a.1 == b.0)
  }

  /** Each placed slot is the slot of the same rank, in either order. */
  ghost predicate SameSlots(placed: seq<Slot>, slots: seq<Slot>) {
    |placed| <= |slots| && forall k :: 0 <= k < |placed| ==> SameSlot(placed[k], slots[k])
  }

  lemma SameSlotsStep(placed: seq<Slot>, slots: seq<Slot>, a: Pos, b: Pos)
    requires SameSlots(placed, slots) && |placed| < |slots| && SameSlot((a, b), slots[|placed|])
    ensures SameSlots(placed + [(a, b)], slots)
  {
    var next := placed + [(a, b)];
    forall k | 0 <= k < |next| ensures SameSlot(next[k], slots[k]) {
      if k < |placed| {
        assert next[k] == placed[k];
      }
    }
  }

  /** The board with the symbols placed on the slots, the first symbol of
      each pair on the slot's first cell. */
  ghost function Filled(g: Grid, placed: seq<Slot>, symbols: seq<(Tile, Tile)>): (h: Grid)
    requires IsGrid(g) && OnBoard(placed) && |placed| == |symbols|
    ensures IsGrid(h)
    decreases |placed|
  {
    if placed == [] then g
    else
      var n := |placed| - 1;
      Put(Put(Filled(g, placed[..n], symbols[..n]), placed[n].0, symbols[n].0), placed[n].1, symbols[n].1)
  }

  /** The splice of `generate`: removes the first occurrence of the centre
      from a list of cells. */
  method SpliceCentre(cells: seq<Pos>) returns (rest: seq<Pos>)
    ensures Centre !in cells ==> rest == cells
    ensures Centre in cells ==>
      exists i :: 0 <= i < |cells| && cells[i] == Centre && Centre !in cells[..i] && rest == cells[..i] + cells[i + 1..]
    ensures Ascending(cells) ==> Ascending(rest) && forall p :: p in rest <==> p in cells && p != Centre
  {
    rest := cells;
    for i := 0 to |cells|
      invariant Centre !in cells[..i]
    {
      if cells[i].0 == 6 && cells[i].1 == 6 {
        rest := cells[..i] + cells[i + 1..];
        assert cells == cells[..i] + [cells[i]] + cells[i + 1..];
        return;
      }
    }
    assert cells[..|cells|] == cells;
  }

  /** Cells listed in row-major order are listed once each. */
  lemma AscendingDistinct(s: seq<Pos>)
    requires Ascending(s)
    ensures Random.Distinct(s)
  {
  }

  /** The end of a slot round: with fewer than two candidates left the
      round is stuck; otherwise the list is shuffled and its last two cells,
      two different candidates, are taken. */
  method PickTwo(cells: seq<Pos>, ghost g: Grid, nextMetal: Tile) returns (found: bool, a: Pos, b: Pos)
    requires IsGrid(g) && Random.Distinct(cells)
    requires forall p :: p in cells <==> Candidate(g, nextMetal, p)
    ensures found ==> a != b && Candidate(g, nextMetal, a) && Candidate(g, nextMetal, b)
    ensures !found ==> Cornered(g, nextMetal)
  {
    if |cells| < 2 {
      FewCandidates(g, nextMetal, cells);
      return false, (0, 0), (0, 0);
    }
    var shuffled, js := Random.ShuffleList(cells);
    a, b := shuffled[|shuffled| - 1], shuffled[|shuffled| - 2];
    assert a in multiset(shuffled) && b in multiset(shuffled);
    found := true;
  }

  /** A list of all the candidates, each once, with fewer than two entries
      leaves the round without a pair. */
  lemma FewCandidates(g: Grid, nextMetal: Tile, cells: seq<Pos>)
    requires IsGrid(g) && Random.Distinct(cells) && |cells| < 2
    requires forall p :: p in cells <==> Candidate(g, nextMetal, p)
    ensures Cornered(g, nextMetal)
  {
  }

  /** One more round: a slot of two different candidates extends the carving. */
  lemma CarvingStep(g: Grid, nextMetal: Tile, slots: seq<Slot>, a: Pos, b: Pos)
    requires IsGrid(g) && Carving(g, nextMetal, slots) && a != b
    requires Candidate(Carved(g, slots), nextMetal, a) && Candidate(Carved(g, slots), nextMetal, b)
    ensures Carving(g, nextMetal, slots + [(a, b)])
    ensures Carved(g, slots + [(a, b)]) == Put(Put(Carved(g, slots), a, Empty), b, Empty)
  {
    assert (slots + [(a, b)])[..|slots|] == slots;
  }

  /** One more slot filled with a pair of tiles. */
  lemma FilledStep(g: Grid, placed: seq<Slot>, symbols: seq<(Tile, Tile)>, a: Pos, b: Pos, pair: (Tile, Tile))
    requires IsGrid(g) && OnBoard(placed) && |placed| == |symbols| && OnGrid(a) && OnGrid(b)
    ensures OnBoard(placed + [(a, b)])
    ensures Filled(g, placed + [(a, b)], symbols + [pair]) == Put(Put(Filled(g, placed, symbols), a, pair.0), b, pair.1)
  {
    assert (placed + [(a, b)])[..|placed|] == placed;
    assert (symbols + [pair])[..|symbols|] == symbols;
  }

  /** A shuffled two-cell list is the slot in one order or the other. */
  lemma ShuffledSlot(s: seq<Pos>, slot: Slot)
    requires |s| == 2 && multiset(s) == multiset([slot.0, slot.1])
    ensures SameSlot((s[0], s[1]), slot)
  {
    var m := multiset{slot.0, slot.1};
    assert s == [s[0], s[1]];
    assert multiset(s) == multiset{s[0], s[1]} == m;
    assert s[0] in m;
    if s[0] == slot.0 {
      assert multiset{s[1]} == m - multiset{slot.0} == multiset{slot.1};
    } else {
      assert s[0] == slot.1;
      assert multiset{s[1]} == m - multiset{slot.1} == multiset{slot.0};
    }
  }

  /** Every slot of a carving is two playable cells other than the centre. */
  lemma {:induction false} CarvingInWindow(g: Grid, nextMetal: Tile, slots: seq<Slot>)
    requires IsGrid(g) && Carving(g, nextMetal, slots)
    ensures forall k :: 0 <= k < |slots| ==>
      InWindow(slots[k].0) && InWindow(slots[k].1) && slots[k].0 != Centre && slots[k].1 != Centre
  {
    if slots != [] {
      var prefix := slots[..|slots| - 1];
      CarvingInWindow(g, nextMetal, prefix);
      forall k | 0 <= k < |prefix|
        ensures InWindow(slots[k].0) && InWindow(slots[k].1) && slots[k].0 != Centre && slots[k].1 != Centre
      {
        assert slots[k] == prefix[k];
      }
    }
  }

  /** Filling writes each slot's pair on its two cells and leaves the
      other cells alone. */
  lemma {:induction false} FilledAt(g: Grid, placed: seq<Slot>, symbols: seq<(Tile, Tile)>)
    requires IsGrid(g) && OnBoard(placed) && |placed| == |symbols| && Apart(placed)
    ensures forall j :: 0 <= j < |placed| ==>
      At(Filled(g, placed, symbols), placed[j].0) == symbols[j].0 && At(Filled(g, placed, symbols), placed[j].1) == symbols[j].1
    ensures forall p :: OnGrid(p) && Untouched(placed, p) ==> At(Filled(g, placed, symbols), p) == At(g, p)
  {
    if placed != [] {
      var n := |placed| - 1;
      var prefix, syms := placed[..n], symbols[..n];
      assert OnBoard(prefix) && Apart(prefix) by {
        forall j | 0 <= j < n ensures prefix[j] == placed[j] {
        }
      }
      FilledAt(g, prefix, syms);
      forall j | 0 <= j < n
        ensures At(Filled(g, placed, symbols), placed[j].0) == symbols[j].0
        ensures At(Filled(g, placed, symbols), placed[j].1) == symbols[j].1
      {
        assert prefix[j] == placed[j] && syms[j] == symbols[j];
      }
      forall p | OnGrid(p) && Untouched(placed, p) ensures At(Filled(g, placed, symbols), p) == At(g, p) {
        assert Untouched(prefix, p) by {
          forall j | 0 <= j < n ensures p != prefix[j].0 && p != prefix[j].1 {
            assert prefix[j] == placed[j];
          }
        }
        assert p != placed[n].0 && p != placed[n].1;
      }
    }
  }

  /** Reordering the cells within slots keeps them apart and uses the same
      cells. */
  lemma SameSlotsApart(placed: seq<Slot>, slots: seq<Slot>)
    requires SameSlots(placed, slots) && |placed| == |slots| && Apart(slots)
    ensures Apart(placed)
    ensures forall p, k :: 0 <= k <= |slots| ==> (Untouched(placed[..k], p) <==> Untouched(slots[..k], p))
  {
    forall i, j | 0 <= i < |slots| && 0 <= j < |slots|
      ensures placed[i].0 != placed[j].1 && (i != j ==> placed[i].0 != placed[j].0 && placed[i].1 != placed[j].1)
    {
      assert SameSlot(placed[i], slots[i]) && SameSlot(placed[j], slots[j]);
    }
    forall p, k | 0 <= k <= |slots| ensures Untouched(placed[..k], p) <==> Untouched(slots[..k], p) {
      assert forall j :: 0 <= j < k ==> placed[..k][j] == placed[j] && slots[..k][j] == slots[j] && SameSlot(placed[j], slots[j]);
    }
  }
}

