/** The parts of the `Game` class that hold rules: the "m:ss" clock format
    and the click handler `select`, which keeps at most one selected cell,
    removes Gold with a single click once it is the metal to claim, and
    otherwise pairs the selected cell with the clicked one. */
module Games {
  import opened Tiles
  import opened Hex
  import opened Rules
  import Boards

  datatype Option<T> = None | Some(value: T)

  // ------------------------------------------------------------ time format

  function DigitChar(d: int): (c: char)
    requires 0 <= d < 10
    ensures '0' <= c <= '9'
  {
    ('0' as int + d) as char
  }

  /** The decimal representation of a natural number, as JavaScript turns a
      non-negative integer into a string: no leading zeros, "0" for zero. */
  function Digits(n: nat): (ds: string)
    ensures 1 <= |ds| && (n >= 10 ==> 2 <= |ds|)
    ensures forall i :: 0 <= i < |ds| ==> '0' <= ds[i] <= '9'
    decreases n
  {
    if n < 10 then [DigitChar(n)] else Digits(n / 10) + [DigitChar(n % 10)]
  }

  /** The value of a string of decimal digits. */
  function ReadDigits(ds: string): nat
    requires forall i :: 0 <= i < |ds| ==> '0' <= ds[i] <= '9'
  {
    if ds == [] then 0
    else ReadDigits(ds[..|ds| - 1]) * 10 + (ds[|ds| - 1] as int - '0' as int)
  }

  /** Reading back the decimal representation gives the number. */
  lemma {:induction false} ReadDigitsOf(n: nat)
    ensures ReadDigits(Digits(n)) == n
    decreases n
  {
    if n >= 10 {
      ReadDigitsOf(n / 10);
      var ds := Digits(n);
      assert ds[..|ds| - 1] == Digits(n / 10);
    }
  }

  /** `format_time`: whole minutes, a colon, and the last two digits of the
      seconds plus 1000, which pads the seconds to two digits. The clock
      reads minutes, a colon and the seconds as exactly two digits. */
  function FormatTime(elapsed: nat): (s: string)
    ensures s == Digits(elapsed / 60) + ":" + [DigitChar(elapsed % 60 / 10), DigitChar(elapsed % 60 % 10)]
  {
    var minutes, seconds := elapsed / 60, elapsed % 60;
    var padded := Digits(seconds + 1000);
    assert padded == Digits(100 + seconds / 10) + [DigitChar(seconds % 10)];
    assert Digits(100 + seconds / 10) == Digits(10) + [DigitChar(seconds / 10)];
    Digits(minutes) + ":" + padded[|padded| - 2..]
  }

  /** The index of the first colon, if there is one. */
  function FindColon(s: string): (i: Option<nat>)
    ensures i.Some? ==> i.value < |s| && s[i.value] == ':' && forall j :: 0 <= j < i.value ==> s[j] != ':'
    ensures i.None? ==> forall j :: 0 <= j < |s| ==> s[j] != ':'
  {
    if s == [] then None
    else if s[0] == ':' then Some(0)
    else match FindColon(s[1..]) {
      case None => None
      case Some(i) => Some(i + 1)
    }
  }

  predicate AllDigits(s: string) {
    forall i :: 0 <= i < |s| ==> '0' <= s[i] <= '9'
  }

  /** Reads a clock back: digits, a colon, and two digits below 60. */
  function ParseTime(s: string): (r: Option<nat>)
    ensures r.Some? ==> exists i :: 0 < i < |s| && s[i] == ':' && |s| == i + 3
  {
    match FindColon(s) {
      case None => None
      case Some(i) =>
        var minutes, seconds := s[..i], s[i + 1..];
        if minutes != [] && AllDigits(minutes) && |seconds| == 2 && AllDigits(seconds)
           && ReadDigits(seconds) < 60
        then Some(ReadDigits(minutes) * 60 + ReadDigits(seconds))
        else None
    }
  }

  /** The first colon after a run of digits is the one that ends it. */
  lemma ColonAfterDigits(ds: string, rest: string)
    requires AllDigits(ds)
    ensures FindColon(ds + ":" + rest) == Some(|ds|)
  {
    var s := ds + ":" + rest;
    assert s[|ds|] == ':';
    assert forall j :: 0 <= j < |ds| ==> s[j] == ds[j];
  }

  /** Two digits read as a number below 100. */
  lemma ReadTwoDigits(a: int, b: int)
    requires 0 <= a < 10 && 0 <= b < 10
    ensures ReadDigits([DigitChar(a), DigitChar(b)]) == 10 * a + b
  {
    var ds := [DigitChar(a), DigitChar(b)];
    assert DigitChar(a) as int - '0' as int == a && DigitChar(b) as int - '0' as int == b;
    assert ds[..1] == [DigitChar(a)] && [DigitChar(a)][..0] == [];
    assert ReadDigits([DigitChar(a)]) == a;
    assert ReadDigits(ds) == ReadDigits(ds[..1]) * 10 + b;
  }

  /** Every clock reading reads back as the time it shows. */
  lemma ParseFormatTime(elapsed: nat)
    ensures ParseTime(FormatTime(elapsed)) == Some(elapsed)
  {
    var ms := Digits(elapsed / 60);
    var ss := [DigitChar(elapsed % 60 / 10), DigitChar(elapsed % 60 % 10)];
    var s := ms + ":" + ss;
    assert FormatTime(elapsed) == s;
    ColonAfterDigits(ms, ss);
    assert s[..|ms|] == ms && s[|ms| + 1..] == ss;
    ReadDigitsOf(elapsed / 60);
    ReadTwoDigits(elapsed % 60 / 10, elapsed % 60 % 10);
  }

  /** Different times never show the same clock. */
  lemma FormatTimeInjective(a: nat, b: nat)
    requires FormatTime(a) == FormatTime(b)
    ensures a == b
  {
    ParseFormatTime(a);
    ParseFormatTime(b);
  }

  // --------------------------------------------------------------- selection

  /** What a click sees and changes: the grid, the metal to claim, the
      selected cell, and whether the timer has started. */
  datatype View = View(grid: Grid, nextMetal: Tile, selected: Option<Pos>, started: bool)

  predicate ValidView(v: View) {
    IsGrid(v.grid) && (v.selected.Some? ==> OnGrid(v.selected.value))
  }

  /** A cell is only ever selected while its tile is free, is not Gold and is
      not the restart marker. */
  predicate SelectionFree(v: View)
    requires ValidView(v)
  {
    v.selected.Some? ==>
      var p := v.selected.value;
      Interior(p) && Unlocked(v.grid, v.nextMetal, p) && At(v.grid, p) != Gold && At(v.grid, p) != Restart
  }

  /** `select` on cell p: the view after the click, and whether it asked for
      a new game. A locked cell clears the selection. With nothing selected,
      free Gold is removed when Gold is the metal to claim, the restart
      marker asks for a new game, and anything else becomes the selection.
      With a cell selected, clicking it again clears the selection, and
      clicking another tries the match and clears the selection either way. */
  function Click(v: View, p: Pos): (r: (View, bool))
    requires ValidView(v) && OnGrid(p)
    ensures ValidView(r.0)
    ensures r.0.selected.Some? ==> v.selected.None? && r.0.selected == Some(p) && r.0.grid == v.grid
    ensures r.1 ==> r.0 == v && v.selected.None? && At(v.grid, p) == Restart
    ensures v.started ==> r.0.started
  {
    if !(Interior(p) && Unlocked(v.grid, v.nextMetal, p)) then (v.(selected := None), false)
    else if v.selected.None? then
      if At(v.grid, p) == Gold && v.nextMetal == Gold then (v.(grid := Put(v.grid, p, Empty), started := true), false)
      else if At(v.grid, p) == Restart then (v, true)
      else (v.(selected := Some(p)), false)
    else
      var q := v.selected.value;
      if p == q then (v.(selected := None), false)
      else if CanMatch(At(v.grid, p), At(v.grid, q), v.nextMetal) then
        var claimed := if At(v.grid, p) == Quicksilver || At(v.grid, q) == Quicksilver then 1 else 0;
        (View(Put(Put(v.grid, p, Empty), q, Empty), v.nextMetal + claimed, None, true), false)
      else (v.(selected := None), false)
  }

  /** The view after pairing p with the selected cell, matched or not. */
  function Paired(v: View, p: Pos, matched: bool): View
    requires ValidView(v) && OnGrid(p) && v.selected.Some?
  {
    var q := v.selected.value;
    if matched then
      var claimed := if At(v.grid, p) == Quicksilver || At(v.grid, q) == Quicksilver then 1 else 0;
      View(Put(Put(v.grid, p, Empty), q, Empty), v.nextMetal + claimed, None, true)
    else v.(selected := None)
  }

  /** A free cell clicked with another cell selected is paired with it. */
  lemma PairClick(v: View, p: Pos)
    requires ValidView(v) && OnGrid(p) && v.selected.Some? && p != v.selected.value
    requires Interior(p) && Unlocked(v.grid, v.nextMetal, p)
    ensures Click(v, p) == (Paired(v, p, CanMatch(At(v.grid, p), At(v.grid, v.selected.value), v.nextMetal)), false)
  {
  }

  /** A click keeps the selected cell free. */
  lemma ClickKeepsSelectionFree(v: View, p: Pos)
    requires ValidView(v) && SelectionFree(v) && OnGrid(p)
    ensures ValidView(Click(v, p).0) && SelectionFree(Click(v, p).0)
  {
  }

  /** Free Gold, while Gold is the metal to claim and nothing is selected,
      disappears with a single click and nothing else on the board changes. */
  lemma GoldTakesOneClick(v: View, p: Pos)
    requires ValidView(v) && OnGrid(p) && Interior(p) && v.selected.None?
    requires At(v.grid, p) == Gold && v.nextMetal == Gold && OpenSide(Neighbours(v.grid, p))
    ensures Click(v, p) == (v.(grid := Put(v.grid, p, Empty), started := true), false)
  {
  }

  /** A click changes the board only by taking Gold, while Gold is the
      metal to claim, or by emptying two different free cells whose tiles
      match, claiming the next metal exactly when one was Quicksilver; in
      both cases the number of tiles on the board goes down. */
  lemma ClickChanges(v: View, p: Pos)
    requires ValidView(v) && SelectionFree(v) && OnGrid(p)
    ensures var (w, restart) := Click(v, p);
      || (w.grid == v.grid && w.nextMetal == v.nextMetal && w.started == v.started)
      || (&& !restart && v.selected.None? && At(v.grid, p) == Gold && v.nextMetal == Gold
          && Interior(p) && Unlocked(v.grid, v.nextMetal, p)
          && w.grid == Put(v.grid, p, Empty) && w.nextMetal == v.nextMetal
          && Occupied(w.grid) == Occupied(v.grid) - 1)
      || (&& !restart && v.selected.Some? && p != v.selected.value
          && Interior(p) && Unlocked(v.grid, v.nextMetal, p)
          && Unlocked(v.grid, v.nextMetal, v.selected.value)
          && CanMatch(At(v.grid, p), At(v.grid, v.selected.value), v.nextMetal)
          && w.grid == Put(Put(v.grid, p, Empty), v.selected.value, Empty)
          && w.nextMetal == v.nextMetal +
               (if At(v.grid, p) == Quicksilver || At(v.grid, v.selected.value) == Quicksilver then 1 else 0)
          && Occupied(w.grid) == Occupied(v.grid) - 2)
  {
    var (w, restart) := Click(v, p);
    if w.grid != v.grid {
      if v.selected.None? {
        EmptyingCountsDown(v.grid, p);
      } else {
        var q := v.selected.value;
        EmptyingCountsDown(v.grid, p);
        EmptyingCountsDown(Put(v.grid, p, Empty), q);
      }
    }
  }

  /** The game: its board, the selected cell, and whether the timer runs. */
  class Game {
    var board: Boards.Board
    var selected: Option<Pos>
    var started: bool

    /** `initialize` without the generation: a game on the given board,
        with nothing selected and the timer not started. */
    constructor (b: Boards.Board)
      requires b.Valid()
      ensures board == b && selected == None && !started && Valid()
    {
      board := b;
      selected := None;
      started := false;
    }

    /** The state a click sees. */
    ghost function Now(): (v: View)
      reads this, board, board.tiles
    {
      View(board.Grid(), board.nextMetal, selected, started)
    }

    /** The board is well formed and the selection is free. */
    ghost predicate Valid()
      reads this, board, board.tiles
    {
      board.Valid() && ValidView(Now()) && SelectionFree(Now())
    }

    /** `select`: the click handler. When it returns true the restart marker
        was clicked, and the caller starts a new game (`initialize` is not
        part of this model); the state is then unchanged. */
    method Select(p: Pos) returns (restart: bool)
      requires Valid() && OnGrid(p)
      modifies this, board, board.tiles
      ensures Valid() && board == old(board) && board.tiles == old(board.tiles)
      ensures (Now(), restart) == Click(old(Now()), p)
    {
      ghost var v := Now();
      ClickKeepsSelectionFree(v, p);
      var free := board.TileIsUnlocked(p.0, p.1);
      if !free {
        selected := None;
        return false;
      }
      if selected.None? {
        restart := FirstClick(p);
      } else {
        SecondClick(p);
        restart := false;
      }
    }

    /** A click on a free cell with nothing selected. */
    method FirstClick(p: Pos) returns (restart: bool)
      requires Valid() && OnGrid(p) && selected.None?
      requires Interior(p) && Unlocked(board.Grid(), board.nextMetal, p)
      modifies this, board.tiles
      ensures board == old(board) && board.tiles == old(board.tiles) && board.Valid()
      ensures (Now(), restart) == Click(old(Now()), p)
    {
      if board.tiles[p.0, p.1] == Gold && board.nextMetal == Gold {
        ghost var g := board.Grid();
        board.tiles[p.0, p.1] := Empty;
        GridsEqual(board.Grid(), Put(g, p, Empty));
        PutBordered(g, p, Empty);
        started := true;
        return false;
      }
      if board.tiles[p.0, p.1] == Restart {
        return true;
      }
      selected := Some(p);
      return false;
    }

    /** A click on a free cell with a cell selected. */
    method SecondClick(p: Pos)
      requires Valid() && OnGrid(p) && selected.Some?
      requires Interior(p) && Unlocked(board.Grid(), board.nextMetal, p)
      modifies this, board, board.tiles
      ensures board == old(board) && board.tiles == old(board.tiles) && board.Valid()
      ensures (Now(), false) == Click(old(Now()), p)
    {
      var q := selected.value;
      if p == q {
        selected := None;
        return;
      }
      ghost var v := Now();
      PairClick(v, p);
      var matched := board.TryMatch(p, q);
      if matched {
        started := true;
      }
      selected := None;
      assert Now() == Paired(v, p, matched);
    }
  }
}
