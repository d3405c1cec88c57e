# Hex-grid alchemy solitaire: the board engine and its generator

The game is a matching solitaire on a hexagonal board of 91 cells, stored as
a 13x13 array whose border stays empty. Tiles are small integers:
- the four elements Air, Fire, Water and Earth (1-4);
- Salt 5 and Quicksilver 6;
- the six metals Lead through Gold (7-12);
- Vitae 13 and Mors 14;
- Empty 0 and the restart marker -1.

A tile is *free* when it is the restart marker, or when it is neither Empty
nor a metal other than the next one to claim and three of its six
neighbours in a row are Empty. Two free tiles can be removed together when:
- they are equal basic tiles;
- an element is paired with Salt;
- Vitae is paired with Mors;
- Quicksilver is paired with the metal to claim, which then advances.

The game reports a win when no tile is free (main.js:862), whether or not
the board is empty. Gold sits at the centre and is removed on its own once
it is the metal to claim. A random playout counts a win when, with no move
left, it clears a free centre tile.

The model follows the source's structure:
- `Tiles` holds the tile codes.
- `Hex` holds the row geometry (`row_size` and `row_offset`).
- `Rules` gives the pure rules on a grid value: free tiles, matching, the
  list of legal moves and the tile count.
- `Random` holds `shuffle` and `pick_random`, with the random draws passed in.
- `Layout` reads the layout catalogue (`board_positions`).
- `Slots` is the carving phase of `generate`.
- `Deal` is the dealing phase of `generate`.
- `Boards` has the `Board` class over an `array2`: the queries, `try_match`,
  `generate`, `generate_hard`, the random playouts and `difficulty`.
- `Solving` proves that every generated board can be solved.
- `Games` has `format_time` and the click handler `select` on a `Game`
  class.

The board's methods are proved against ghost functions of the board's
contents: `Grid()` on `Board` and `Now()` on `Game`. The main results are:

- Every board `generate` deals from a catalogue layout (54 cells besides
  the centre) is solvable. Replaying the 27 carved slots in carving order,
  each dealt pair is a legal move at its turn, with the metal to claim the
  source would have at that point. After the last pair every cell but the
  centre is Empty, Gold is at the centre and is the metal to claim, no
  pair move is left and Gold is free. `random_move` then takes it, and so
  would a click. This is `Solving.PairIsMove`, `Solving.PlayPair`,
  `Solving.AllPlayed`, `Solving.Solvable` and `Solving.GeneratedSolvable`.
- The tiles dealt onto the 54 slot cells are exactly a full deal:
  - Lead, Tin, Iron, Copper and Silver, each paired with a Quicksilver, in
    that order along the deal;
  - 8 of each element and 4 Salt, in the pairs the budget allows;
  - 4 Mors/Vitae pairs.
  Gold is not dealt: it is the centre tile, taken on its own. Every other
  cell of a generated board is Empty (`Solving.OnlyDealtTiles`).
- `legal_moves` lists every legal move and nothing else.
- `random_play` ends, because every move removes tiles. Its moves form a
  legal playout from the board it started on, which only ever empties
  cells. A reported win means the last step found no move left and a free
  centre tile, and emptied the centre. A loss means no move is left and
  the centre tile is locked. `difficulty` counts exactly the won games. A loss can still show an Empty centre, on a board where a
  Quicksilver is left once Gold is the metal to claim: that pair removes
  Gold as an ordinary move, and the play then ends as a loss, as in the
  source.
- `format_time` can be inverted on every elapsed number of seconds, so it is
  injective.
- `select` keeps its selection on a free tile. Each click either changes
  nothing on the board, removes free Gold, or removes a matching pair of
  free tiles.

The flip in `board_positions` (main.js:541) maps column `col` to
`12 - col`. That is a mirror image only on row 6. On the shorter rows it can
place a layout cell outside the row's playable cells
(`Layout.FlipLeavesShortRows`: the first cell of row 2 lands at column 11).
Such a cell is filled with Salt but is never offered for carving. So a
layout with such a cell can never be carved into 27 slots: a generated
board's layout cells all lie in the window (`Solving.LayoutInWindow`). In
the catalogue as written, every layout has cells of a short row that the
flip moves out of the window. Every flipped attempt is therefore
abandoned, and `generate` starts over, so flipped boards never appear. A
mirror of row r within its window would map `col` to `r + 6 - col`. The
model keeps the behaviour as written.

## Model

| member | source | states |
|---|---|---|
| Hex.RowSize | main.js:624-634 | a row has cells exactly when it is one of rows 1-11, it has 11 minus its distance from row 6 of them, and they fit inside the border |
| Hex.RowsMeetBorder | main.js:624-642 | with row_offset, rows 1-6 begin at column 1 and rows 6-11 end at column 11 |
| Hex.WindowDiagonal | main.js:624-642 | the cells row_size and row_offset make playable are exactly the cells inside the border whose column is within five of their row: a hexagon |
| Hex.WindowShape | main.js:460-471 | the scanned cells are exactly the 91 playable cells, each inside the border, visited in row-major ascending order |
| Rules.CanMatch | main.js:592-609 | for every metal to claim, two tiles match exactly when one of the four pairing rules (equal basics, element with Salt, Vitae with Mors, Quicksilver with the metal to claim) holds in either order |
| Rules.CanMatchSymmetric | main.js:592-609 | whenever the metal to claim is a metal, the order of the two tiles does not matter |
| Rules.CanMatchOrderMatters | main.js:598-604 | when the metal to claim holds Salt's code the order does matter: Quicksilver before Salt matches, Salt before Quicksilver does not |
| Rules.EmptyNeverMatches | main.js:592-609 | an Empty cell never matches anything |
| Rules.Neighbours | main.js:564-574 | the six neighbours of an interior cell, in the source's ring order, lie on the grid |
| Rules.AroundTiles | main.js:564-589 | the eight-entry list that wraps round the ring has three Empty entries in a row exactly when the six-cell ring has an open side |
| Rules.OpenSideByEmptiness | main.js:576-589 | whether a cell has an open side depends only on which cells are Empty |
| Rules.UnlockedAfterEmptying | main.js:552-590 | emptying some other cell never locks a free tile |
| Rules.AllMovesListed | main.js:473-487 | the pairs of free cells, scanned in ascending order and checked with `can_match`, list every legal move |
| Rules.MoveCellsOccupied | main.js:473-487 | the two cells of a legal move are distinct, interior and occupied |
| Rules.NoMoveListed | main.js:489-493 | an empty move list means there is no legal move at all |
| Rules.EmptyingCountsDown | main.js:492-495 | clearing an occupied cell lowers the tile count by one |
| Rules.MoveCountsDown | main.js:611-622 | playing a legal move lowers the tile count by two |
| Random.Below | main.js:318 | a draw of `Math.floor(Math.random() * n)` lies in [0, n) |
| Random.FisherYatesPermutes | main.js:316-321 | each swap pass keeps the length and the multiset of elements, and keeps distinct elements distinct |
| Random.ShuffledPermutes | main.js:316-321 | a shuffle result is a permutation of its input for any draws in range |
| Random.Shuffle | main.js:316-321 | shuffling an array in place leaves exactly the Fisher-Yates order its draws determine |
| Random.Choices | main.js:318 | the shuffle's draws can always be made, each j in [0, i] |
| Random.ShuffleList | main.js:316-321 | shuffling a list yields a permutation of it that is distinct when the list was |
| Random.PickRandom | main.js:323-341 | with a total that is not positive the result is -1; otherwise it is the first key whose running sum of counts exceeds the draw, and that key has a positive count |
| Layout.BoardPositions | main.js:525-550 | the list is the chosen layout's '#' cells apart from the centre, optionally flipped, and on a well-formed layout each lies inside the border and off the centre |
| Layout.RowOf | main.js:535-545 | one row string contributes its '#' cells in column order, with flipped columns when flipping |
| Layout.PositionsIn | main.js:533-547 | before flipping, every layout cell is one of its row's playable cells and not the centre |
| Layout.PositionsInBounds | main.js:525-550 | every listed cell is interior and off the centre, and without the flip inside the playable window |
| Layout.FlipMirrorsRowSix | main.js:541 | on row 6 the flip maps playable cells to playable cells and undoes itself |
| Layout.FlipLeavesShortRows | main.js:541 | on row 2 the flip places the first cell at column 11, outside that row's playable cells |
| Deal.StockHasDraws | main.js:428 | while fewer than 27 pairs are dealt the budget total is positive, so `pick_random` never returns -1 during the deal |
| Deal.DrawStep | main.js:428-446 | each draw deals a pair of a legal kind, takes a Salt element from the queue only while one is left, and advances the metal exactly on Quicksilver |
| Deal.DrawDeals | main.js:428-446 | a draw adds exactly its two tiles to the tiles dealt so far |
| Deal.StockDone | main.js:424-447 | after 27 draws the salt queue is empty, the metal has reached Gold, and the dealt tiles are exactly a full deal |
| Deal.TradeForSalt | main.js:411-417 | trading an element for a Salt match keeps the plain total, adds one Salt count and queues two copies of the element |
| Deal.PrepareStock | main.js:398-422 | the budget and salt queue start consistent with 27 pairs, Lead first, nothing dealt |
| Deal.SaltMatches | main.js:410-420 | n salt trades leave 2 + n Salt counts, 4 Mors, 2 Quicksilver, a plain total of 22 and 2n queued elements |
| Deal.DealStep | main.js:424-447 | one more draw extends the dealt pairs so that they stay in order and counted |
| Deal.PairStep | main.js:432-437 | a Quicksilver pair with the next metal keeps the metals in order and counts one more Quicksilver |
| Deal.DealDone | main.js:424-447 | a finished deal holds the full tile counts and exactly 5 Quicksilvers |
| Slots.CarvedAt | main.js:393-394 | every carved slot's cells are Empty afterwards and cells outside every slot keep their tiles |
| Slots.CarvingApart | main.js:377-396 | carved slots never share a cell, and each slot's cells were occupied on the starting board |
| Slots.LastSlotFresh | main.js:391-395 | the newest slot takes two distinct cells no earlier slot used, both occupied at the start |
| Slots.CarvingRound | main.js:379-395 | the k-th slot's two cells were distinct candidates when it was carved |
| Slots.SpliceCentre | main.js:380-385 | removing the centre takes out only its first occurrence and keeps the ascending order |
| Slots.FewCandidates | main.js:386-389 | fewer than two candidates means the carving is stuck |
| Slots.CarvingStep | main.js:391-395 | carving two distinct candidates empties exactly those two cells |
| Slots.FilledStep | main.js:424-445 | dealing a pair writes its two tiles to its two cells and nothing else |
| Slots.CarvingInWindow | main.js:379-396 | every carved cell is a playable cell other than the centre |
| Slots.FilledAt | main.js:424-447 | after dealing, each slot holds its pair and the other cells are unchanged |
| Slots.SameSlotsApart | main.js:426 | swapping the cells inside slots keeps them apart and touches the same cells |
| Boards.Board.constructor | main.js:344-346 | a new board is 13x13 and all Empty |
| Boards.Board.Clear | main.js:348-357 | a cleared board is a fresh 13x13 all-Empty grid, and the metal to claim is kept |
| Boards.Board.Copy | main.js:359-364 | the copy is a fresh board with equal tiles and metal to claim |
| Boards.Board.CanMatchAt | main.js:592-609 | `can_match` on two cells is the matching rule on their tiles |
| Boards.Board.TileIsUnlocked | main.js:552-590 | the answer is true exactly when the cell is interior and its tile is free |
| Boards.Board.ThreeEmptyInARow | main.js:576-589 | the counting loop returns true exactly when three Empty entries in a row occur in the wrapped neighbour list |
| Boards.Board.UnlockedTiles | main.js:460-471 | the list holds exactly the free playable cells, in ascending order |
| Boards.Board.UnlockedInRow | main.js:463-469 | scanning one row extends the list by that row's free cells, in order |
| Boards.Board.LegalMoves | main.js:473-487 | a pair is in the list exactly when it is a legal move |
| Boards.Board.MatchesOf | main.js:478-485 | the inner loop adds every matching later partner of cell i and only legal moves |
| Boards.Board.TryMatch | main.js:611-622 | matches exactly when `can_match` holds; then both cells become Empty and the metal advances exactly when a Quicksilver was taken; otherwise nothing changes |
| Boards.Board.Generate | main.js:366-449 | on success the board was seeded from a catalogue layout, carved into 27 slots, and dealt a full deal in carving order with Lead to claim; otherwise the carving was stuck |
| Boards.Board.DealAll | main.js:398-448 | dealing 27 slots fills them with a full deal in slot order, metals in order, and resets the metal to claim to Lead |
| Boards.Board.GenerateHard | main.js:451-458 | a board it accepts lost every one of its 30 random games, each a legal playout from it to a board with no move and a locked centre, passes the source's test, and is a generated board |
| Boards.Board.Seed | main.js:367-375 | the seeded board has Gold at the centre, Salt on the layout's cells and Empty elsewhere |
| Boards.Board.LaySalt | main.js:370-375 | Salt is written exactly on the listed cells |
| Boards.Board.CarveSlots | main.js:377-396 | the board after carving is the start with the carved slots emptied; 27 slots on success, a stuck board otherwise |
| Boards.Board.PickSlot | main.js:379-392 | two distinct candidate cells are found, or the carving is stuck |
| Slots.PickTwo | main.js:386-392 | with fewer than two candidates the round is stuck; otherwise the two cells taken after the shuffle are two different candidates |
| Boards.Board.EmptyBoth | main.js:393-394 | exactly the two given cells are emptied |
| Boards.Board.DealSymbols | main.js:424-447 | the deal loop fills the 27 slots with a full deal whose metals are in order |
| Boards.Board.DealOne | main.js:425-446 | one round writes the pair drawn into its slot's cells, in some order, and advances the stock |
| Boards.Board.ShuffleSlot | main.js:426 | shuffling a slot yields its two cells in one of the two orders |
| Boards.Board.WritePair | main.js:428-446 | the drawn kind's two tiles are written to the two cells and the stock changes as the source's budget update says |
| Boards.Board.RandomMove | main.js:489-502 | reports 1 after playing a legal move, 2 after clearing a free centre when no move is left, 0 when neither is possible; the tile count drops by 2, 1 or 0 |
| Boards.Board.PlayMove | main.js:500 | `try_match` on a legal move empties both cells, advances the metal exactly on Quicksilver, and removes two tiles |
| Boards.Board.ClaimCentre | main.js:492-497 | a free centre is cleared and reported as 2, otherwise 0 and nothing changes |
| Boards.Board.RandomPlay | main.js:504-512 | the moves played form a legal playout from the starting board to a board with no move; the game is won exactly when the centre tile is free there, and then the centre is emptied; a loss changes nothing more |
| Boards.Board.Difficulty | main.js:514-523 | the board is left alone, each of the `games` games is a random game from it, and the count is the number of those games that were won |
| Boards.PlayableStep | main.js:504-512 | a legal move after a legal playout extends it, and its replay ends with that move applied |
| Boards.TraceStep | main.js:499-500 | playing a legal move on the board a playout leaves gives the replay of the playout extended by that move, with the metal to claim advanced past a claimed quicksilver |
| Boards.Board.PlayoutStep | main.js:505-511 | one turn of the playout: after a move the extended trace replays to the new board and fewer tiles remain; otherwise no move was left, and the centre is emptied exactly when it was free |
| Boards.ReplayOnlyEmpties | main.js:488-512 | a playout only empties cells, removes two tiles per move and never moves the metal to claim back |
| Boards.Wins | main.js:515-521 | the won games are at most all the games |
| Boards.NoWinsAllLost | main.js:451-458 | a zero count means every game was lost |
| Boards.HardExactlyWhenNoWin | main.js:514-523 | `1 - wins/games >= 1.0` holds exactly when no game was won |
| Solving.GeneratedCentre | main.js:366-396 | a generated board keeps Gold at the centre |
| Solving.SameEmptiness | main.js:377-447 | replaying k dealt pairs leaves Empty exactly the cells the first k carvings had emptied |
| Solving.CarvedSlot | main.js:379-392 | each carved cell was playable and had an open side when it was carved |
| Solving.PairReady | main.js:377-447 | at its turn, each dealt pair sits on its cells, both open, with a metal to claim |
| Solving.PairIsMove | main.js:377-447 | at its turn, each dealt pair is a legal move, in one of its two orders |
| Solving.PlayPair | main.js:611-622 | playing the k-th pair empties its cells and advances the metal exactly on Quicksilver, as `try_match` would |
| Solving.AllPlayed | main.js:366-447 | after the 27 pairs the dealt cells are Empty, the rest of the start board is intact and Gold waits at the centre |
| Solving.SlotCellsOf | main.js:377-393 | a cell is a slot cell exactly when a slot uses it |
| Solving.SlotCellsCount | main.js:377-393 | slots that are apart use two cells each |
| Solving.SlotCellsListed | main.js:366-393 | every slot cell is a cell of the layout, since carving only takes occupied cells off the centre |
| Solving.SlotsCoverLayout | main.js:366-393 | with 54 layout cells, the 27 carved slots use every layout cell |
| Solving.OnlyDealtTiles | main.js:366-447 | a generated board has no tile outside the dealt cells except Gold at the centre |
| Solving.LayoutInWindow | main.js:366-393 | every layout cell of a generated board lies in the playable window, so flipped layouts leaving it are never dealt |
| Solving.OnlyCentreNoMove | main.js:474-486 | a board with no tile outside the centre has no legal move |
| Solving.Solvable | main.js:366-512 | after replaying the 27 pairs only Gold is left, Gold is the metal to claim and is free, and no move is left |
| Solving.GeneratedSolvable | main.js:366-512 | the same for a board dealt from a catalogue layout, flipped or not |
| Layout.PositionsCount | main.js:525-550 | a catalogue layout lists 54 cells, flipped or not |
| Games.Digits | main.js:852 | a number's decimal form is non-empty, all digits, and two or more digits from 10 on |
| Games.ReadDigitsOf | main.js:852 | reading back a decimal form gives the number |
| Games.FormatTime | main.js:850-853 | the text is the minutes, a colon, and the seconds as exactly two digits |
| Games.ParseFormatTime | main.js:850-853 | parsing a formatted time gives back the elapsed seconds |
| Games.FormatTimeInjective | main.js:850-853 | different elapsed times format differently |
| Games.Click | main.js:885-915 | a click keeps the view well formed, selects only the clicked cell and only when nothing was selected (leaving the board alone), asks for a new game only on the restart marker with nothing selected and then changes nothing, and never stops the timer |
| Games.PairClick | main.js:904-914 | a free cell clicked with another cell selected is paired with it |
| Games.ClickKeepsSelectionFree | main.js:885-915 | after any click the selected cell, if any, is free, not Gold and not the restart marker |
| Games.GoldTakesOneClick | main.js:891-895 | free Gold clicked with nothing selected, when Gold is to be claimed, is removed and the timer starts |
| Games.ClickChanges | main.js:885-915 | a click leaves the board as it is, removes free Gold, or removes two distinct free matching tiles (advancing the metal exactly on Quicksilver) |
| Games.Game.constructor | main.js:650-656 | a new game holds the given board, nothing selected, timer not started |
| Games.Game.Select | main.js:885-915 | the game state after a click is the click rule applied to the state before, and the selection stays free |
| Games.Game.FirstClick | main.js:890-903 | a first click on a free cell removes Gold, asks for a restart or selects the cell, as the click rule says |
| Games.Game.SecondClick | main.js:904-914 | a second click deselects, or tries the match with the selected cell and deselects, as the click rule says |

## Left out

- Rendering, the tile colour and shape tables, `draw`, and the canvas and
  DOM access are not modelled. They compute nothing the engine uses.
- `game_to_screen` and `screen_to_game` are not modelled: they are
  floating-point geometry. A click arrives as a grid position on the 13x13
  array. Positions off the array are excluded by `requires OnGrid(p)`
  because the source would index outside its arrays there.
- `onclick` (main.js:855-877) is not modelled. Its win message, its
  `localStorage` high score and `alert` are I/O. Its restart-marker
  placement is not modelled either, beyond what `select` does with such a
  tile. That placement can break `Games.Game.Valid`'s `SelectionFree`:
  when the centre is Empty and no legal move is left, `onclick` puts the
  restart marker on the centre (main.js:873-875), which can lock a
  selected neighbour before the next `select`. The next click then clears
  the selection, in `Games.Click` as in the source's `select`: the locked
  neighbour is not free, and no free tile matches it, since no legal move
  was left.
- `try_start_timer` is modelled only as the `started` flag; the `Date`
  clock is I/O.
- `sw.js`, the offline service worker, is not part of this model.
- `Math.random` is not modelled. `shuffle` and `pick_random` take their
  draws as parameters. The composite operations take each draw as some
  value in range (`Random.Below`), so each result holds for every sequence
  of draws.
- The `LAYOUTS` catalogue is not reproduced. Layouts are a parameter, and
  `Layout.WellFormed` states the shape every catalogue entry has: 11
  strings, row r describing row r's cell count, and 54 occupied cells
  besides the centre.
- Boards.Board.Generate: the source retries by calling itself until a
  carving succeeds. The model bounds the retries with a `fuel` count and
  reports a stuck carving when the fuel runs out.
- Boards.Board.GenerateHard: the source loops until a board loses all its
  playouts. The model bounds the loop with an `attempts` count and reports
  `hard` only for an accepted board.
- Boards.Board.Difficulty: returns the win count, not the ratio
  `1 - wins/games`. `Boards.Board.GenerateHard` evaluates the source's
  real-valued test `1 - wins/games >= 1` on that count, and
  `Boards.HardExactlyWhenNoWin` shows the test holds exactly when no
  game was won. `games == 0` (which gives NaN in the source) is not used
  by the source. Which games are won depends on the random draws; the
  model states what every game is, whatever the draws.
- Boards.Board.constructor: the metal to claim is left unspecified. The
  source leaves `next_metal` undefined until `generate` sets it.
- Layout.PositionsInBounds: with the flip, the listed cells are only shown
  to be inside the border, not inside the playable window, because the
  source's flip can leave that window (`Layout.FlipLeavesShortRows`).
- Random.PickRandom: the final `return -1` after the scan (main.js:340) is
  unreachable when the total is positive, and the model proves the scan
  always returns first.
- `for key in budget` visits integer keys in ascending order. The model
  fixes that order as the key list Air, Fire, Water, Earth, Salt,
  Quicksilver, Mors. The `+` conversion of the returned key is the
  identity on the model's integers.
- The missing comma after `TILE_FIRE = 2` (main.js:9) turns the remaining
  constants into plain global assignments of the same values. The model
  uses those values.
- Games.Game.constructor: `initialize` generates a hard board and draws it.
  The model's constructor takes an already valid board instead, because
  generation is `Boards.Board.GenerateHard` and drawing is I/O.
- Games.Game.Select: clicking the restart marker calls `initialize` in the
  source. The model reports it through the `restart` result and leaves the
  game unchanged, for the caller to start a new game.
- Games.FormatTime takes a natural number of seconds. A negative elapsed
  time cannot arise from the clock.
