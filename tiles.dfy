/** Tile kinds of the board. The source codes them as small integers and the
    rules depend on their ranges (Air..Salt, Air..Earth, Lead..Gold) and on
    `next_metal + 1` stepping through the metals, so they stay integers here. */
module Tiles {

  type Tile = int

  const Empty: Tile := 0
  const Air: Tile := 1
  const Fire: Tile := 2
  const Water: Tile := 3
  const Earth: Tile := 4
  const Salt: Tile := 5
  const Quicksilver: Tile := 6
  const Lead: Tile := 7
  const Tin: Tile := 8
  const Iron: Tile := 9
  const Copper: Tile := 10
  const Silver: Tile := 11
  const Gold: Tile := 12
  const Vitae: Tile := 13
  const Mors: Tile := 14
  const Restart: Tile := -1

  /** Kinds that pair with an identical tile: the four elements and Salt. */
  predicate IsBasic(t: Tile) { Air <= t <= Salt }

  /** The four elements, which Salt also pairs with. */
  predicate IsElement(t: Tile) { Air <= t <= Earth }

  /** The six metals, claimed in ascending order. */
  predicate IsMetal(t: Tile) { Lead <= t <= Gold }
}
