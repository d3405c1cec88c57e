/** The symbol phase of `generate`: a budget of pair kinds, a queue of the
    tiles that will partner Salt, and the next metal to hand out. Each of the
    27 carved slots draws a kind from the budget with `pick_random`. */
module Deal {
  import opened Tiles
  import Random

  /** The budget's keys in the order a `for ... in` loop visits them: integer
      keys come in ascending order, so Quicksilver (6) before Mors (14). */
  const Keys: seq<Tile> := [Air, Fire, Water, Earth, Salt, Quicksilver, Mors]

  /** The budget before the salt matches are chosen. */
  const StartBudget: map<Tile, int> :=
    map[Air := 4, Fire := 4, Water := 4, Earth := 4, Salt := 2, Mors := 4, Quicksilver := 2]

  /** What is left to deal: the budget, the queue of Salt partners (popped
      from the end) and the metal handed out next. */
  datatype Stock = Stock(budget: map<Tile, int>, queue: seq<Tile>, metal: Tile)

  predicate HasKeys(b: map<Tile, int>) {
    Air in b && Fire in b && Water in b && Earth in b && Salt in b && Quicksilver in b && Mors in b
  }

  lemma KeysInBudget(b: map<Tile, int>)
    requires HasKeys(b)
    ensures Random.KeysIn(Keys, b)
  {
  }

  /** Sum of the counts other than Quicksilver's. */
  function Plain(b: map<Tile, int>): int
    requires HasKeys(b)
  {
    b[Air] + b[Fire] + b[Water] + b[Earth] + b[Salt] + b[Mors]
  }

  /** The summed budget `pick_random` draws from. */
  lemma {:induction false} TotalOfKeys(b: map<Tile, int>)
    requires HasKeys(b)
    ensures Random.KeysIn(Keys, b) && Random.Total(Keys, b) == Plain(b) + b[Quicksilver]
  {
    KeysInBudget(b);
    var k6, k5, k4 := [Air, Fire, Water, Earth, Salt, Quicksilver], [Air, Fire, Water, Earth, Salt], [Air, Fire, Water, Earth];
    var k3, k2, k1 := [Air, Fire, Water], [Air, Fire], [Air];
    assert Keys[..6] == k6 && k6[..5] == k5 && k5[..4] == k4 && k4[..3] == k3 && k3[..2] == k2 && k2[..1] == k1 && k1[..0] == [];
    assert Random.Total(k1, b) == b[Air];
    assert Random.Total(k2, b) == Random.Total(k1, b) + b[Fire];
    assert Random.Total(k3, b) == Random.Total(k2, b) + b[Water];
    assert Random.Total(k4, b) == Random.Total(k3, b) + b[Earth];
    assert Random.Total(k5, b) == Random.Total(k4, b) + b[Salt];
    assert Random.Total(k6, b) == Random.Total(k5, b) + b[Quicksilver];
  }

  predicate NonNegative(b: map<Tile, int>)
    requires HasKeys(b)
  {
    b[Air] >= 0 && b[Fire] >= 0 && b[Water] >= 0 && b[Earth] >= 0 && b[Salt] >= 0 && b[Quicksilver] >= 0 && b[Mors] >= 0
  }

  /** The stock after k of the 27 pairs are dealt. The Quicksilver weight is
      2 until the metal reaches Gold and 0 from then on; the other counts
      drop by one with each other draw; the queue holds one Salt partner per
      Salt draw left. */
  ghost predicate Counts(s: Stock, k: int) {
    && HasKeys(s.budget) && NonNegative(s.budget)
    && 0 <= k <= 27
    && Lead <= s.metal <= Gold
    && s.budget[Quicksilver] == (if s.metal < Gold then 2 else 0)
    && Plain(s.budget) == 22 - k + (s.metal - Lead)
    && |s.queue| == s.budget[Salt]
    && forall i :: 0 <= i < |s.queue| ==> IsBasic(s.queue[i])
  }

  /** How many tiles of kind t are already on the board, given what is left. */
  function Dealt(t: Tile, s: Stock): int
    requires HasKeys(s.budget)
  {
    if IsElement(t) then 8 - 2 * s.budget[t] - multiset(s.queue)[t]
    else if t == Salt then 4 - s.budget[Salt] - multiset(s.queue)[Salt]
    else if t == Mors || t == Vitae then 4 - s.budget[Mors]
    else if t == Quicksilver then s.metal - Lead
    else if Lead <= t < s.metal then 1
    else 0
  }

  /** The tiles of a complete deal: 8 of each element, 4 each of Salt, Mors
      and Vitae, 5 Quicksilver and one of each metal from Lead to Silver. */
  function Full(t: Tile): nat {
    if IsElement(t) then 8
    else if t == Salt || t == Mors || t == Vitae then 4
    else if t == Quicksilver then 5
    else if Lead <= t < Gold then 1
    else 0
  }

  /** The two tiles a draw puts on a slot, for its first and second cell. */
  function Symbols(kind: Tile, s: Stock): (Tile, Tile)
    requires kind == Salt ==> |s.queue| > 0
  {
    if kind == Mors then (Mors, Vitae)
    else if kind == Quicksilver then (Quicksilver, s.metal)
    else if kind == Salt then (Salt, s.queue[|s.queue| - 1])
    else (kind, kind)
  }

  /** The stock after a draw: a Quicksilver draw hands out the metal and
      moves to the next one, keeping its weight until Gold is reached and
      then dropping it; a Salt draw pops its partner; every draw takes one
      from its own count. */
  function After(kind: Tile, s: Stock): Stock
    requires kind in s.budget && Quicksilver in s.budget
    requires kind == Salt ==> |s.queue| > 0
  {
    if kind == Quicksilver then
      var metal := s.metal + 1;
      var b := if metal != Gold then s.budget[Quicksilver := s.budget[Quicksilver] + 1] else s.budget[Quicksilver := 1];
      Stock(b[Quicksilver := b[Quicksilver] - 1], s.queue, metal)
    else if kind == Salt then
      Stock(s.budget[Salt := s.budget[Salt] - 1], s.queue[..|s.queue| - 1], s.metal)
    else
      Stock(s.budget[kind := s.budget[kind] - 1], s.queue, s.metal)
  }

  /** While pairs remain, the summed budget is positive, so `pick_random`
      never answers -1. */
  lemma StockHasDraws(s: Stock, k: int)
    requires Counts(s, k) && k < 27
    ensures Random.KeysIn(Keys, s.budget) && Random.Total(Keys, s.budget) > 0
  {
    TotalOfKeys(s.budget);
  }

  /** A draw of a key with a positive count keeps the stock consistent, one
      pair further on, and hands out metals in ascending order. */
  lemma DrawStep(kind: Tile, s: Stock, k: int)
    requires Counts(s, k) && k < 27 && kind in Keys && kind in s.budget && s.budget[kind] > 0
    ensures kind == Salt ==> |s.queue| > 0
    ensures Counts(After(kind, s), k + 1)
    ensures PairKind(Symbols(kind, s)) && (Symbols(kind, s).0 == Quicksilver) == (kind == Quicksilver)
    ensures kind == Quicksilver ==> Symbols(kind, s).1 == s.metal
    ensures After(kind, s).metal == s.metal + if kind == Quicksilver then 1 else 0
  {
    var s' := After(kind, s);
    if kind == Salt {
      var q := s.queue;
      forall i | 0 <= i < |s'.queue| ensures IsBasic(s'.queue[i]) {
        assert s'.queue[i] == q[i];
      }
    }
  }

  /** A draw puts exactly its two symbols on the board: the counts of
      dealt tiles grow by those two and by nothing else. */
  lemma DrawDeals(kind: Tile, s: Stock, k: int)
    requires Counts(s, k) && k < 27 && kind in Keys && kind in s.budget && s.budget[kind] > 0
    ensures kind == Salt ==> |s.queue| > 0
    ensures forall t :: Dealt(t, After(kind, s)) == Dealt(t, s) + multiset{Symbols(kind, s).0, Symbols(kind, s).1}[t]
  {
    var s' := After(kind, s);
    var (a, b) := Symbols(kind, s);
    if kind == Salt {
      var q := s.queue;
      assert q == s'.queue + [b];
      assert multiset(q) == multiset(s'.queue) + multiset{b};
    }
    forall t ensures Dealt(t, s') == Dealt(t, s) + multiset{a, b}[t] {
      if kind == Quicksilver {
        assert s'.queue == s.queue && s'.metal == s.metal + 1;
      } else if kind == Salt {
        assert s'.metal == s.metal && IsBasic(b);
      } else {
        assert s'.queue == s.queue && s'.metal == s.metal;
      }
    }
  }

  /** After the 27th pair the stock is spent and the deal is complete. */
  lemma StockDone(s: Stock)
    requires Counts(s, 27)
    ensures s.queue == [] && s.metal == Gold
    ensures forall t :: Dealt(t, s) == Full(t)
  {
  }

  /** Each element has given i or fewer of its four pairs to Salt, and is
      queued twice for each pair it gave. */
  predicate Traded(b: map<Tile, int>, q: seq<Tile>, i: int)
    requires HasKeys(b)
  {
    && 2 * b[Air] + multiset(q)[Air] == 8 && b[Air] + i >= 4
    && 2 * b[Fire] + multiset(q)[Fire] == 8 && b[Fire] + i >= 4
    && 2 * b[Water] + multiset(q)[Water] == 8 && b[Water] + i >= 4
    && 2 * b[Earth] + multiset(q)[Earth] == 8 && b[Earth] + i >= 4
  }

  /** Trading one pair of an element for a Salt pair keeps the plain total
      and the balance between counts and queue. */
  lemma TradeForSalt(b: map<Tile, int>, q: seq<Tile>, e: Tile, i: int)
    requires HasKeys(b) && IsElement(e) && Traded(b, q, i)
    ensures var b' := b[e := b[e] - 1][Salt := b[Salt] + 1];
      && HasKeys(b') && Plain(b') == Plain(b) && b'[Salt] == b[Salt] + 1
      && b'[Mors] == b[Mors] && b'[Quicksilver] == b[Quicksilver]
      && Traded(b', q + [e, e], i + 1)
  {
    assert multiset(q + [e, e]) == multiset(q) + multiset{e, e};
  }

  /** The salt matches: zero to two elements each trade two of their own
      pairs for two Salt pairs, and the queue of Salt partners holds two of
      each such element and one Salt for each salt match not taken,
      shuffled. */
  method PrepareStock() returns (s: Stock)
    ensures Counts(s, 0) && s.metal == Lead
    ensures forall t :: Dealt(t, s) == 0
  {
    var n := Random.Below(3);
    var budget, queue := SaltMatches(n);
    assert multiset(queue)[Salt] == 0;
    for i := 0 to 2 - n
      invariant |queue| == 2 * n + i && multiset(queue)[Salt] == i
      invariant Traded(budget, queue, n)
      invariant forall j :: 0 <= j < |queue| ==> IsBasic(queue[j])
    {
      assert multiset(queue + [Salt]) == multiset(queue) + multiset{Salt};
      queue := queue + [Salt];
    }
    var shuffled, js := Random.ShuffleList(queue);
    s := Stock(budget, shuffled, Lead);
    StartCounts(budget, queue, n, s);
  }

  /** The stock once the salt matches are queued and shuffled: nothing is
      dealt yet and the counts are consistent. */
  lemma StartCounts(budget: map<Tile, int>, queue: seq<Tile>, n: int, s: Stock)
    requires 0 <= n <= 2 && HasKeys(budget) && Traded(budget, queue, n)
    requires budget[Salt] == 2 + n && budget[Mors] == 4 && budget[Quicksilver] == 2 && Plain(budget) == 22
    requires |queue| == n + 2 && multiset(queue)[Salt] == 2 - n
    requires forall j :: 0 <= j < |queue| ==> IsBasic(queue[j])
    requires s.budget == budget && s.metal == Lead && multiset(s.queue) == multiset(queue) && |s.queue| == |queue|
    ensures Counts(s, 0)
    ensures forall t :: Dealt(t, s) == 0
  {
    forall j | 0 <= j < |s.queue| ensures IsBasic(s.queue[j]) {
      assert s.queue[j] in multiset(queue);
    }
  }

  /** The first loop of the salt matches: n random elements, each moving
      one pair from its own count to Salt's and queued twice. */
  method SaltMatches(n: nat) returns (budget: map<Tile, int>, queue: seq<Tile>)
    requires n <= 2
    ensures HasKeys(budget) && budget[Salt] == 2 + n && budget[Mors] == 4 && budget[Quicksilver] == 2
    ensures |queue| == 2 * n && Plain(budget) == 22
    ensures Traded(budget, queue, n)
    ensures forall j :: 0 <= j < |queue| ==> IsElement(queue[j])
  {
    budget := StartBudget;
    queue := [];
    for i := 0 to n
      invariant HasKeys(budget) && budget[Salt] == 2 + i && budget[Mors] == 4 && budget[Quicksilver] == 2
      invariant |queue| == 2 * i && Plain(budget) == 22
      invariant Traded(budget, queue, i)
      invariant forall j :: 0 <= j < |queue| ==> IsElement(queue[j])
    {
      var draw := Random.Below(4);
      var element := Air + draw;
      TradeForSalt(budget, queue, element, i);
      budget := budget[element := budget[element] - 1];
      budget := budget[Salt := budget[Salt] + 1];
      queue := queue + [element, element];
    }
  }

  // ------------------------------------------------------------ the deal

  /** The tiles of the dealt pairs, two per pair, in order. */
  function Flat(symbols: seq<(Tile, Tile)>): (ts: seq<Tile>)
    ensures |ts| == 2 * |symbols|
  {
    if symbols == [] then [] else Flat(symbols[..|symbols| - 1]) + [symbols[|symbols| - 1].0, symbols[|symbols| - 1].1]
  }

  /** How many of the pairs are a Quicksilver with its metal. */
  function Quicksilvers(symbols: seq<(Tile, Tile)>): nat {
    if symbols == [] then 0
    else Quicksilvers(symbols[..|symbols| - 1]) + if symbols[|symbols| - 1].0 == Quicksilver then 1 else 0
  }

  /** The shapes a dealt pair takes: an element twice, Salt with a basic
      tile, Mors with Vitae, or Quicksilver with a metal. */
  predicate PairKind(pair: (Tile, Tile)) {
    || (IsElement(pair.0) && pair.1 == pair.0)
    || (pair.0 == Salt && IsBasic(pair.1))
    || (pair.0 == Mors && pair.1 == Vitae)
    || (pair.0 == Quicksilver && IsMetal(pair.1))
  }

  /** Every pair has one of the dealt shapes, and the metal partnering the
      k-th Quicksilver is the k-th after Lead: the metals are handed out
      Lead, Tin, Iron, ... in dealing order. */
  ghost predicate PairsInOrder(symbols: seq<(Tile, Tile)>) {
    forall k :: 0 <= k < |symbols| ==>
      && PairKind(symbols[k])
      && (symbols[k].0 == Quicksilver ==> symbols[k].1 == Lead + Quicksilvers(symbols[..k]))
  }

  /** k pairs dealt from the stock now in s: the stock is consistent, the
      metal to hand out next follows the Quicksilver pairs so far, and the
      pairs hold exactly the tiles `Dealt` counts. */
  ghost predicate Dealing(symbols: seq<(Tile, Tile)>, s: Stock, k: int) {
    && Counts(s, k) && |symbols| == k
    && PairsInOrder(symbols)
    && s.metal == Lead + Quicksilvers(symbols)
    && forall t :: multiset(Flat(symbols))[t] == Dealt(t, s)
  }

  /** Dealing starts from a fresh stock with no pairs. */
  lemma DealStart(s: Stock)
    requires Counts(s, 0) && s.metal == Lead && forall t :: Dealt(t, s) == 0
    ensures Dealing([], s, 0)
  {
  }

  /** One draw extends the deal by its pair. */
  lemma DealStep(symbols: seq<(Tile, Tile)>, kind: Tile, s: Stock, k: int)
    requires Dealing(symbols, s, k) && k < 27
    requires kind in Keys && kind in s.budget && s.budget[kind] > 0
    ensures kind == Salt ==> |s.queue| > 0
    ensures Dealing(symbols + [Symbols(kind, s)], After(kind, s), k + 1)
  {
    DrawStep(kind, s, k);
    DrawDeals(kind, s, k);
    DealExtends(symbols, Symbols(kind, s), s, After(kind, s), k);
  }

  /** A pair respecting the metal order, drawn from s and leaving s',
      extends the deal. */
  lemma DealExtends(symbols: seq<(Tile, Tile)>, pair: (Tile, Tile), s: Stock, s': Stock, k: int)
    requires Dealing(symbols, s, k) && Counts(s', k + 1)
    requires PairKind(pair)
    requires pair.0 == Quicksilver ==> pair.1 == s.metal
    requires s'.metal == s.metal + if pair.0 == Quicksilver then 1 else 0
    requires forall t :: Dealt(t, s') == Dealt(t, s) + multiset{pair.0, pair.1}[t]
    ensures Dealing(symbols + [pair], s', k + 1)
  {
    PairStep(symbols, pair);
  }

  /** Appending a pair of a dealt shape that respects the metal order keeps
      the order, and adds
      its two tiles to the deal. */
  lemma PairStep(symbols: seq<(Tile, Tile)>, pair: (Tile, Tile))
    requires PairsInOrder(symbols)
    requires PairKind(pair)
    requires pair.0 == Quicksilver ==> pair.1 == Lead + Quicksilvers(symbols)
    ensures PairsInOrder(symbols + [pair])
    ensures Quicksilvers(symbols + [pair]) == Quicksilvers(symbols) + if pair.0 == Quicksilver then 1 else 0
    ensures multiset(Flat(symbols + [pair])) == multiset(Flat(symbols)) + multiset{pair.0, pair.1}
  {
    var next := symbols + [pair];
    var k := |symbols|;
    assert next[..k] == symbols;
    forall j | 0 <= j < |next|
      ensures PairKind(next[j])
      ensures next[j].0 == Quicksilver ==> next[j].1 == Lead + Quicksilvers(next[..j])
    {
      if j < k {
        assert next[j] == symbols[j] && next[..j] == symbols[..j];
      }
    }
  }

  /** A complete deal holds the tiles of `Full` and five Quicksilver pairs,
      so the metals handed out are Lead to Silver, one each. */
  lemma DealDone(symbols: seq<(Tile, Tile)>, s: Stock)
    requires Dealing(symbols, s, 27)
    ensures forall t :: multiset(Flat(symbols))[t] == Full(t)
    ensures Quicksilvers(symbols) == 5
  {
    StockDone(s);
  }

  /** A prefix of the pairs has no more Quicksilver pairs than the whole. */
  lemma {:induction false} QuicksilversPrefix(symbols: seq<(Tile, Tile)>, k: int)
    requires 0 <= k <= |symbols|
    ensures Quicksilvers(symbols[..k]) <= Quicksilvers(symbols)
    decreases |symbols|
  {
    if k < |symbols| {
      var prefix := symbols[..|symbols| - 1];
      QuicksilversPrefix(prefix, k);
      assert prefix[..k] == symbols[..k];
    } else {
      assert symbols[..k] == symbols;
    }
  }
}

