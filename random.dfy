/** The two random helpers of the generator, `shuffle` and `pick_random`,
    with the random draws they make supplied by the caller, and `Below`,
    which stands for `Math.floor(Math.random() * n)`: some value in [0, n). */
module Random {
  import opened Tiles

  /** Some value in [0, n); every such value is a possible outcome. */
  method Below(n: nat) returns (x: nat)
    requires n > 0
    ensures x < n
  {
    x :| x < n;
  }

  // ----------------------------------------------------------------- shuffle

  /** The draws of one Fisher-Yates pass: js[i] in [0, i] is the index that
      position i is swapped with (js[0] is necessarily 0 and unused). */
  ghost predicate IsChoices(js: seq<int>, n: int) {
    |js| == n && forall i :: 0 <= i < n ==> 0 <= js[i] <= i
  }

  predicate Distinct<T(==)>(s: seq<T>) {
    forall i, j :: 0 <= i < j < |s| ==> s[i] != s[j]
  }

  function Swap<T>(s: seq<T>, i: int, j: int): seq<T>
    requires 0 <= i < |s| && 0 <= j < |s|
  {
    s[i := s[j]][j := s[i]]
  }

  /** The Fisher-Yates steps i, i-1, ..., 1 applied to s. */
  ghost function FisherYates<T>(s: seq<T>, js: seq<int>, i: int): seq<T>
    requires IsChoices(js, |s|) && i < |s|
    decreases i
  {
    if i <= 0 then s else FisherYates(Swap(s, i, js[i]), js, i - 1)
  }

  /** The order `shuffle` leaves s in, given its draws. */
  ghost function Shuffled<T>(s: seq<T>, js: seq<int>): seq<T>
    requires IsChoices(js, |s|)
  {
    FisherYates(s, js, |s| - 1)
  }

  /** One swap keeps the elements, and keeps distinct elements distinct. */
  lemma SwapPermutes<T>(s: seq<T>, i: int, j: int)
    requires 0 <= i < |s| && 0 <= j < |s|
    ensures |Swap(s, i, j)| == |s| && multiset(Swap(s, i, j)) == multiset(s)
    ensures Distinct(s) ==> Distinct(Swap(s, i, j))
  {
    var t := Swap(s, i, j);
    assert multiset(s[i := s[j]]) == multiset(s) - multiset{s[i]} + multiset{s[j]};
    if Distinct(s) {
      forall a, b | 0 <= a < b < |t| ensures t[a] != t[b] {
        var a' := if a == i then j else if a == j then i else a;
        var b' := if b == i then j else if b == j then i else b;
        assert t[a] == s[a'] && t[b] == s[b'];
        assert a' != b';
      }
    }
  }

  lemma {:induction false} FisherYatesPermutes<T>(s: seq<T>, js: seq<int>, i: int)
    requires IsChoices(js, |s|) && i < |s|
    ensures |FisherYates(s, js, i)| == |s|
    ensures multiset(FisherYates(s, js, i)) == multiset(s)
    ensures Distinct(s) ==> Distinct(FisherYates(s, js, i))
    decreases i
  {
    if i > 0 {
      SwapPermutes(s, i, js[i]);
      FisherYatesPermutes(Swap(s, i, js[i]), js, i - 1);
    }
  }

  /** A shuffle puts the same elements in a new order, and a list without
      repeats stays without repeats. */
  lemma ShuffledPermutes<T>(s: seq<T>, js: seq<int>)
    requires IsChoices(js, |s|)
    ensures |Shuffled(s, js)| == |s|
    ensures multiset(Shuffled(s, js)) == multiset(s)
    ensures Distinct(s) ==> Distinct(Shuffled(s, js))
  {
    FisherYatesPermutes(s, js, |s| - 1);
  }

  /** `shuffle`: Fisher-Yates in place, from the last index down to 1. */
  method Shuffle<T>(a: array<T>, js: seq<int>)
    requires IsChoices(js, a.Length)
    modifies a
    ensures a[..] == Shuffled(old(a[..]), js)
  {
    var i := a.Length - 1;
    while i > 0
      invariant -1 <= i < a.Length
      invariant IsChoices(js, |a[..]|)
      invariant FisherYates(a[..], js, i) == Shuffled(old(a[..]), js)
    {
      var j := js[i];
      ghost var before := a[..];
      var t := a[i];
      a[i] := a[j];
      a[j] := t;
      assert a[..] == Swap(before, i, j);
      i := i - 1;
    }
  }

  /** Draws for one shuffle of n elements. */
  method Choices(n: nat) returns (js: seq<int>)
    ensures IsChoices(js, n)
  {
    js := [];
    for i := 0 to n
      invariant IsChoices(js, i)
    {
      var j := Below(i + 1);
      js := js + [j];
    }
  }

  /** `shuffle` applied to a list the caller holds: the list is copied into
      an array, shuffled in place with fresh draws and read back. */
  method ShuffleList<T(==)>(s: seq<T>) returns (t: seq<T>, ghost js: seq<int>)
    ensures IsChoices(js, |s|) && t == Shuffled(s, js)
    ensures |t| == |s| && multiset(t) == multiset(s)
    ensures Distinct(s) ==> Distinct(t)
  {
    var a := new T[|s|](i requires 0 <= i < |s| => s[i]);
    assert a[..] == s;
    var draws := Choices(|s|);
    js := draws;
    Shuffle(a, draws);
    t := a[..];
    ShuffledPermutes(s, js);
  }

  // ------------------------------------------------------------- pick_random

  /** Every key visited has a count in the budget. */
  predicate KeysIn(keys: seq<Tile>, budget: map<Tile, int>) {
    forall i :: 0 <= i < |keys| ==> keys[i] in budget
  }

  /** Sum of the counts of the keys. */
  function Total(keys: seq<Tile>, budget: map<Tile, int>): int
    requires KeysIn(keys, budget)
  {
    if keys == [] then 0 else Total(keys[..|keys| - 1], budget) + budget[keys[|keys| - 1]]
  }

  /** Running sum of the counts of the first n keys. */
  function Prefix(keys: seq<Tile>, budget: map<Tile, int>, n: int): int
    requires KeysIn(keys, budget) && 0 <= n <= |keys|
  {
    Total(keys[..n], budget)
  }

  /** Key i is the first whose running sum of counts exceeds x. */
  ghost predicate FirstOver(keys: seq<Tile>, budget: map<Tile, int>, x: int, i: int)
    requires KeysIn(keys, budget)
    requires 0 <= i < |keys|
  {
    && Prefix(keys, budget, i + 1) > x
    && forall j :: 1 <= j <= i ==> Prefix(keys, budget, j) <= x
  }

  /** `pick_random`: the budget's keys are visited in `keys` order; x is the
      draw in [0, total). Returns -1 when the summed budget is not positive,
      and otherwise the first key whose running sum exceeds x, which always
      has a positive count. */
  method PickRandom(keys: seq<Tile>, budget: map<Tile, int>, x: int) returns (key: Tile)
    requires KeysIn(keys, budget)
    requires Total(keys, budget) > 0 ==> 0 <= x < Total(keys, budget)
    ensures Total(keys, budget) <= 0 ==> key == -1
    ensures Total(keys, budget) > 0 ==>
      exists i :: 0 <= i < |keys| && key == keys[i] && FirstOver(keys, budget, x, i)
    ensures Total(keys, budget) > 0 ==> key in keys && budget[key] > 0
  {
    var total := 0;
    for i := 0 to |keys|
      invariant total == Prefix(keys, budget, i)
    {
      assert keys[..i + 1][..i] == keys[..i];
      total := total + budget[keys[i]];
    }
    assert keys[..|keys|] == keys;
    if total <= 0 {
      return -1;
    }
    var y, i := x, 0;
    while true
      invariant 0 <= i < |keys|
      invariant y == x - Prefix(keys, budget, i) && y >= 0
      invariant forall j :: 1 <= j <= i ==> Prefix(keys, budget, j) <= x
      decreases |keys| - i
    {
      assert keys[..i + 1][..i] == keys[..i];
      y := y - budget[keys[i]];
      if y < 0 {
        assert FirstOver(keys, budget, x, i);
        return keys[i];
      }
      i := i + 1;
    }
  }
}
