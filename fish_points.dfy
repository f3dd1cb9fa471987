/** The fish counts of a "Hey, That's My Fish!" board: how `_generate_pts`
    splits the tiles of a map between 0 to 5 fish. */
module FishPoints {
  /** `TILES_PERCENTAGE`: the share, in percent, of the one-, two- and
      three-fish tiles among the tiles left once the zeroes and the five are
      set aside (the -1 entries are never read). */
  const TILES_PERCENTAGE: seq<int> := [-1, 50, 33, 16, -1, -1]

  /** `ZERO_PERCENTAGES`: the bounds of the percentage of empty tiles. */
  const ZERO_PERCENT_MIN: int := 1
  const ZERO_PERCENT_MAX: int := 10

  /** `FIVE_TILE_CHANCE * 100`, the value `0.05 * 100 == 5.0` exactly. */
  const FIVE_TILE_CHANCE_PERCENT: int := 5

  /** The most fish a tile can hold; `FISH_COLORS` has one colour per count. */
  const MAX_FISH: int := 5

  /** The number of five-fish tiles, given the roll `randint(0, 100)`. */
  function Fives(roll: int): (f: int)
    ensures f == 0 || f == 1
    ensures f == 1 <==> roll <= FIVE_TILE_CHANCE_PERCENT
  {
    if roll <= FIVE_TILE_CHANCE_PERCENT then 1 else 0
  }

  /** The sum of `r[i..]` (`sum(r[i:])`). */
  function SumFrom(r: seq<int>, i: nat): int
    decreases |r| - i
  {
    if i >= |r| then 0 else r[i] + SumFrom(r, i + 1)
  }

  /** `_ratio` for an area, with `zeroPct` the draw `randint(1, 10)` and
      `roll` the draw `randint(0, 100)`: the number of tiles with 0, 1, ...,
      5 fish. Python's `//` by 100 rounds down, as Dafny's `/` by a positive
      divisor does. The six counts always add up to the area, and there is
      at most one five. */
  function Ratio(area: int, zeroPct: int, roll: int): (r: seq<int>)
    ensures |r| == 6
    ensures SumFrom(r, 0) == area
    ensures r[5] == Fives(roll)
    ensures SumFrom(r, 1) == area - r[0]
  {
    var zeroes := zeroPct * area / 100;
    var fives := Fives(roll);
    var left := area - zeroes - fives;
    var ones := TILES_PERCENTAGE[1] * left / 100;
    var twos := TILES_PERCENTAGE[2] * left / 100;
    var threes := TILES_PERCENTAGE[3] * left / 100;
    var fours := left - ones - twos - threes;
    var r := [zeroes, ones, twos, threes, fours, fives];
    SumOfSix(r);
    r
  }

  /** The sums of a six-element list, written out. */
  lemma SumOfSix(r: seq<int>)
    requires |r| == 6
    ensures SumFrom(r, 1) == r[1] + r[2] + r[3] + r[4] + r[5]
    ensures SumFrom(r, 0) == r[0] + SumFrom(r, 1)
  {
    assert SumFrom(r, 6) == 0;
    assert SumFrom(r, 4) == r[4] + r[5];
    assert SumFrom(r, 2) == r[2] + r[3] + SumFrom(r, 4);
  }

  /** A share of at most p percent, rounded down, of a non-negative n lies
      between 0 and that share of n. */
  lemma PercentBounds(p: int, n: int)
    requires 0 <= p && 0 <= n
    ensures 0 <= p * n / 100
    ensures 100 * (p * n / 100) <= p * n
  {
  }

  /** For a positive area and a percentage of empty tiles from 1 to 10,
      none of the six counts is negative. */
  lemma {:induction false} RatioNonNegative(area: int, zeroPct: int, roll: int)
    requires area >= 1
    requires ZERO_PERCENT_MIN <= zeroPct <= ZERO_PERCENT_MAX
    ensures forall v :: 0 <= v < 6 ==> Ratio(area, zeroPct, roll)[v] >= 0
  {
    var zeroes := zeroPct * area / 100;
    PercentBounds(zeroPct, area);
    assert zeroPct * area <= 10 * area;
    var left := area - zeroes - Fives(roll);
    assert left >= 0 by {
      if area < 10 {
        assert zeroPct * area < 100;
        assert zeroes == 0;
      } else {
        assert 100 * zeroes <= 10 * area;
      }
    }
    PercentBounds(50, left);
    PercentBounds(33, left);
    PercentBounds(16, left);
  }

  /** `[v] * n`: n copies of v, none when n is not positive. */
  function Repeat(v: int, n: int): (s: seq<int>)
    ensures |s| == if n < 0 then 0 else n
    ensures forall i :: 0 <= i < |s| ==> s[i] == v
    decreases n
  {
    if n <= 0 then [] else [v] + Repeat(v, n - 1)
  }

  /** n copies of v hold v n times and nothing else. */
  lemma {:induction false} RepeatCount(v: int, n: int, w: int)
    requires n >= 0
    ensures multiset(Repeat(v, n))[w] == if v == w then n else 0
    decreases n
  {
    if n > 0 {
      RepeatCount(v, n - 1, w);
      assert multiset(Repeat(v, n)) == multiset{v} + multiset(Repeat(v, n - 1));
    }
  }

  /** The list `pts` before `random.shuffle`: the zeroes, then the ones, and
      so on up to the fives. */
  function Unshuffled(r: seq<int>): seq<int>
    requires |r| == 6
  {
    Repeat(0, r[0]) + Repeat(1, r[1]) + Repeat(2, r[2]) + Repeat(3, r[3]) + Repeat(4, r[4]) + Repeat(5, r[5])
  }

  /** Every value of the unshuffled list is a fish count from 0 to 5. */
  lemma UnshuffledValues(r: seq<int>)
    requires |r| == 6
    ensures forall i :: 0 <= i < |Unshuffled(r)| ==> 0 <= Unshuffled(r)[i] <= MAX_FISH
  {
  }

  /** With non-negative counts, the unshuffled list has as many elements as
      the counts add up to, and value v occurs exactly `r[v]` times. */
  lemma UnshuffledCounts(r: seq<int>)
    requires |r| == 6 && forall v :: 0 <= v < 6 ==> r[v] >= 0
    ensures |Unshuffled(r)| == SumFrom(r, 0)
    ensures forall v :: 0 <= v < 6 ==> multiset(Unshuffled(r))[v] == r[v]
  {
    SumOfSix(r);
    forall v | 0 <= v < 6
      ensures multiset(Unshuffled(r))[v] == r[v]
    {
      UnshuffledCount(r, v);
    }
  }

  /** How often one value w occurs in the unshuffled list. */
  lemma UnshuffledCount(r: seq<int>, w: int)
    requires |r| == 6 && forall v :: 0 <= v < 6 ==> r[v] >= 0
    ensures multiset(Unshuffled(r))[w] == if 0 <= w < 6 then r[w] else 0
  {
    var a0, a1, a2 := Repeat(0, r[0]), Repeat(1, r[1]), Repeat(2, r[2]);
    var a3, a4, a5 := Repeat(3, r[3]), Repeat(4, r[4]), Repeat(5, r[5]);
    assert Unshuffled(r) == a0 + a1 + a2 + a3 + a4 + a5;
    assert multiset(Unshuffled(r)) == multiset(a0) + multiset(a1) + multiset(a2) + multiset(a3) + multiset(a4) + multiset(a5);
    RepeatCount(0, r[0], w);
    RepeatCount(1, r[1], w);
    RepeatCount(2, r[2], w);
    RepeatCount(3, r[3], w);
    RepeatCount(4, r[4], w);
    RepeatCount(5, r[5], w);
  }

  /** `random.shuffle` as a parameter: any function that only reorders. */
  ghost predicate IsShuffle(shuffle: seq<int> -> seq<int>)
  {
    forall s :: multiset(shuffle(s)) == multiset(s)
  }

  /** The list `_generate_pts` returns. */
  function Points(area: int, zeroPct: int, roll: int, shuffle: seq<int> -> seq<int>): seq<int>
  {
    shuffle(Unshuffled(Ratio(area, zeroPct, roll)))
  }

  /** For a positive area: the list holds exactly `area` values, each a fish
      count from 0 to 5 (an index into `FISH_COLORS`), value v occurring as
      often as `_ratio` says, at most one of them a five; and `tiles_cnt`,
      the sum of `_ratio[1:]`, is the area minus the zeroes, the number of
      tiles with fish. */
  lemma {:induction false} PointsFacts(area: int, zeroPct: int, roll: int, shuffle: seq<int> -> seq<int>)
    requires area >= 1
    requires ZERO_PERCENT_MIN <= zeroPct <= ZERO_PERCENT_MAX && 0 <= roll <= 100
    requires IsShuffle(shuffle)
    ensures |Points(area, zeroPct, roll, shuffle)| == area
    ensures forall v :: 0 <= v < 6 ==>
      multiset(Points(area, zeroPct, roll, shuffle))[v] == Ratio(area, zeroPct, roll)[v]
    ensures forall i :: 0 <= i < area ==> 0 <= Points(area, zeroPct, roll, shuffle)[i] <= MAX_FISH
    ensures multiset(Points(area, zeroPct, roll, shuffle))[MAX_FISH] <= 1
    ensures SumFrom(Ratio(area, zeroPct, roll), 1)
      == |Points(area, zeroPct, roll, shuffle)| - multiset(Points(area, zeroPct, roll, shuffle))[0]
  {
    var r := Ratio(area, zeroPct, roll);
    var u := Unshuffled(r);
    var pts := Points(area, zeroPct, roll, shuffle);
    RatioNonNegative(area, zeroPct, roll);
    UnshuffledCounts(r);
    UnshuffledValues(r);
    assert multiset(pts) == multiset(u);
    assert |pts| == |multiset(pts)| == |multiset(u)| == |u|;
    forall i | 0 <= i < area
      ensures 0 <= pts[i] <= MAX_FISH
    {
      assert pts[i] in multiset(u);
      var j :| 0 <= j < |u| && u[j] == pts[i];
    }
  }
}
