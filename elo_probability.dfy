/** `winning_probability`: each player's normalised share of expected pairwise wins. */
module EloProbability {
  import opened Outcomes
  import opened Ordered
  import opened Quotients

  /** The pairwise term `1 / (1 + 10 ** ((r2 - r1) / diff))` for a fixed `diff`:
      the expected result of a player rated r1 against one rated r2. Its
      floating-point value is not modelled; it is a parameter. */
  type Term = (real, real) -> real

  /** What the logistic term guarantees: the two sides of a pairing add up to 1. */
  ghost predicate Complementary(t: Term)
  {
    forall a, b :: t(a, b) + t(b, a) == 1.0
  }

  /** The rating of the i-th player in insertion order. */
  function Rating(d: Dict<real>, i: int): real
    requires d.Valid() && 0 <= i < |d.keys|
  {
    d.vals[d.keys[i]]
  }

  /** `num` for player i once the inner loop has visited the first n players. */
  function Num(d: Dict<real>, t: Term, i: int, n: int): real
    requires d.Valid() && 0 <= i < |d.keys| && 0 <= n <= |d.keys|
    decreases n
  {
    if n == 0 then 0.0
    else Num(d, t, i, n - 1) + (if d.keys[n - 1] == d.keys[i] then 0.0 else t(Rating(d, i), Rating(d, n - 1)))
  }

  /** The number of unordered pairs of n players, 0 + 1 + ... + (n - 1). */
  function Pairs(n: int): real
    decreases n
  {
    if n <= 0 then 0.0 else Pairs(n - 1) + (n - 1) as real
  }

  lemma {:induction false} PairsPositive(n: int)
    requires n >= 2
    ensures Pairs(n) >= 1.0
  {
    if n > 2 { PairsPositive(n - 1); }
  }

  /** Pairs(n) is the `den = N * (N - 1) / 2` of the source; it is 0 only for N < 2. */
  lemma {:induction false} PairsClosedForm(n: nat)
    ensures Pairs(n) == (n * (n - 1)) as real / 2.0
    ensures Pairs(n) == 0.0 <==> n <= 1
    ensures n >= 2 ==> Pairs(n) >= 1.0
  {
    if n > 0 {
      PairsClosedForm(n - 1);
      assert n * (n - 1) == (n - 1) * (n - 2) + 2 * (n - 1);
    }
  }

  /** The value `num / den` stored for player i. */
  function Share(d: Dict<real>, t: Term, i: int): real
    requires d.Valid() && 0 <= i < |d.keys| && |d.keys| >= 2
  {
    PairsPositive(|d.keys|);
    Num(d, t, i, |d.keys|) / Pairs(|d.keys|)
  }

  /** The dictionary `rv` once the outer loop has filled in the first n players. */
  function Probs(d: Dict<real>, t: Term, n: int): (rv: Dict<real>)
    requires d.Valid() && 0 <= n <= |d.keys| && |d.keys| != 1
    ensures rv.Valid() && rv.keys == d.keys[..n]
    ensures forall i :: 0 <= i < n ==> rv.vals[d.keys[i]] == Share(d, t, i)
    decreases n
  {
    if n == 0 then Empty()
    else
      var prev := Probs(d, t, n - 1);
      ProbsStep(d, t, n, prev);
      prev.Set(d.keys[n - 1], Share(d, t, n - 1))
  }

  /** Storing player n - 1's share after the first n - 1 extends the
      dictionary by that player and keeps the earlier shares. */
  lemma ProbsStep(d: Dict<real>, t: Term, n: int, prev: Dict<real>)
    requires d.Valid() && 1 <= n <= |d.keys| && |d.keys| != 1
    requires prev.Valid() && prev.keys == d.keys[..n - 1]
    requires forall i :: 0 <= i < n - 1 ==> prev.vals[d.keys[i]] == Share(d, t, i)
    ensures d.keys[n - 1] !in prev.vals
    ensures prev.Set(d.keys[n - 1], Share(d, t, n - 1)).keys == d.keys[..n]
    ensures forall i :: 0 <= i < n ==>
      prev.Set(d.keys[n - 1], Share(d, t, n - 1)).vals[d.keys[i]] == Share(d, t, i)
  {
    FreshKey(d.keys, n);
    var next := prev.Set(d.keys[n - 1], Share(d, t, n - 1));
    forall i | 0 <= i < n
      ensures next.vals[d.keys[i]] == Share(d, t, i)
    {
      if i < n - 1 {
        assert d.keys[i] in prev.keys;
      }
    }
  }

  /** The n-th key of a distinct list is new after the first n - 1. */
  lemma FreshKey(keys: seq<string>, n: int)
    requires Distinct(keys) && 1 <= n <= |keys|
    ensures keys[n - 1] !in keys[..n - 1]
    ensures forall i :: 0 <= i < n - 1 ==> keys[i] != keys[n - 1]
    ensures keys[..n] == keys[..n - 1] + [keys[n - 1]]
  {
    DistinctIndices(keys);
  }

  /** What `winning_probability(ratings)` returns, or raises. */
  function Probabilities(d: Dict<real>, t: Term): Result<Dict<real>>
    requires d.Valid()
  {
    if |d.keys| == 1 then Err(ZeroDivisionError) else Ok(Probs(d, t, |d.keys|))
  }

  /** The inner loop of `winning_probability`: `num` for player i, its
      expected wins against every other player. */
  method ExpectedWins(ratings: Dict<real>, t: Term, i: int) returns (num: real)
    requires ratings.Valid() && 0 <= i < |ratings.keys|
    ensures num == Num(ratings, t, i, |ratings.keys|)
  {
    var player1 := ratings.keys[i];
    var rating1 := ratings.vals[player1];
    num := 0.0;
    for j := 0 to |ratings.keys|
      invariant num == Num(ratings, t, i, j)
    {
      var player2 := ratings.keys[j];
      if player1 == player2 {
        continue;
      }
      num := num + t(rating1, ratings.vals[player2]);
    }
  }

  /** `winning_probability(ratings, diff)`, with the pairwise term for `diff` as `t`. */
  method WinningProbability(ratings: Dict<real>, t: Term) returns (r: Result<Dict<real>>)
    requires ratings.Valid()
    ensures r == Probabilities(ratings, t)
  {
    var rv := Empty<real>();
    var n := |ratings.keys|;
    for i := 0 to n
      invariant n == 1 ==> i == 0
      invariant n != 1 ==> rv == Probs(ratings, t, i)
    {
      var player1 := ratings.keys[i];
      var rating1 := ratings.vals[player1];
      var num := ExpectedWins(ratings, t, i);
      var den := (n * (n - 1)) as real / 2.0;
      PairsClosedForm(n);
      if den == 0.0 {
        return Err(ZeroDivisionError);
      }
      rv := rv.Set(player1, num / den);
    }
    return Ok(rv);
  }

  /** The result has the input's players in the input's order; it fails
      exactly for a single player, and is empty for no players. */
  lemma ProbabilitiesKeys(d: Dict<real>, t: Term)
    requires d.Valid()
    ensures Probabilities(d, t).Err? <==> |d.keys| == 1
    ensures Probabilities(d, t).Err? ==> Probabilities(d, t).error == ZeroDivisionError
    ensures Probabilities(d, t).Ok? ==> Probabilities(d, t).value.keys == d.keys
    ensures Probabilities(d, t).Ok? ==> Probabilities(d, t).value.vals.Keys == d.vals.Keys
    ensures |d.keys| == 0 ==> Probabilities(d, t) == Ok(Empty())
  {
    if |d.keys| != 1 {
      var p := Probs(d, t, |d.keys|);
      assert d.keys[..|d.keys|] == d.keys;
      assert p.vals.Keys == d.vals.Keys;
    }
  }

  // ----- The probabilities add up to 1 -----

  /** A complementary term gives 0.5 to a player against an equal rating. */
  lemma SelfTermIsHalf(t: Term, a: real)
    requires Complementary(t)
    ensures t(a, a) == 0.5
  {
    assert t(a, a) + t(a, a) == 1.0;
  }

  /** Sum over the first n players of their term against player j. */
  ghost function Col(d: Dict<real>, t: Term, j: int, n: int): real
    requires d.Valid() && 0 <= j < |d.keys| && 0 <= n <= |d.keys|
    decreases n
  {
    if n == 0 then 0.0 else Col(d, t, j, n - 1) + t(Rating(d, n - 1), Rating(d, j))
  }

  /** Sum over the first n players of player i's term against them. */
  ghost function Row(d: Dict<real>, t: Term, i: int, n: int): real
    requires d.Valid() && 0 <= i < |d.keys| && 0 <= n <= |d.keys|
    decreases n
  {
    if n == 0 then 0.0 else Row(d, t, i, n - 1) + t(Rating(d, i), Rating(d, n - 1))
  }

  /** Sum of `num` over the first m players, each counted among the first n. */
  ghost function Block(d: Dict<real>, t: Term, m: int, n: int): real
    requires d.Valid() && 0 <= m <= n <= |d.keys|
    decreases m
  {
    if m == 0 then 0.0 else Block(d, t, m - 1, n) + Num(d, t, m - 1, n)
  }

  lemma {:induction false} NumBeforeSelf(d: Dict<real>, t: Term, i: int, n: int)
    requires d.Valid() && 0 <= n <= i < |d.keys|
    ensures Num(d, t, i, n) == Row(d, t, i, n)
  {
    if n > 0 {
      NumBeforeSelf(d, t, i, n - 1);
      assert d.keys[n - 1] != d.keys[i] by {
        DistinctIndices(d.keys);
      }
    }
  }

  lemma {:induction false} BlockStep(d: Dict<real>, t: Term, m: int, n: int)
    requires d.Valid() && 0 <= m <= n < |d.keys|
    ensures Block(d, t, m, n + 1) == Block(d, t, m, n) + Col(d, t, n, m)
  {
    if m > 0 {
      BlockStep(d, t, m - 1, n);
      assert d.keys[n] != d.keys[m - 1] by {
        DistinctIndices(d.keys);
      }
    }
  }

  lemma {:induction false} ColPlusRow(d: Dict<real>, t: Term, j: int, n: int)
    requires d.Valid() && Complementary(t) && 0 <= j < |d.keys| && 0 <= n <= |d.keys|
    ensures Col(d, t, j, n) + Row(d, t, j, n) == n as real
  {
    if n > 0 {
      ColPlusRow(d, t, j, n - 1);
      assert t(Rating(d, n - 1), Rating(d, j)) + t(Rating(d, j), Rating(d, n - 1)) == 1.0;
    }
  }

  /** Over the first n players, all `num` together count each of the n(n-1)/2 pairs once. */
  lemma {:induction false} BlockIsPairs(d: Dict<real>, t: Term, n: int)
    requires d.Valid() && Complementary(t) && 0 <= n <= |d.keys|
    ensures Block(d, t, n, n) == Pairs(n)
  {
    if n > 0 {
      var m := n - 1;
      BlockIsPairs(d, t, m);
      BlockStep(d, t, m, m);
      NumBeforeSelf(d, t, m, m);
      ColPlusRow(d, t, m, m);
      assert Num(d, t, m, n) == Num(d, t, m, m);
      assert Pairs(n) == Pairs(m) + m as real;
    }
  }

  /** Sum of the values of the first n keys, in insertion order. */
  ghost function SumValues(d: Dict<real>, n: int): real
    requires d.Valid() && 0 <= n <= |d.keys|
    decreases n
  {
    if n == 0 then 0.0 else SumValues(d, n - 1) + d.vals[d.keys[n - 1]]
  }

  lemma {:induction false} SumOfShares(d: Dict<real>, t: Term, p: Dict<real>, n: int)
    requires d.Valid() && p.Valid() && |d.keys| >= 2 && 0 <= n <= |d.keys| && p.keys == d.keys
    requires forall i :: 0 <= i < |d.keys| ==> p.vals[d.keys[i]] == Share(d, t, i)
    ensures Pairs(|d.keys|) >= 1.0
    ensures SumValues(p, n) == Block(d, t, n, |d.keys|) / Pairs(|d.keys|)
  {
    PairsPositive(|d.keys|);
    if n > 0 {
      SumOfShares(d, t, p, n - 1);
      assert p.vals[p.keys[n - 1]] == Share(d, t, n - 1);
      QuotientSum(Block(d, t, n - 1, |d.keys|), Num(d, t, n - 1, |d.keys|), Pairs(|d.keys|));
    }
  }

  /** With a complementary term and at least two players the probabilities add up to 1. */
  lemma ProbabilitiesSumToOne(d: Dict<real>, t: Term)
    requires d.Valid() && Complementary(t) && |d.keys| >= 2
    ensures Probabilities(d, t).Ok?
    ensures SumValues(Probabilities(d, t).value, |d.keys|) == 1.0
  {
    var n := |d.keys|;
    var p := Probs(d, t, n);
    assert d.keys[..n] == d.keys;
    SumOfShares(d, t, p, n);
    BlockIsPairs(d, t, n);
    SelfQuotient(Pairs(n));
  }

  // ----- Players with equal ratings -----

  lemma {:induction false} NumOfEqualRatings(d: Dict<real>, t: Term, i: int, n: int)
    requires d.Valid() && Complementary(t) && 0 <= i < |d.keys| && 0 <= n <= |d.keys|
    requires forall j :: 0 <= j < |d.keys| ==> Rating(d, j) == Rating(d, i)
    ensures Num(d, t, i, n) == 0.5 * (if i < n then n - 1 else n) as real
  {
    if n > 0 {
      NumOfEqualRatings(d, t, i, n - 1);
      SelfTermIsHalf(t, Rating(d, i));
      assert d.keys[n - 1] == d.keys[i] <==> n - 1 == i by {
        DistinctIndices(d.keys);
      }
    }
  }

  /** When every player has the same rating each gets 1/N, so two equal players get 0.5 each. */
  lemma EqualRatingsShareEvenly(d: Dict<real>, t: Term, i: int)
    requires d.Valid() && Complementary(t) && |d.keys| >= 2 && 0 <= i < |d.keys|
    requires forall j :: 0 <= j < |d.keys| ==> Rating(d, j) == Rating(d, i)
    ensures Probabilities(d, t).Ok?
    ensures Probabilities(d, t).value.vals[d.keys[i]] == 1.0 / |d.keys| as real
    ensures |d.keys| == 2 ==> Probabilities(d, t).value.vals[d.keys[i]] == 0.5
  {
    var n := |d.keys|;
    var p := Probs(d, t, n);
    assert Probabilities(d, t) == Ok(p);
    assert p.vals[d.keys[i]] == Share(d, t, i);
    ShareOfEqualRatings(d, t, i);
  }

  lemma ShareOfEqualRatings(d: Dict<real>, t: Term, i: int)
    requires d.Valid() && Complementary(t) && |d.keys| >= 2 && 0 <= i < |d.keys|
    requires forall j :: 0 <= j < |d.keys| ==> Rating(d, j) == Rating(d, i)
    ensures Share(d, t, i) == 1.0 / |d.keys| as real
  {
    var n := |d.keys|;
    PairsPositive(n);
    var x, y := Num(d, t, i, n), Pairs(n);
    NumOfEqualRatings(d, t, i, n);
    PairsOfEqual(n);
    ShareOfEqual(x, y, (n - 1) as real, n as real);
  }

  lemma PairsOfEqual(n: nat)
    ensures Pairs(n) == 0.5 * (n - 1) as real * n as real
  {
    PairsClosedForm(n);
    assert (n * (n - 1)) as real == (n - 1) as real * n as real;
  }

  lemma ShareOfEqual(x: real, y: real, a: real, n: real)
    requires a >= 1.0 && n >= 2.0 && x == 0.5 * a && y == 0.5 * a * n
    ensures x / y == 1.0 / n
  {
  }
}
