/** `final_scores`: the score a finishing position earns in a match. */
module EloScore {
  import opened Outcomes
  import opened Quotients

  /** The weight `calculate_new_ratings` passes to `final_scores` (ALPHA). */
  const ALPHA: int := 4

  /** `a ** e` on Python ints, for a non-negative exponent. */
  function Pow(a: int, e: nat): int
  {
    if e == 0 then 1 else a * Pow(a, e - 1)
  }

  /** `a ** e` on Python ints with any exponent: an int for `e >= 0`, the
      (here exact) float `1 / a ** -e` otherwise, and ZeroDivisionError for
      `0` raised to a negative power. */
  function PyPow(a: int, e: int): Result<real>
  {
    if e >= 0 then Ok(Pow(a, e) as real)
    else if a == 0 then Err(ZeroDivisionError)
    else PowNonZero(a, -e); Ok(1.0 / (Pow(a, -e) as real))
  }

  lemma {:induction false} PowNonZero(a: int, e: nat)
    requires a != 0
    ensures Pow(a, e) != 0
  {
    if e > 0 { PowNonZero(a, e - 1); }
  }

  /** The summand `alpha ** (noPos - i) - 1` of the denominator. */
  function Summand(noPos: int, alpha: int, i: int): int
    requires i <= noPos
  {
    Pow(alpha, noPos - i) - 1
  }

  /** `sum(alpha ** (noPos - i) - 1 for i in range(1, n + 1))`. */
  function PartialDen(noPos: int, alpha: int, n: int): int
    requires n <= noPos
    decreases n
  {
    if n <= 0 then 0 else PartialDen(noPos, alpha, n - 1) + Summand(noPos, alpha, n)
  }

  /** The denominator of `final_scores`: the sum over every position. */
  function Den(noPos: int, alpha: int): int
  {
    PartialDen(noPos, alpha, noPos)
  }

  /** `final_scores(pos, no_pos, alpha)`, with Python's exceptions as errors. */
  function FinalScores(pos: int, noPos: int, alpha: int): Result<real>
  {
    if noPos == 1 then Ok(0.5)
    else
      match PyPow(alpha, noPos - pos)
      case Err(e) => Err(e)
      case Ok(p) =>
        var den := Den(noPos, alpha);
        if den == 0 then Err(ZeroDivisionError) else Ok((p - 1.0) / (den as real))
  }

  lemma {:induction false} PowAtLeastOne(a: int, e: nat)
    requires a >= 1
    ensures Pow(a, e) >= 1
  {
    if e > 0 { PowAtLeastOne(a, e - 1); }
  }

  lemma {:induction false} PowStrictlyIncreasing(a: int, e1: nat, e2: nat)
    requires a >= 2 && e1 < e2
    ensures Pow(a, e1) < Pow(a, e2)
  {
    PowAtLeastOne(a, e2 - 1);
    if e1 < e2 - 1 { PowStrictlyIncreasing(a, e1, e2 - 1); }
  }

  lemma SummandNonNegative(noPos: int, alpha: int, i: int)
    requires alpha >= 2 && i <= noPos
    ensures Summand(noPos, alpha, i) >= 0
  {
    PowAtLeastOne(alpha, noPos - i);
  }

  /** The partial denominators grow with n, and each contains its own summands. */
  lemma {:induction false} PartialDenBounds(noPos: int, alpha: int, m: int, n: int)
    requires alpha >= 2 && 0 <= m <= n <= noPos
    ensures PartialDen(noPos, alpha, m) <= PartialDen(noPos, alpha, n)
    ensures m >= 1 ==> Summand(noPos, alpha, m) <= PartialDen(noPos, alpha, n)
  {
    if m < n {
      SummandNonNegative(noPos, alpha, n);
      PartialDenBounds(noPos, alpha, m, n - 1);
    } else if m >= 1 {
      PartialDenBounds(noPos, alpha, m - 1, m - 1);
      assert PartialDen(noPos, alpha, m - 1) >= 0 by {
        PartialDenBounds(noPos, alpha, 0, m - 1);
      }
    }
  }

  /** With at least two positions and alpha > 1 the denominator is positive. */
  lemma DenPositive(noPos: int, alpha: int)
    requires noPos >= 2 && alpha >= 2
    ensures Den(noPos, alpha) >= 1
  {
    PartialDenBounds(noPos, alpha, 1, noPos);
    PowStrictlyIncreasing(alpha, 0, noPos - 1);
  }

  /** The score of position `pos` as a quotient of its own summand by the sum. */
  lemma ScoreIsShare(pos: int, noPos: int, alpha: int)
    requires noPos >= 2 && alpha >= 2 && 1 <= pos <= noPos
    ensures Den(noPos, alpha) >= 1
    ensures FinalScores(pos, noPos, alpha) == Ok((Summand(noPos, alpha, pos) as real) / (Den(noPos, alpha) as real))
  {
    DenPositive(noPos, alpha);
    assert PyPow(alpha, noPos - pos) == Ok(Pow(alpha, noPos - pos) as real);
  }

  /** A match with a single position gives everyone 0.5, whatever the position or alpha. */
  lemma UndividedMatchScoresHalf(pos: int, alpha: int)
    ensures FinalScores(pos, 1, alpha) == Ok(0.5)
  {
  }

  /** Every position of a match scores a number in [0, 1]. */
  lemma ScoreInUnitInterval(pos: int, noPos: int, alpha: int)
    requires alpha >= 2 && 1 <= pos <= noPos
    ensures FinalScores(pos, noPos, alpha).Ok?
    ensures 0.0 <= FinalScores(pos, noPos, alpha).value <= 1.0
  {
    if noPos >= 2 {
      ScoreIsShare(pos, noPos, alpha);
      SummandNonNegative(noPos, alpha, pos);
      PartialDenBounds(noPos, alpha, pos, noPos);
      QuotientInUnitInterval(Summand(noPos, alpha, pos) as real, Den(noPos, alpha) as real);
    }
  }

  /** The last position scores 0: its summand is `alpha ** 0 - 1`. */
  lemma LastPositionScoresZero(noPos: int, alpha: int)
    requires noPos >= 2 && alpha >= 2
    ensures FinalScores(noPos, noPos, alpha) == Ok(0.0)
  {
    ScoreIsShare(noPos, noPos, alpha);
  }

  /** In a two-position match the winner scores exactly 1. */
  lemma TopOfTwoScoresOne(alpha: int)
    requires alpha != 1
    ensures FinalScores(1, 2, alpha) == Ok(1.0)
  {
    assert Pow(alpha, 0) == 1;
    assert Pow(alpha, 1) == alpha;
    assert PartialDen(2, alpha, 1) == alpha - 1;
    assert Den(2, alpha) == alpha - 1;
    assert PyPow(alpha, 1) == Ok(alpha as real);
    var d := (alpha - 1) as real;
    assert FinalScores(1, 2, alpha) == Ok((alpha as real - 1.0) / d);
    assert alpha as real - 1.0 == d;
    SelfQuotient(d);
  }

  /** With three or more positions the winner scores strictly less than 1. */
  lemma TopOfManyScoresBelowOne(noPos: int, alpha: int)
    requires noPos >= 3 && alpha >= 2
    ensures FinalScores(1, noPos, alpha).Ok?
    ensures FinalScores(1, noPos, alpha).value < 1.0
  {
    ScoreIsShare(1, noPos, alpha);
    PartialDenBounds(noPos, alpha, 2, noPos);
    assert PartialDen(noPos, alpha, 2) == Summand(noPos, alpha, 1) + Summand(noPos, alpha, 2) by {
      assert PartialDen(noPos, alpha, 0) == 0;
    }
    PowStrictlyIncreasing(alpha, 0, noPos - 2);
    var a, d := Summand(noPos, alpha, 1) as real, Den(noPos, alpha) as real;
    QuotientStrictlyMonotone(a, d, d);
    assert d / d == 1.0;
  }

  /** A better (smaller) position always scores strictly more. */
  lemma ScoreStrictlyDecreasing(p: int, q: int, noPos: int, alpha: int)
    requires alpha >= 2 && 1 <= p < q <= noPos
    ensures FinalScores(p, noPos, alpha).Ok? && FinalScores(q, noPos, alpha).Ok?
    ensures FinalScores(p, noPos, alpha).value > FinalScores(q, noPos, alpha).value
  {
    ScoreIsShare(p, noPos, alpha);
    ScoreIsShare(q, noPos, alpha);
    PowStrictlyIncreasing(alpha, noPos - q, noPos - p);
    DenPositive(noPos, alpha);
    var d := Den(noPos, alpha) as real;
    QuotientStrictlyMonotone(Summand(noPos, alpha, q) as real, Summand(noPos, alpha, p) as real, d);
  }

  /** alpha = 1 makes every summand 0, and no position at all leaves an empty sum. */
  lemma DegenerateScoresDivideByZero(pos: int, noPos: int, alpha: int)
    requires (alpha == 1 && noPos >= 2) || noPos <= 0
    ensures FinalScores(pos, noPos, alpha) == Err(ZeroDivisionError)
  {
    if alpha == 1 {
      assert forall e: nat :: Pow(1, e) == 1 by {
        forall e: nat ensures Pow(1, e) == 1 { PowOfOne(e); }
      }
      PartialDenOfOne(noPos, noPos);
    }
  }

  lemma {:induction false} PowOfOne(e: nat)
    ensures Pow(1, e) == 1
  {
    if e > 0 { PowOfOne(e - 1); }
  }

  lemma {:induction false} PartialDenOfOne(noPos: int, n: int)
    requires n <= noPos
    ensures PartialDen(noPos, 1, n) == 0
  {
    if n > 0 {
      PowOfOne(noPos - n);
      PartialDenOfOne(noPos, n - 1);
    }
  }

  /** The scores of positions 1..n added up. */
  ghost function ScoreSum(noPos: int, alpha: int, n: int): real
    requires alpha >= 2 && 0 <= n <= noPos
    decreases n
  {
    if n == 0 then 0.0
    else
      ScoreInUnitInterval(n, noPos, alpha);
      ScoreSum(noPos, alpha, n - 1) + FinalScores(n, noPos, alpha).value
  }

  lemma {:induction false} ScoreSumIsShare(noPos: int, alpha: int, n: int)
    requires noPos >= 2 && alpha >= 2 && 0 <= n <= noPos
    ensures Den(noPos, alpha) >= 1
    ensures ScoreSum(noPos, alpha, n) == (PartialDen(noPos, alpha, n) as real) / (Den(noPos, alpha) as real)
  {
    DenPositive(noPos, alpha);
    if n > 0 {
      ScoreSumIsShare(noPos, alpha, n - 1);
      ScoreIsShare(n, noPos, alpha);
      QuotientSum(PartialDen(noPos, alpha, n - 1) as real, Summand(noPos, alpha, n) as real, Den(noPos, alpha) as real);
    }
  }

  /** The scores of all positions of a match add up to exactly 1. */
  lemma ScoresSumToOne(noPos: int, alpha: int)
    requires noPos >= 2 && alpha >= 2
    ensures ScoreSum(noPos, alpha, noPos) == 1.0
  {
    ScoreSumIsShare(noPos, alpha, noPos);
    DenPositive(noPos, alpha);
  }
}
