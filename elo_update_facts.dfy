/** What `calculate_new_ratings` promises: which inputs raise, which ratings
    move and by how much, and that a strict ranking redistributes points. */
module EloUpdateFacts {
  import opened Outcomes
  import opened Ordered
  import opened EloScore
  import opened EloProbability
  import opened EloUpdate

  // ----- Errors -----

  /** The update raises KeyError exactly when the match names a player that
      `ratings` lacks, and the key it reports is such a player: the first one
      in the order of the match. */
  lemma UnknownPlayerRaisesKeyError(ratings: Dict<real>, m: Match, award: real, t: Term)
    requires ratings.Valid()
    ensures (NewRatings(ratings, m, award, t).Err? && NewRatings(ratings, m, award, t).error.KeyError?)
      <==> exists j :: 0 <= j < |Flatten(m)| && Flatten(m)[j] !in ratings.vals
    ensures NewRatings(ratings, m, award, t).Err? && NewRatings(ratings, m, award, t).error.KeyError? ==>
      exists j :: 0 <= j < |Flatten(m)| && Flatten(m)[j] == NewRatings(ratings, m, award, t).error.key
        && Flatten(m)[j] !in ratings.vals
        && forall i :: 0 <= i < j ==> Flatten(m)[i] in ratings.vals
  {
    var players := Flatten(m);
    var miss := FirstMissing(players, ratings.vals);
    if miss == |players| {
      ProbabilitiesKeys(Participants(ratings, m), t);
    }
  }

  /** `player_ratings` has a single entry exactly when the match, all of whose
      players are known, names one player (possibly several times). */
  lemma OneParticipant(ratings: Dict<real>, m: Match)
    requires ratings.Valid()
    requires forall k :: k in Flatten(m) ==> k in ratings.vals
    ensures |Participants(ratings, m).keys| == 1
      <==> |Flatten(m)| >= 1 && forall j :: 0 <= j < |Flatten(m)| ==> Flatten(m)[j] == Flatten(m)[0]
  {
    var players := Flatten(m);
    var part := Participants(ratings, m);
    ParticipantsContents(ratings, m);
    if |part.keys| == 1 {
      assert part.keys[0] in part.vals;
      forall j | 0 <= j < |players|
        ensures players[j] == part.keys[0]
      {
        assert players[j] in part.vals;
      }
    }
    if |players| >= 1 && forall j :: 0 <= j < |players| ==> players[j] == players[0] {
      assert players[0] in part.vals;
      if |part.keys| >= 2 {
        assert part.keys[0] in part.vals && part.keys[1] in part.vals;
        DistinctIndices(part.keys);
        assert false;
      }
    }
  }

  /** A match whose only player is one person (with known rating) divides
      by zero in `winning_probability`. */
  lemma LonePlayerDividesByZero(ratings: Dict<real>, m: Match, award: real, t: Term)
    requires ratings.Valid()
    requires forall k :: k in Flatten(m) ==> k in ratings.vals
    requires |Flatten(m)| >= 1 && forall j :: 0 <= j < |Flatten(m)| ==> Flatten(m)[j] == Flatten(m)[0]
    ensures NewRatings(ratings, m, award, t) == Err(ZeroDivisionError)
  {
    OneParticipant(ratings, m);
    ProbabilitiesKeys(Participants(ratings, m), t);
  }

  // ----- Successful updates -----

  /** With every player known and other than one participant, the result
      is the last loop's update with the scores and winning chances. */
  lemma NewRatingsIsUpdated(ratings: Dict<real>, m: Match, award: real, t: Term)
    requires ratings.Valid()
    requires forall k :: k in Flatten(m) ==> k in ratings.vals
    requires |Participants(ratings, m).keys| != 1
    ensures Probabilities(Participants(ratings, m), t).Ok?
    ensures forall k :: k in Flatten(m) ==>
      k in Scores(m) && k in Probabilities(Participants(ratings, m), t).value.vals
    ensures NewRatings(ratings, m, award, t)
      == Ok(Updated(ratings, Flatten(m), award, Scores(m), Probabilities(Participants(ratings, m), t).value))
  {
    KnownChances(ratings, m, t);
  }

  /** With every player known and other than one participant, nobody is
      missing, the winning chances exist, and every player has a score and
      a chance. */
  lemma KnownChances(ratings: Dict<real>, m: Match, t: Term)
    requires ratings.Valid()
    requires forall k :: k in Flatten(m) ==> k in ratings.vals
    requires |Participants(ratings, m).keys| != 1
    ensures FirstMissing(Flatten(m), ratings.vals) == |Flatten(m)|
    ensures Probabilities(Participants(ratings, m), t).Ok?
    ensures forall k :: k in Flatten(m) ==>
      k in Scores(m) && k in Probabilities(Participants(ratings, m), t).value.vals
  {
    ParticipantsContents(ratings, m);
    ScoresAreLastPositions(m);
    ProbabilitiesKeys(Participants(ratings, m), t);
  }

  /** With every player known and at least two different players, the update
      succeeds; it keeps the keys and their order, leaves everyone outside
      the match alone, and moves each player by the change
      `award * (len(players) - 1) * (score - chance)` once per occurrence,
      where the score is that of the last group naming the player. */
  lemma KnownPlayersUpdate(ratings: Dict<real>, m: Match, award: real, t: Term)
    requires ratings.Valid()
    requires forall k :: k in Flatten(m) ==> k in ratings.vals
    requires exists i, j :: 0 <= i < |Flatten(m)| && 0 <= j < |Flatten(m)| && Flatten(m)[i] != Flatten(m)[j]
    ensures NewRatings(ratings, m, award, t).Ok?
    ensures Probabilities(Participants(ratings, m), t).Ok?
    ensures var r := NewRatings(ratings, m, award, t).value;
      r.keys == ratings.keys && (forall k :: k in r.vals <==> k in ratings.vals)
    ensures var r := NewRatings(ratings, m, award, t).value;
      forall k :: k in ratings.vals && k !in Flatten(m) ==> r.vals[k] == ratings.vals[k]
    ensures var r := NewRatings(ratings, m, award, t).value;
      var chance := Probabilities(Participants(ratings, m), t).value;
      forall k :: k in Flatten(m) ==>
        1 <= LastPos(m, k) && k in chance.vals && k in r.vals &&
        r.vals[k] == ratings.vals[k] + Times(Count(Flatten(m), |Flatten(m)|, k),
          Change(award, |Flatten(m)|, PosScore(m, LastPos(m, k)), chance.vals[k]))
  {
    var players := Flatten(m);
    OneParticipant(ratings, m);
    var i, j :| 0 <= i < |players| && 0 <= j < |players| && players[i] != players[j];
    assert players[i] != players[0] || players[j] != players[0];
    NewRatingsIsUpdated(ratings, m, award, t);
    var chance := Probabilities(Participants(ratings, m), t).value;
    UpdatedTotals(ratings, players, award, Scores(m), chance);
    ScoresAreLastPositions(m);
    forall k | k in ratings.vals && k !in players
      ensures Count(players, |players|, k) == 0
    {
      CountOfAbsent(players, |players|, k);
    }
  }

  /** A match with no groups changes nothing. */
  lemma EmptyMatchChangesNothing(ratings: Dict<real>, award: real, t: Term)
    requires ratings.Valid()
    ensures NewRatings(ratings, [], award, t) == Ok(ratings)
  {
    assert Flatten([]) == [];
    ProbabilitiesKeys(Participants(ratings, []), t);
  }

  // ----- A strict ranking redistributes points -----

  /** The sum of `vals` over the first i names of s. */
  ghost function Total(vals: map<string, real>, s: seq<string>, i: int): real
    requires 0 <= i <= |s| && forall k :: k in s ==> k in vals
  {
    if i == 0 then 0.0 else Total(vals, s, i - 1) + vals[s[i - 1]]
  }

  /** With one name per group, the players are the groups' names in order. */
  lemma {:induction false} SingletonPlayers(m: Match, p: int)
    requires forall g :: 0 <= g < |m| ==> |m[g]| == 1
    requires 0 <= p <= |m|
    ensures |PlayersTo(m, p, 0)| == p
    ensures forall j :: 0 <= j < p ==> PlayersTo(m, p, 0)[j] == m[j][0]
  {
    if p > 0 {
      SingletonPlayers(m, p - 1);
      assert PlayersTo(m, p, 0) == PlayersTo(m, p - 1, 0) + [m[p - 1][0]];
    }
  }

  /** When no name repeats, `player_ratings` lists the players in match order. */
  lemma {:induction false} RatingsToInOrder(ratings: Dict<real>, m: Match, p: int, q: int)
    requires ratings.Valid() && Cursor(m, p, q)
    requires Distinct(PlayersTo(m, p, q))
    requires forall k :: k in PlayersTo(m, p, q) ==> k in ratings.vals
    ensures RatingsTo(ratings, m, p, q).keys == PlayersTo(m, p, q)
    decreases p, q
  {
    if q > 0 {
      var name := m[p][q - 1];
      DistinctInit(PlayersTo(m, p, q - 1), name);
      RatingsToInOrder(ratings, m, p, q - 1);
      RatingsToContents(ratings, m, p, q - 1);
    } else if p > 0 {
      RatingsToInOrder(ratings, m, p - 1, |m[p - 1]|);
    }
  }

  /** A name at index j of a distinct list occurs once, at j. */
  lemma {:induction false} CountOfDistinct(s: seq<string>, i: int, j: int)
    requires Distinct(s) && 0 <= i <= |s| && 0 <= j < |s|
    ensures Count(s, i, s[j]) == if j < i then 1 else 0
  {
    if i > 0 {
      CountOfDistinct(s, i - 1, j);
      DistinctIndices(s);
    }
  }

  /** In a strict ranking every player's last (and only) group is their own. */
  lemma StrictLastPos(m: Match, j: int)
    requires forall g :: 0 <= g < |m| ==> |m[g]| == 1
    requires Distinct(Flatten(m))
    requires 0 <= j < |m|
    ensures LastPos(m, m[j][0]) == j + 1
  {
    var name := m[j][0];
    var pos := LastPos(m, name);
    assert name in m[j];
    assert pos > j;
    assert m[pos - 1][0] == name;
    SingletonPlayers(m, |m|);
    DistinctIndices(Flatten(m));
    assert Flatten(m)[pos - 1] == Flatten(m)[j];
  }

  lemma AddChange(tr: real, to: real, c: real, a: real, b: real, sc: real, ch: real, rv: real, ov: real)
    requires tr == to + c * (a - b) && rv == ov + c * (sc - ch)
    ensures tr + rv == (to + ov) + c * ((a + sc) - (b + ch))
  {
  }

  /** The sum of the first i entries of xs. */
  ghost function SumSeq(xs: seq<real>, i: int): real
    requires 0 <= i <= |xs|
  {
    if i == 0 then 0.0 else SumSeq(xs, i - 1) + xs[i - 1]
  }

  /** Adding each player's change adds the change for the score total and
      the chance total. */
  lemma {:induction false} TotalOfChanges(r: map<string, real>, old_: map<string, real>, chance: map<string, real>,
                                          s: seq<string>, sc: seq<real>, award: real, n: int, i: int)
    requires |s| == |sc| && 0 <= i <= |s|
    requires forall k :: k in s ==> k in r && k in old_ && k in chance
    requires forall j :: 0 <= j < |s| ==> r[s[j]] == old_[s[j]] + Change(award, n, sc[j], chance[s[j]])
    ensures Total(r, s, i) == Total(old_, s, i) + Change(award, n, SumSeq(sc, i), Total(chance, s, i))
  {
    if i > 0 {
      TotalOfChanges(r, old_, chance, s, sc, award, n, i - 1);
      var k := s[i - 1];
      var c := award * (n - 1) as real;
      AddChange(Total(r, s, i - 1), Total(old_, s, i - 1), c, SumSeq(sc, i - 1), Total(chance, s, i - 1),
                sc[i - 1], chance[k], r[k], old_[k]);
    }
  }

  /** The scores of positions 1 to i, as a sum of a sequence. */
  lemma {:induction false} PositionScoreSum(m: Match, sc: seq<real>, i: int)
    requires |m| >= 2 && |sc| == |m| && 0 <= i <= |m|
    requires forall j :: 0 <= j < |m| ==> sc[j] == PosScore(m, j + 1)
    ensures SumSeq(sc, i) == ScoreSum(|m|, ALPHA, i)
  {
    if i > 0 {
      PositionScoreSum(m, sc, i - 1);
      assert sc[i - 1] == PosScore(m, i);
    }
  }

  /** In a strict ranking each player moves by the change for their own position, once. */
  lemma StrictChanges(ratings: Dict<real>, m: Match, award: real, t: Term)
    requires ratings.Valid()
    requires |m| >= 2 && forall g :: 0 <= g < |m| ==> |m[g]| == 1
    requires Distinct(Flatten(m))
    requires forall k :: k in Flatten(m) ==> k in ratings.vals
    ensures |Flatten(m)| == |m|
    ensures NewRatings(ratings, m, award, t).Ok? && Probabilities(Participants(ratings, m), t).Ok?
    ensures var r := NewRatings(ratings, m, award, t).value;
      var chance := Probabilities(Participants(ratings, m), t).value;
      forall j :: 0 <= j < |m| ==>
        Flatten(m)[j] in r.vals && Flatten(m)[j] in chance.vals &&
        r.vals[Flatten(m)[j]] == ratings.vals[Flatten(m)[j]]
          + Change(award, |m|, PosScore(m, j + 1), chance.vals[Flatten(m)[j]])
  {
    var players := Flatten(m);
    SingletonPlayers(m, |m|);
    assert players[0] != players[1] by {
      DistinctIndices(players);
    }
    KnownPlayersUpdate(ratings, m, award, t);
    var r := NewRatings(ratings, m, award, t).value;
    var chance := Probabilities(Participants(ratings, m), t).value;
    forall j | 0 <= j < |m|
      ensures r.vals[players[j]] == ratings.vals[players[j]]
          + Change(award, |m|, PosScore(m, j + 1), chance.vals[players[j]])
    {
      var k := players[j];
      OwnPositionChange(m, j, award, ratings.vals[k], r.vals[k], chance.vals[k]);
    }
  }

  /** In a strict ranking the player at index j occurs once and scores
      position j + 1, so the per-occurrence change is applied exactly once. */
  lemma OwnPositionChange(m: Match, j: int, award: real, before: real, after: real, chance: real)
    requires forall g :: 0 <= g < |m| ==> |m[g]| == 1
    requires Distinct(Flatten(m)) && |Flatten(m)| == |m| && 0 <= j < |m|
    requires after == before + Times(Count(Flatten(m), |Flatten(m)|, Flatten(m)[j]),
      Change(award, |Flatten(m)|, PosScore(m, LastPos(m, Flatten(m)[j])), chance))
    ensures after == before + Change(award, |m|, PosScore(m, j + 1), chance)
  {
    var players := Flatten(m);
    SingletonPlayers(m, |m|);
    CountOfDistinct(players, |players|, j);
    StrictLastPos(m, j);
    var x := Change(award, |players|, PosScore(m, LastPos(m, players[j])), chance);
    assert Times(1, x) == x;
  }

  lemma {:induction false} TotalIsSumValues(d: Dict<real>, i: int)
    requires d.Valid() && 0 <= i <= |d.keys|
    ensures forall k :: k in d.keys ==> k in d.vals
    ensures Total(d.vals, d.keys, i) == SumValues(d, i)
  {
    if i > 0 {
      TotalIsSumValues(d, i - 1);
    }
  }

  /** Changes for positions 1 to n against chances adding up to 1 leave the
      total of the ratings as it was. */
  lemma StrictTotals(r: map<string, real>, old_: map<string, real>, chance: map<string, real>,
                     m: Match, players: seq<string>, award: real)
    requires |m| >= 2 && |players| == |m|
    requires forall k :: k in players ==> k in r && k in old_ && k in chance
    requires forall j :: 0 <= j < |m| ==>
      r[players[j]] == old_[players[j]] + Change(award, |m|, PosScore(m, j + 1), chance[players[j]])
    requires Total(chance, players, |m|) == 1.0
    ensures Total(r, players, |m|) == Total(old_, players, |m|)
  {
    var sc := seq(|m|, j requires 0 <= j < |m| => PosScore(m, j + 1));
    TotalOfChanges(r, old_, chance, players, sc, award, |m|, |m|);
    PositionScoreSum(m, sc, |m|);
    ScoresSumToOne(|m|, ALPHA);
    assert Change(award, |m|, SumSeq(sc, |m|), Total(chance, players, |m|)) == Change(award, |m|, 1.0, 1.0) == 0.0;
  }

  /** When the groups are single distinct players, at least two, and the
      pairwise term is complementary, the update moves points between the
      players without creating or destroying any: their ratings add up to
      the same total before and after. */
  lemma StrictRankingIsZeroSum(ratings: Dict<real>, m: Match, award: real, t: Term)
    requires ratings.Valid() && Complementary(t)
    requires |m| >= 2 && forall g :: 0 <= g < |m| ==> |m[g]| == 1
    requires Distinct(Flatten(m))
    requires forall k :: k in Flatten(m) ==> k in ratings.vals
    ensures NewRatings(ratings, m, award, t).Ok?
    ensures |Flatten(m)| == |m|
    ensures forall k :: k in Flatten(m) ==> k in NewRatings(ratings, m, award, t).value.vals
    ensures Total(NewRatings(ratings, m, award, t).value.vals, Flatten(m), |m|)
      == Total(ratings.vals, Flatten(m), |m|)
  {
    StrictChanges(ratings, m, award, t);
    ChancesSumToOne(ratings, m, t);
    var r := NewRatings(ratings, m, award, t).value;
    var chance := Probabilities(Participants(ratings, m), t).value;
    StrictTotals(r.vals, ratings.vals, chance.vals, m, Flatten(m), award);
  }

  /** In a strict ranking the winning chances of the players add up to 1. */
  lemma ChancesSumToOne(ratings: Dict<real>, m: Match, t: Term)
    requires ratings.Valid() && Complementary(t)
    requires |m| >= 2 && forall g :: 0 <= g < |m| ==> |m[g]| == 1
    requires Distinct(Flatten(m))
    requires forall k :: k in Flatten(m) ==> k in ratings.vals
    ensures |Flatten(m)| == |m|
    ensures Probabilities(Participants(ratings, m), t).Ok?
    ensures var chance := Probabilities(Participants(ratings, m), t).value;
      (forall k :: k in Flatten(m) ==> k in chance.vals) &&
      Total(chance.vals, Flatten(m), |m|) == 1.0
  {
    var part := Participants(ratings, m);
    SingletonPlayers(m, |m|);
    RatingsToInOrder(ratings, m, |m|, 0);
    ProbabilitiesKeys(part, t);
    var chance := Probabilities(part, t).value;
    TotalIsSumValues(chance, |m|);
    ProbabilitiesSumToOne(part, t);
  }

  // ----- Two players of equal rating -----

  /** The ratings of two different players, both rated x. */
  function EvenPair(a: string, b: string, x: real): (d: Dict<real>)
    requires a != b
    ensures d.Valid() && d.keys == [a, b] && d.vals.Keys == {a, b}
  {
    assert Differ([a, b], 0, 1);
    Dict([a, b], map[a := x, b := x])
  }

  /** a beats b: the players are a then b, no name repeated. */
  lemma BeatsPlayers(a: string, b: string)
    requires a != b
    ensures Flatten([[a], [b]]) == [a, b] && Distinct(Flatten([[a], [b]]))
  {
    var m: Match := [[a], [b]];
    SingletonPlayers(m, |m|);
    assert Differ(Flatten(m), 0, 1);
  }

  /** Two players of equal rating each have a winning chance of 0.5. */
  lemma EvenPairChances(a: string, b: string, x: real, t: Term)
    requires a != b && Complementary(t)
    ensures Probabilities(Participants(EvenPair(a, b, x), [[a], [b]]), t).Ok?
    ensures var chance := Probabilities(Participants(EvenPair(a, b, x), [[a], [b]]), t).value;
      a in chance.vals && b in chance.vals && chance.vals[a] == 0.5 && chance.vals[b] == 0.5
  {
    var ratings, m := EvenPair(a, b, x), [[a], [b]];
    BeatsPlayers(a, b);
    var part := Participants(ratings, m);
    RatingsToInOrder(ratings, m, |m|, 0);
    ParticipantsContents(ratings, m);
    assert part.keys == [a, b];
    EqualRatingsShareEvenly(part, t, 0);
    EqualRatingsShareEvenly(part, t, 1);
  }

  /** Each of two players of equal rating, a beating b, moves by the
      change for their own position against a chance of 0.5. */
  lemma EvenPairChanges(a: string, b: string, x: real, award: real, t: Term)
    requires a != b && Complementary(t)
    ensures NewRatings(EvenPair(a, b, x), [[a], [b]], award, t).Ok?
    ensures var r := NewRatings(EvenPair(a, b, x), [[a], [b]], award, t).value;
      r.keys == [a, b] && r.vals.Keys == {a, b} &&
      r.vals[a] == x + Change(award, 2, PosScore([[a], [b]], 1), 0.5) &&
      r.vals[b] == x + Change(award, 2, PosScore([[a], [b]], 2), 0.5)
  {
    BeatsPlayers(a, b);
    StrictChanges(EvenPair(a, b, x), [[a], [b]], award, t);
    EvenPairChances(a, b, x, t);
  }

  /** Two players of the same rating x, a beating b: a gains half the
      award and b loses as much. */
  lemma EvenPairMatch(a: string, b: string, x: real, award: real, t: Term)
    requires a != b && Complementary(t)
    ensures NewRatings(EvenPair(a, b, x), [[a], [b]], award, t).Ok?
    ensures NewRatings(EvenPair(a, b, x), [[a], [b]], award, t).value
      == Dict([a, b], map[a := x + award / 2.0, b := x - award / 2.0])
  {
    EvenPairChanges(a, b, x, award, t);
    TwoPositionScores([[a], [b]]);
    HalfAward(award, NewRatings(EvenPair(a, b, x), [[a], [b]], award, t).value, a, b, x,
      PosScore([[a], [b]], 1), PosScore([[a], [b]], 2));
  }

  /** With the default award K, two players rated 1500 end at 1525 and 1475. */
  lemma DefaultAwardMatch(a: string, b: string, t: Term)
    requires a != b && Complementary(t)
    ensures NewRatings(EvenPair(a, b, 1500.0), [[a], [b]], K, t).Ok?
    ensures NewRatings(EvenPair(a, b, 1500.0), [[a], [b]], K, t).value
      == Dict([a, b], map[a := 1525.0, b := 1475.0])
  {
    EvenPairMatch(a, b, 1500.0, K, t);
    assert 1500.0 + K / 2.0 == 1525.0 && 1500.0 - K / 2.0 == 1475.0;
  }

  /** The winner of a two-group match scores 1, the loser 0. */
  lemma TwoPositionScores(m: Match)
    requires |m| == 2
    ensures PosScore(m, 1) == 1.0 && PosScore(m, 2) == 0.0
  {
    TopOfTwoScoresOne(ALPHA);
    LastPositionScoresZero(2, ALPHA);
  }

  /** Against a chance of 0.5 in a two-player match, a win gains half the
      award and a loss costs as much. */
  lemma HalfAward(award: real, r: Dict<real>, a: string, b: string, x: real, s1: real, s2: real)
    requires r.keys == [a, b] && r.vals.Keys == {a, b} && a != b
    requires s1 == 1.0 && s2 == 0.0
    requires r.vals[a] == x + Change(award, 2, s1, 0.5) && r.vals[b] == x + Change(award, 2, s2, 0.5)
    ensures r == Dict([a, b], map[a := x + award / 2.0, b := x - award / 2.0])
  {
    assert Change(award, 2, s1, 0.5) == award / 2.0;
    assert Change(award, 2, s2, 0.5) == -(award / 2.0);
    assert r.vals == map[a := x + award / 2.0, b := x - award / 2.0];
  }
}
