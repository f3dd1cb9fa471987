/** `calculate_new_ratings`: the K-factor update of every player of one match. */
module EloUpdate {
  import opened Outcomes
  import opened Ordered
  import opened EloScore
  import opened EloProbability

  /** K, the default `award`. */
  const K: real := 50.0

  /** A match result: the position groups, best first
      (`[[A], [B, C], [D]]`: A first, B and C tied second, D last). */
  type Match = seq<seq<string>>

  /** (p, q) is a point the nested loops of `calculate_new_ratings` reach:
      before name q of group p, or past the last group. */
  predicate Cursor(m: Match, p: int, q: int)
  {
    (0 <= p < |m| && 0 <= q <= |m[p]|) || (p == |m| && q == 0)
  }

  /** The list `players` once the loops have visited the first p groups and
      the first q names of group p. */
  function PlayersTo(m: Match, p: int, q: int): seq<string>
    requires Cursor(m, p, q)
    decreases p, q
  {
    if q > 0 then PlayersTo(m, p, q - 1) + [m[p][q - 1]]
    else if p > 0 then PlayersTo(m, p - 1, |m[p - 1]|)
    else []
  }

  /** The list `players`: every name of every group, in the order of the loops. */
  function Flatten(m: Match): seq<string>
  {
    PlayersTo(m, |m|, 0)
  }

  lemma {:induction false} PlayersOfGroup(m: Match, p: int, q: int)
    requires 0 <= p < |m| && 0 <= q <= |m[p]|
    ensures PlayersTo(m, p, q) == PlayersTo(m, p, 0) + m[p][..q]
    decreases q
  {
    if q > 0 {
      PlayersOfGroup(m, p, q - 1);
      assert m[p][..q] == m[p][..q - 1] + [m[p][q - 1]];
    }
  }

  /** A name is among the players of the first p groups exactly when one of
      those groups holds it. */
  lemma {:induction false} InPlayersTo(m: Match, p: int, name: string)
    requires 0 <= p <= |m|
    ensures name in PlayersTo(m, p, 0) <==> exists g :: 0 <= g < p && name in m[g]
    decreases p
  {
    if p > 0 {
      InPlayersTo(m, p - 1, name);
      PlayersOfGroup(m, p - 1, |m[p - 1]|);
      assert m[p - 1][..|m[p - 1]|] == m[p - 1];
    }
  }

  /** The players seen at any point of the loops are the first players of the whole match. */
  lemma {:induction false} PlayersPrefix(m: Match, p: int, q: int)
    requires Cursor(m, p, q)
    ensures PlayersTo(m, p, q) <= Flatten(m)
    decreases |m| - p, if p < |m| then |m[p]| - q else 0
  {
    if p < |m| {
      if q < |m[p]| {
        PlayersPrefix(m, p, q + 1);
      } else {
        PlayersPrefix(m, p + 1, 0);
      }
    }
  }

  /** The 1-based position of the last of the first p groups holding `name`,
      or 0. Because `player_scores[name]` is overwritten on every occurrence,
      LastPosTo(m, |m|, name) is the position whose score a player ends up with. */
  function LastPosTo(m: Match, p: int, name: string): (pos: int)
    requires 0 <= p <= |m|
    ensures 0 <= pos <= p
    ensures pos == 0 <==> name !in PlayersTo(m, p, 0)
    ensures pos > 0 ==> name in m[pos - 1]
    ensures forall g :: pos <= g < p ==> name !in m[g]
    decreases p
  {
    InPlayersTo(m, p, name);
    if p == 0 then 0
    else if name in m[p - 1] then p
    else
      InPlayersTo(m, p - 1, name);
      LastPosTo(m, p - 1, name)
  }

  /** The position of the last group holding `name`, or 0. */
  function LastPos(m: Match, name: string): (pos: int)
  {
    LastPosTo(m, |m|, name)
  }

  /** `final_scores(pos, len(match))`, which cannot fail for a position of the match. */
  function PosScore(m: Match, pos: int): real
    requires 1 <= pos <= |m|
  {
    ScoreInUnitInterval(pos, |m|, ALPHA);
    FinalScores(pos, |m|, ALPHA).value
  }

  /** `player_scores` at point (p, q) of the first loop. */
  function ScoresTo(m: Match, p: int, q: int): map<string, real>
    requires Cursor(m, p, q)
    decreases p, q
  {
    if q > 0 then ScoresTo(m, p, q - 1)[m[p][q - 1] := PosScore(m, p + 1)]
    else if p > 0 then ScoresTo(m, p - 1, |m[p - 1]|)
    else map[]
  }

  /** `player_scores` after the first loop. */
  function Scores(m: Match): map<string, real>
  {
    ScoresTo(m, |m|, 0)
  }

  lemma {:induction false} ScoresOfGroup(m: Match, p: int, q: int)
    requires 0 <= p < |m| && 0 <= q <= |m[p]|
    ensures forall k :: k in ScoresTo(m, p, q) <==> k in ScoresTo(m, p, 0) || k in m[p][..q]
    ensures forall k :: k in ScoresTo(m, p, q) ==>
      ScoresTo(m, p, q)[k] == if k in m[p][..q] then PosScore(m, p + 1) else ScoresTo(m, p, 0)[k]
    decreases q
  {
    if q > 0 {
      ScoresOfGroup(m, p, q - 1);
      assert m[p][..q] == m[p][..q - 1] + [m[p][q - 1]];
    }
  }

  lemma {:induction false} ScoresToLastPos(m: Match, p: int)
    requires 0 <= p <= |m|
    ensures forall k :: k in ScoresTo(m, p, 0) <==> k in PlayersTo(m, p, 0)
    ensures forall k :: k in ScoresTo(m, p, 0) ==>
      1 <= LastPosTo(m, p, k) && ScoresTo(m, p, 0)[k] == PosScore(m, LastPosTo(m, p, k))
    decreases p
  {
    if p > 0 {
      ScoresToLastPos(m, p - 1);
      ScoresOfGroup(m, p - 1, |m[p - 1]|);
      PlayersOfGroup(m, p - 1, |m[p - 1]|);
      assert m[p - 1][..|m[p - 1]|] == m[p - 1];
    }
  }

  /** Every player ends up with the score of the last group holding them,
      and nobody else has a score. */
  lemma ScoresAreLastPositions(m: Match)
    ensures forall k :: k in Scores(m) <==> k in Flatten(m)
    ensures forall k :: k in Scores(m) ==> 1 <= LastPos(m, k) && Scores(m)[k] == PosScore(m, LastPos(m, k))
  {
    ScoresToLastPos(m, |m|);
  }

  /** The index of the first name that `ratings` lacks, or |s| if there is none. */
  function FirstMissing(s: seq<string>, vals: map<string, real>): (i: nat)
    ensures i <= |s|
    ensures forall j :: 0 <= j < i ==> s[j] in vals
    ensures i < |s| ==> s[i] !in vals
    decreases |s|
  {
    if |s| == 0 then 0
    else if s[0] !in vals then 0
    else 1 + FirstMissing(s[1..], vals)
  }

  /** A prefix whose names are all known but the last has that last name as
      its first unknown one. */
  lemma {:induction false} FirstMissingAt(s: seq<string>, vals: map<string, real>, pre: seq<string>)
    requires pre <= s && |pre| >= 1
    requires forall j :: 0 <= j < |pre| - 1 ==> pre[j] in vals
    requires pre[|pre| - 1] !in vals
    ensures FirstMissing(s, vals) == |pre| - 1
    decreases |pre|
  {
    assert s[0] == pre[0];
    if |pre| > 1 {
      FirstMissingAt(s[1..], vals, pre[1..]);
    }
  }

  /** `player_ratings` at point (p, q) of the first loop, for names that
      `ratings` holds (the loop raises at the first other name). */
  function RatingsTo(ratings: Dict<real>, m: Match, p: int, q: int): (d: Dict<real>)
    requires ratings.Valid() && Cursor(m, p, q)
    ensures d.Valid()
    decreases p, q
  {
    if q > 0 then
      var prev := RatingsTo(ratings, m, p, q - 1);
      var name := m[p][q - 1];
      if name in ratings.vals then prev.Set(name, ratings.vals[name]) else prev
    else if p > 0 then RatingsTo(ratings, m, p - 1, |m[p - 1]|)
    else Empty()
  }

  /** `player_ratings` after the first loop. */
  function Participants(ratings: Dict<real>, m: Match): (d: Dict<real>)
    requires ratings.Valid()
    ensures d.Valid()
  {
    RatingsTo(ratings, m, |m|, 0)
  }

  lemma {:induction false} RatingsToContents(ratings: Dict<real>, m: Match, p: int, q: int)
    requires ratings.Valid() && Cursor(m, p, q)
    ensures forall k :: k in RatingsTo(ratings, m, p, q).vals <==> k in PlayersTo(m, p, q) && k in ratings.vals
    ensures forall k :: k in RatingsTo(ratings, m, p, q).vals ==> RatingsTo(ratings, m, p, q).vals[k] == ratings.vals[k]
    decreases p, q
  {
    if q > 0 {
      RatingsToContents(ratings, m, p, q - 1);
    } else if p > 0 {
      RatingsToContents(ratings, m, p - 1, |m[p - 1]|);
    }
  }

  /** `player_ratings` holds the rating of every player and of nobody else. */
  lemma ParticipantsContents(ratings: Dict<real>, m: Match)
    requires ratings.Valid()
    requires forall k :: k in Flatten(m) ==> k in ratings.vals
    ensures forall k :: k in Participants(ratings, m).vals <==> k in Flatten(m)
    ensures forall k :: k in Participants(ratings, m).vals ==> Participants(ratings, m).vals[k] == ratings.vals[k]
  {
    RatingsToContents(ratings, m, |m|, 0);
  }

  /** How many of the first i names of s are k. */
  function Count(s: seq<string>, i: int, k: string): nat
    requires 0 <= i <= |s|
  {
    if i == 0 then 0 else Count(s, i - 1, k) + if s[i - 1] == k then 1 else 0
  }

  /** A name that s lacks occurs nowhere in it. */
  lemma {:induction false} CountOfAbsent(s: seq<string>, i: int, k: string)
    requires 0 <= i <= |s| && k !in s
    ensures Count(s, i, k) == 0
  {
    if i > 0 {
      CountOfAbsent(s, i - 1, k);
    }
  }

  /** One occurrence's change `award * (len(players) - 1) * (score - chance)`. */
  function Change(award: real, count: int, score: real, chance: real): real
  {
    award * (count - 1) as real * (score - chance)
  }

  /** `count` copies of `change` added up: the last loop adds a player's
      change once per occurrence. */
  function Times(count: nat, change: real): real
  {
    if count == 0 then 0.0 else Times(count - 1, change) + change
  }

  /** The change a player gets per occurrence: nothing for a non-participant. */
  function Gain(players: seq<string>, award: real, scores: map<string, real>, chance: Dict<real>, k: string): real
    requires forall n :: n in players ==> n in scores && n in chance.vals
  {
    if k in players then Change(award, |players|, scores[k], chance.vals[k]) else 0.0
  }

  /** `ratings` once the last loop has handled the first i entries of `players`. */
  function UpdatedTo(ratings: Dict<real>, players: seq<string>, i: int, award: real, scores: map<string, real>, chance: Dict<real>): (d: Dict<real>)
    requires ratings.Valid() && 0 <= i <= |players|
    requires forall n :: n in players ==> n in ratings.vals && n in scores && n in chance.vals
    ensures d.Valid() && d.keys == ratings.keys && d.vals.Keys == ratings.vals.Keys
  {
    if i == 0 then ratings
    else
      var prev := UpdatedTo(ratings, players, i - 1, award, scores, chance);
      var name := players[i - 1];
      prev.Set(name, prev.vals[name] + Change(award, |players|, scores[name], chance.vals[name]))
  }

  /** The ratings after the last loop. */
  function Updated(ratings: Dict<real>, players: seq<string>, award: real, scores: map<string, real>, chance: Dict<real>): (d: Dict<real>)
    requires ratings.Valid()
    requires forall n :: n in players ==> n in ratings.vals && n in scores && n in chance.vals
    ensures d.Valid() && d.keys == ratings.keys && d.vals.Keys == ratings.vals.Keys
  {
    UpdatedTo(ratings, players, |players|, award, scores, chance)
  }

  lemma {:induction false} UpdatedToTotal(ratings: Dict<real>, players: seq<string>, i: int, award: real, scores: map<string, real>, chance: Dict<real>, k: string)
    requires ratings.Valid() && 0 <= i <= |players|
    requires forall n :: n in players ==> n in ratings.vals && n in scores && n in chance.vals
    requires k in ratings.vals
    ensures UpdatedTo(ratings, players, i, award, scores, chance).vals[k]
      == ratings.vals[k] + Times(Count(players, i, k), Gain(players, award, scores, chance, k))
  {
    if i > 0 {
      UpdatedToTotal(ratings, players, i - 1, award, scores, chance, k);
      var c, g := Count(players, i - 1, k), Gain(players, award, scores, chance, k);
      if players[i - 1] == k {
        assert Count(players, i, k) == c + 1;
        assert Times(c + 1, g) == Times(c, g) + g;
      } else {
        assert Count(players, i, k) == c;
      }
    }
  }

  /** Every rating ends up increased by its player's change once per
      occurrence in `players`; the ratings of non-participants stay, and the
      keys keep their order. */
  lemma UpdatedTotals(ratings: Dict<real>, players: seq<string>, award: real, scores: map<string, real>, chance: Dict<real>)
    requires ratings.Valid()
    requires forall n :: n in players ==> n in ratings.vals && n in scores && n in chance.vals
    ensures Updated(ratings, players, award, scores, chance).keys == ratings.keys
    ensures forall k :: k in Updated(ratings, players, award, scores, chance).vals <==> k in ratings.vals
    ensures forall k :: k in ratings.vals ==>
      Updated(ratings, players, award, scores, chance).vals[k]
        == ratings.vals[k] + Times(Count(players, |players|, k), Gain(players, award, scores, chance, k))
  {
    forall k | k in ratings.vals
      ensures Updated(ratings, players, award, scores, chance).vals[k]
        == ratings.vals[k] + Times(Count(players, |players|, k), Gain(players, award, scores, chance, k))
    {
      UpdatedToTotal(ratings, players, |players|, award, scores, chance, k);
    }
  }

  /** What `calculate_new_ratings(ratings, match, award)` returns or raises. */
  function NewRatings(ratings: Dict<real>, m: Match, award: real, t: Term): (r: Result<Dict<real>>)
    requires ratings.Valid()
    ensures r.Ok? ==> r.value.Valid() && r.value.keys == ratings.keys && r.value.vals.Keys == ratings.vals.Keys
  {
    var players := Flatten(m);
    var miss := FirstMissing(players, ratings.vals);
    if miss < |players| then Err(KeyError(players[miss]))
    else
      var part := Participants(ratings, m);
      ParticipantsContents(ratings, m);
      ScoresAreLastPositions(m);
      ProbabilitiesKeys(part, t);
      assert forall j :: 0 <= j < |players| ==> players[j] in ratings.vals;
      match Probabilities(part, t)
      case Err(e) => Err(e)
      case Ok(chance) => Ok(Updated(ratings, players, award, Scores(m), chance))
  }

  /** `calculate_new_ratings(ratings, match, award)`: the first loop fills
      `players`, `player_scores` and `player_ratings` and raises at the first
      unknown name; the last loop adds each occurrence's change. The input
      is not changed; the dictionary it returns is the updated one. */
  method CalculateNewRatings(ratings: Dict<real>, m: Match, award: real, t: Term) returns (r: Result<Dict<real>>)
    requires ratings.Valid()
    ensures r == NewRatings(ratings, m, award, t)
  {
    var players, playerScores, playerRatings, missing := GatherPlayers(ratings, m);
    if missing.Some? {
      return Err(KeyError(missing.value));
    }
    var chanceR := WinningProbability(playerRatings, t);
    ProbabilitiesKeys(playerRatings, t);
    if chanceR.Err? {
      return Err(chanceR.error);
    }
    var chance := chanceR.value;
    ParticipantsContents(ratings, m);
    ScoresAreLastPositions(m);
    assert NewRatings(ratings, m, award, t) == Ok(Updated(ratings, players, award, playerScores, chance));
    var out := ApplyChanges(ratings, players, award, playerScores, chance);
    return Ok(out);
  }

  /** The first loop has reached (p, q) without meeting an unknown name. */
  ghost predicate Gathered(ratings: Dict<real>, m: Match, p: int, q: int,
                           players: seq<string>, playerScores: map<string, real>, playerRatings: Dict<real>)
  {
    && ratings.Valid() && Cursor(m, p, q)
    && players == PlayersTo(m, p, q)
    && (forall j :: 0 <= j < |players| ==> players[j] in ratings.vals)
    && playerScores == ScoresTo(m, p, q)
    && playerRatings == RatingsTo(ratings, m, p, q)
  }

  /** The first loop of `calculate_new_ratings`: walks the groups in order,
      appending each name to `players`, recording its position's score and
      copying its rating; stops with the first name `ratings` lacks (the
      KeyError of `ratings[name]`). */
  method GatherPlayers(ratings: Dict<real>, m: Match)
    returns (players: seq<string>, playerScores: map<string, real>, playerRatings: Dict<real>, missing: Option<string>)
    requires ratings.Valid()
    ensures missing.Some? <==> FirstMissing(Flatten(m), ratings.vals) < |Flatten(m)|
    ensures missing.Some? ==> missing.value == Flatten(m)[FirstMissing(Flatten(m), ratings.vals)]
    ensures missing.None? ==>
      && players == Flatten(m)
      && playerScores == Scores(m)
      && playerRatings == Participants(ratings, m)
  {
    players := [];
    playerScores := map[];
    playerRatings := Empty<real>();
    for p := 0 to |m|
      invariant Gathered(ratings, m, p, 0, players, playerScores, playerRatings)
    {
      var names := m[p];
      for q := 0 to |names|
        invariant Gathered(ratings, m, p, q, players, playerScores, playerRatings)
      {
        var name := names[q];
        if name !in ratings.vals {
          PlayersPrefix(m, p, q + 1);
          FirstUnknown(Flatten(m), ratings.vals, players, name);
          missing := Some(name);
          return;
        }
        GatheredStep(ratings, m, p, q, players, playerScores, playerRatings);
        players := players + [name];
        playerScores := playerScores[name := PosScore(m, p + 1)];
        playerRatings := playerRatings.Set(name, ratings.vals[name]);
      }
      GatheredGroup(ratings, m, p, players, playerScores, playerRatings);
    }
    GatheredAll(ratings, m, players, playerScores, playerRatings);
    missing := None;
  }

  /** A known name extends the three collections. */
  lemma GatheredStep(ratings: Dict<real>, m: Match, p: int, q: int,
                     players: seq<string>, playerScores: map<string, real>, playerRatings: Dict<real>)
    requires Gathered(ratings, m, p, q, players, playerScores, playerRatings)
    requires p < |m| && q < |m[p]| && m[p][q] in ratings.vals
    ensures Gathered(ratings, m, p, q + 1, players + [m[p][q]],
      playerScores[m[p][q] := PosScore(m, p + 1)], playerRatings.Set(m[p][q], ratings.vals[m[p][q]]))
  {
  }

  /** When the names before `name` in s are known and `name` is not, it is
      the first unknown name of s. */
  lemma FirstUnknown(s: seq<string>, vals: map<string, real>, known: seq<string>, name: string)
    requires known + [name] <= s
    requires forall j :: 0 <= j < |known| ==> known[j] in vals
    requires name !in vals
    ensures FirstMissing(s, vals) == |known| && s[|known|] == name
  {
    var pre := known + [name];
    assert forall j :: 0 <= j < |pre| - 1 ==> pre[j] == known[j];
    FirstMissingAt(s, vals, pre);
    assert s[|known|] == pre[|known|];
  }

  /** The end of group p is the start of group p + 1. */
  lemma GatheredGroup(ratings: Dict<real>, m: Match, p: int,
                      players: seq<string>, playerScores: map<string, real>, playerRatings: Dict<real>)
    requires 0 <= p < |m| && Gathered(ratings, m, p, |m[p]|, players, playerScores, playerRatings)
    ensures Gathered(ratings, m, p + 1, 0, players, playerScores, playerRatings)
  {
  }

  /** After the last group every name was known. */
  lemma GatheredAll(ratings: Dict<real>, m: Match,
                    players: seq<string>, playerScores: map<string, real>, playerRatings: Dict<real>)
    requires Gathered(ratings, m, |m|, 0, players, playerScores, playerRatings)
    ensures FirstMissing(Flatten(m), ratings.vals) == |Flatten(m)|
    ensures players == Flatten(m) && playerScores == Scores(m) && playerRatings == Participants(ratings, m)
  {
    assert FirstMissing(players, ratings.vals) == |players|;
  }

  /** The last loop of `calculate_new_ratings`: adds each occurrence's change
      to (a copy of) `ratings`. */
  method ApplyChanges(ratings: Dict<real>, players: seq<string>, award: real, scores: map<string, real>, chance: Dict<real>)
    returns (out: Dict<real>)
    requires ratings.Valid()
    requires forall k :: k in players ==> k in ratings.vals && k in scores && k in chance.vals
    ensures out == Updated(ratings, players, award, scores, chance)
  {
    out := ratings;
    for i := 0 to |players|
      invariant out == UpdatedTo(ratings, players, i, award, scores, chance)
    {
      var name := players[i];
      out := out.Set(name, out.vals[name] + Change(award, |players|, scores[name], chance.vals[name]));
    }
  }
}
