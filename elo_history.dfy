/** `History`, the object that records every player's rating after each
    match, and the `main` loop that feeds it one match at a time. */
module EloHistory {
  import opened Outcomes
  import opened Ordered
  import opened EloProbability
  import opened EloUpdate

  /** The lowest rating `reset_ratings` lets a player keep. */
  const FLOOR: real := 1400.0

  /** `max(1400, v)` */
  function Floor(v: real): real
  {
    if v < FLOOR then FLOOR else v
  }

  /** `reset_ratings`: the same players in the same order, each rating
      raised to the floor if it is below it. */
  function ResetRatings(d: Dict<real>): (r: Dict<real>)
    requires d.Valid()
    ensures r.Valid() && r.keys == d.keys
    ensures forall k :: k in r.vals <==> k in d.vals
    ensures forall k :: k in d.vals ==> r.vals[k] >= FLOOR && r.vals[k] >= d.vals[k]
    ensures forall k :: k in d.vals && d.vals[k] >= FLOOR ==> r.vals[k] == d.vals[k]
    ensures forall k :: k in d.vals && d.vals[k] < FLOOR ==> r.vals[k] == FLOOR
  {
    Dict(d.keys, map k | k in d.vals :: Floor(d.vals[k]))
  }

  /** Resetting a second time changes nothing. */
  lemma ResetIdempotent(d: Dict<real>)
    requires d.Valid()
    ensures ResetRatings(ResetRatings(d)) == ResetRatings(d)
  {
    var once := ResetRatings(d);
    assert ResetRatings(once).vals == once.vals;
  }

  /** `h[k]` of the `defaultdict(list)`: the list of k, empty if k is new. */
  function Entries(h: Dict<seq<real>>, k: string): seq<real>
  {
    if k in h.vals then h.vals[k] else []
  }

  /** The loop of `update_history` after the first i players of `d`: each of
      them has had its rating appended to its list. */
  function AppendedTo(h: Dict<seq<real>>, d: Dict<real>, i: int): (r: Dict<seq<real>>)
    requires h.Valid() && d.Valid() && 0 <= i <= |d.keys|
    ensures r.Valid()
  {
    if i == 0 then h
    else
      var prev := AppendedTo(h, d, i - 1);
      var k := d.keys[i - 1];
      prev.Set(k, Entries(prev, k) + [d.vals[k]])
  }

  /** `update_history` applied to the list dictionary h with ratings d. */
  function Appended(h: Dict<seq<real>>, d: Dict<real>): (r: Dict<seq<real>>)
    requires h.Valid() && d.Valid()
    ensures r.Valid()
  {
    AppendedTo(h, d, |d.keys|)
  }

  /** After the first i players: a key is present when it was before or is
      one of them; each of them has exactly one more entry, its rating, and
      every other list is as it was. */
  lemma {:induction false} AppendedToContents(h: Dict<seq<real>>, d: Dict<real>, i: int)
    requires h.Valid() && d.Valid() && 0 <= i <= |d.keys|
    ensures forall k :: k in AppendedTo(h, d, i).vals <==> k in h.vals || k in d.keys[..i]
    ensures forall k :: k in d.keys[..i] ==> AppendedTo(h, d, i).vals[k] == Entries(h, k) + [d.vals[k]]
    ensures forall k :: k in h.vals && k !in d.keys[..i] ==> AppendedTo(h, d, i).vals[k] == h.vals[k]
  {
    if i > 0 {
      AppendedToContents(h, d, i - 1);
      var k := d.keys[i - 1];
      assert d.keys[..i] == d.keys[..i - 1] + [k];
      assert k !in d.keys[..i - 1] by {
        DistinctPrefix(d.keys, i);
        DistinctInit(d.keys[..i - 1], k);
      }
    }
  }

  /** One more player of d: its rating is appended to its list. */
  lemma AppendedToStep(h: Dict<seq<real>>, d: Dict<real>, i: int)
    requires h.Valid() && d.Valid() && 0 <= i < |d.keys|
    ensures d.keys[i] in d.vals
    ensures AppendedTo(h, d, i + 1) ==
      AppendedTo(h, d, i).Set(d.keys[i], Entries(AppendedTo(h, d, i), d.keys[i]) + [d.vals[d.keys[i]]])
  {
  }

  /** A prefix of a distinct list is distinct. */
  lemma DistinctPrefix(s: seq<string>, i: int)
    requires Distinct(s) && 0 <= i <= |s|
    ensures Distinct(s[..i])
  {
    forall a, b | 0 <= a < b < i
      ensures Differ(s[..i], a, b)
    {
      assert Differ(s, a, b);
    }
  }

  /** `update_history`: every player of d gets its rating appended to its
      list (a new player's list starts empty); the lists of players not in
      d stay as they were, and no other key appears. */
  lemma AppendedContents(h: Dict<seq<real>>, d: Dict<real>)
    requires h.Valid() && d.Valid()
    ensures forall k :: k in Appended(h, d).vals <==> k in h.vals || k in d.vals
    ensures forall k :: k in d.vals ==> Appended(h, d).vals[k] == Entries(h, k) + [d.vals[k]]
    ensures forall k :: k in h.vals && k !in d.vals ==> Appended(h, d).vals[k] == h.vals[k]
  {
    AppendedToContents(h, d, |d.keys|);
    assert d.keys[..|d.keys|] == d.keys;
  }

  /** The object behind `history`: the current ratings and, per player, the
      list of its recorded ratings. */
  class History {
    /** `_ratings`, the dictionary the `ratings` property returns. */
    var ratings: Dict<real>
    /** `history`, a `defaultdict(list)` kept in insertion order. */
    var history: Dict<seq<real>>

    ghost predicate Valid()
      reads this
    {
      ratings.Valid() && history.Valid()
    }

    /** `History(init_ratings)`: stores the ratings as given, unclamped, and
        records them as every player's first entry. */
    constructor(init: Dict<real>)
      requires init.Valid()
      ensures Valid()
      ensures ratings == init && history == Appended(Empty(), init)
    {
      ratings := init;
      history := Empty();
      new;
      UpdateHistory();
    }

    /** `update_history`: appends every current rating to its player's list. */
    method UpdateHistory()
      requires Valid()
      modifies this
      ensures Valid()
      ensures ratings == old(ratings) && history == Appended(old(history), ratings)
    {
      var keys := ratings.keys;
      for i := 0 to |keys|
        invariant Valid() && ratings == old(ratings)
        invariant history == AppendedTo(old(history), ratings, i)
      {
        var k := keys[i];
        AppendedToStep(old(history), ratings, i);
        var v := ratings.vals[k];
        var list := if k in history.vals then history.vals[k] else [];
        history := history.Set(k, list + [v]);
      }
    }

    /** The `ratings` setter: keeps the clamped copy and records it. */
    method SetRatings(r: Dict<real>)
      requires Valid() && r.Valid()
      modifies this
      ensures Valid()
      ensures ratings == ResetRatings(r) && history == Appended(old(history), ResetRatings(r))
    {
      ratings := ResetRatings(r);
      UpdateHistory();
    }
  }

  /** The setter never records a rating below the floor, and the rating it
      records for a player who was already at or above it is the given one. */
  lemma SetterRecordsFloored(h: Dict<seq<real>>, r: Dict<real>)
    requires h.Valid() && r.Valid()
    ensures forall k :: k in r.vals ==>
      k in Appended(h, ResetRatings(r)).vals &&
      var list := Appended(h, ResetRatings(r)).vals[k];
      |list| == |Entries(h, k)| + 1 && list[|list| - 1] >= FLOOR
        && (r.vals[k] >= FLOOR ==> list[|list| - 1] == r.vals[k])
  {
    AppendedContents(h, ResetRatings(r));
  }

  /** After n matches: the players of `init` and no one else hold lists of
      n + 1 entries, the first their initial rating and every later one at
      or above the floor. */
  ghost predicate Shaped(h: Dict<seq<real>>, init: Dict<real>, n: nat)
  {
    (forall k :: k in h.vals <==> k in init.vals) &&
    forall k :: k in init.vals ==>
      |h.vals[k]| == n + 1 && h.vals[k][0] == init.vals[k] &&
      forall j :: 1 <= j <= n ==> h.vals[k][j] >= FLOOR
  }

  /** The setter keeps that shape, one entry longer, and its new entries
      are the clamped ratings it was given. */
  lemma ShapedStep(h: Dict<seq<real>>, init: Dict<real>, n: nat, cur: Dict<real>)
    requires h.Valid() && cur.Valid() && Shaped(h, init, n)
    requires cur.vals.Keys == init.vals.Keys
    ensures Shaped(Appended(h, ResetRatings(cur)), init, n + 1)
    ensures forall k :: k in init.vals ==> Appended(h, ResetRatings(cur)).vals[k][n + 1] == ResetRatings(cur).vals[k]
  {
    AppendedContents(h, ResetRatings(cur));
    var h' := Appended(h, ResetRatings(cur));
    forall k | k in init.vals
      ensures |h'.vals[k]| == n + 2 && h'.vals[k][0] == init.vals[k]
      ensures forall j :: 1 <= j <= n + 1 ==> h'.vals[k][j] >= FLOOR
      ensures h'.vals[k][n + 1] == ResetRatings(cur).vals[k]
    {
      assert k in cur.vals;
      assert h'.vals[k] == h.vals[k] + [ResetRatings(cur).vals[k]];
    }
  }

  // ----- The driver `main` -----

  /** One pass of `main`'s loop turns the current ratings and a match into
      new ratings or an exception. */
  type Step = (Dict<real>, Match) --> Result<Dict<real>>

  /** The step is defined on every valid dictionary and returns a valid one
      rating the same players. */
  ghost predicate KeepsPlayers(step: Step)
  {
    forall d: Dict<real>, m: Match {:trigger step.requires(d, m)} :: d.Valid() ==>
      step.requires(d, m) &&
      (step(d, m).Ok? ==> step(d, m).value.Valid() && step(d, m).value.vals.Keys == d.vals.Keys)
  }

  /** The step of `main`: `calculate_new_ratings` with the given award. */
  function RatingStep(award: real, t: Term): (step: Step)
    ensures KeepsPlayers(step)
    ensures forall d: Dict<real>, m: Match :: d.Valid() ==> step(d, m) == NewRatings(d, m, award, t)
  {
    (d: Dict<real>, m: Match) requires d.Valid() => NewRatings(d, m, award, t)
  }

  /** The current (unclamped) ratings once `curs` lists the results of the
      matches played so far. */
  function Current(init: Dict<real>, curs: seq<Dict<real>>): Dict<real>
  {
    if curs == [] then init else curs[|curs| - 1]
  }

  /** Every dictionary of `curs` is valid and rates the players of init. */
  ghost predicate SameKeys(init: Dict<real>, curs: seq<Dict<real>>)
  {
    forall j :: 0 <= j < |curs| ==> curs[j].Valid() && curs[j].vals.Keys == init.vals.Keys
  }

  /** The dictionaries the step returns for the first i matches, each match
      starting from the result of the one before, or the exception that
      stopped the loop. */
  function Trace(init: Dict<real>, ms: seq<Match>, step: Step, i: int): (r: Result<seq<Dict<real>>>)
    requires init.Valid() && KeepsPlayers(step) && 0 <= i <= |ms|
    ensures r.Ok? ==> |r.value| == i && SameKeys(init, r.value)
  {
    if i == 0 then Ok([])
    else
      match Trace(init, ms, step, i - 1)
      case Err(e) => Err(e)
      case Ok(curs) =>
        var cur := Current(init, curs);
        assert cur.Valid() && step.requires(cur, ms[i - 1]);
        match step(cur, ms[i - 1])
        case Err(e) => Err(e)
        case Ok(next) => Ok(curs + [next])
  }

  /** Each match is rated from the unclamped result of the one before it,
      never from the clamped copy the setter keeps. */
  lemma {:induction false} TraceFeedsUnclamped(init: Dict<real>, ms: seq<Match>, step: Step, i: int)
    requires init.Valid() && KeepsPlayers(step) && 0 <= i <= |ms|
    requires Trace(init, ms, step, i).Ok?
    ensures forall j :: 0 <= j < i ==>
      Current(init, Trace(init, ms, step, i).value[..j]).Valid() &&
      step(Current(init, Trace(init, ms, step, i).value[..j]), ms[j])
        == Ok(Trace(init, ms, step, i).value[j])
  {
    if i > 0 {
      var prev := Trace(init, ms, step, i - 1);
      assert prev.Ok?;
      TraceFeedsUnclamped(init, ms, step, i - 1);
      var curs := Trace(init, ms, step, i).value;
      assert curs == prev.value + [curs[i - 1]];
      forall j | 0 <= j < i
        ensures curs[..j] == if j < i - 1 then prev.value[..j] else prev.value
        ensures j < i - 1 ==> curs[j] == prev.value[j]
      {
      }
    }
  }

  /** The lists `history` holds once the setter has been given every
      dictionary of `curs` in turn. */
  function HistoryOf(init: Dict<real>, curs: seq<Dict<real>>): (h: Dict<seq<real>>)
    requires init.Valid() && SameKeys(init, curs)
    ensures h.Valid()
  {
    if curs == [] then Appended(Empty(), init)
    else Appended(HistoryOf(init, curs[..|curs| - 1]), ResetRatings(curs[|curs| - 1]))
  }

  /** Every player of the initial ratings, and no one else, has one entry
      per match plus the first; the first entry is its initial rating, every
      later one is at or above the floor, and the last is the clamped
      current rating. */
  lemma {:induction false} HistoryShape(init: Dict<real>, curs: seq<Dict<real>>)
    requires init.Valid() && SameKeys(init, curs)
    ensures Shaped(HistoryOf(init, curs), init, |curs|)
    ensures curs != [] ==> forall k :: k in init.vals ==>
      HistoryOf(init, curs).vals[k][|curs|] == ResetRatings(curs[|curs| - 1]).vals[k]
  {
    if curs == [] {
      AppendedContents(Empty(), init);
    } else {
      var before := curs[..|curs| - 1];
      HistoryShape(init, before);
      ShapedStep(HistoryOf(init, before), init, |before|, curs[|curs| - 1]);
    }
  }

  /** What `main` leaves in `history` to be plotted, or the exception that
      ended its loop. */
  function Recorded(init: Dict<real>, ms: seq<Match>, step: Step): (r: Result<Dict<seq<real>>>)
    requires init.Valid() && KeepsPlayers(step)
  {
    match Trace(init, ms, step, |ms|)
    case Err(e) => Err(e)
    case Ok(curs) => Ok(HistoryOf(init, curs))
  }

  /** An exception ends the loop: the result stays that exception. */
  lemma {:induction false} ErrorStops(init: Dict<real>, ms: seq<Match>, step: Step, i: int, j: int)
    requires init.Valid() && KeepsPlayers(step) && 0 <= i <= j <= |ms|
    requires Trace(init, ms, step, i).Err?
    ensures Trace(init, ms, step, j) == Trace(init, ms, step, i)
  {
    if j > i {
      ErrorStops(init, ms, step, i, j - 1);
    }
  }

  /** The state of `main`'s loop after i matches: `curs` lists the results
      so far, `cur` is the last of them (the unclamped ratings the next
      match starts from), and the history is the one those results leave. */
  ghost predicate Replaying(init: Dict<real>, ms: seq<Match>, step: Step, i: int, curs: seq<Dict<real>>, cur: Dict<real>, h: Dict<seq<real>>)
  {
    && init.Valid() && KeepsPlayers(step) && 0 <= i <= |ms|
    && Trace(init, ms, step, i) == Ok(curs)
    && cur == Current(init, curs) && cur.Valid()
    && h == HistoryOf(init, curs)
  }

  /** One more match: the trace grows by the step's result and the history
      by its clamped copy, or the step's exception is the end result. */
  lemma TraceStep(init: Dict<real>, ms: seq<Match>, step: Step, i: int, curs: seq<Dict<real>>, cur: Dict<real>, h: Dict<seq<real>>, next: Result<Dict<real>>)
    requires Replaying(init, ms, step, i, curs, cur, h) && i < |ms|
    requires step(cur, ms[i]) == next
    ensures next.Err? ==> Recorded(init, ms, step) == Err(next.error)
    ensures next.Ok? ==>
      && next.value.Valid()
      && Replaying(init, ms, step, i + 1, curs + [next.value], next.value, Appended(h, ResetRatings(next.value)))
  {
    if next.Err? {
      ErrorStops(init, ms, step, i + 1, |ms|);
    } else {
      var after := curs + [next.value];
      assert after[..|after| - 1] == curs;
    }
  }

  /** The loop has played every match: `history` is what `main` records. */
  lemma ReplayDone(init: Dict<real>, ms: seq<Match>, step: Step, curs: seq<Dict<real>>, cur: Dict<real>, h: Dict<seq<real>>)
    requires Replaying(init, ms, step, |ms|, curs, cur, h)
    ensures Recorded(init, ms, step) == Ok(h)
  {
  }

  /** One pass of `main`'s loop: `history.ratings =
      calculate_new_ratings(ratings, match)`. The setter runs only when the
      new ratings were computed; an exception leaves the history as it was. */
  method PlayMatch(hist: History, cur: Dict<real>, m: Match, award: real, t: Term) returns (next: Result<Dict<real>>)
    requires hist.Valid() && cur.Valid()
    modifies hist
    ensures next == RatingStep(award, t)(cur, m)
    ensures hist.Valid()
    ensures next.Ok? ==> hist.ratings == ResetRatings(next.value) && hist.history == Appended(old(hist.history), ResetRatings(next.value))
    ensures next.Err? ==> hist.ratings == old(hist.ratings) && hist.history == old(hist.history)
  {
    next := CalculateNewRatings(cur, m, award, t);
    if next.Ok? {
      hist.SetRatings(next.value);
    }
  }

  /** `main`: builds the history from the initial ratings, then for every
      match computes the new ratings from the unclamped current ones and
      hands them to the setter. Returns the lists that would be plotted, or
      the exception that ended the loop. */
  method Replay(init: Dict<real>, ms: seq<Match>, award: real, t: Term) returns (r: Result<Dict<seq<real>>>)
    requires init.Valid()
    ensures r == Recorded(init, ms, RatingStep(award, t))
  {
    ghost var step := RatingStep(award, t);
    var hist := new History(init);
    var cur := init;
    ghost var curs: seq<Dict<real>> := [];
    for i := 0 to |ms|
      invariant hist.Valid()
      invariant Replaying(init, ms, step, i, curs, cur, hist.history)
    {
      ghost var h := hist.history;
      var next := PlayMatch(hist, cur, ms[i], award, t);
      TraceStep(init, ms, step, i, curs, cur, h, next);
      if next.Err? {
        return Err(next.error);
      }
      cur := next.value;
      curs := curs + [cur];
    }
    ReplayDone(init, ms, step, curs, cur, hist.history);
    return Ok(hist.history);
  }

  /** After a run of `main` that raised nothing, the history has the shape
      `HistoryShape` describes, for as many matches as were played. */
  lemma RecordedShape(init: Dict<real>, ms: seq<Match>, step: Step)
    requires init.Valid() && KeepsPlayers(step) && Recorded(init, ms, step).Ok?
    ensures Shaped(Recorded(init, ms, step).value, init, |ms|)
  {
    HistoryShape(init, Trace(init, ms, step, |ms|).value);
  }
}
