# Multiplayer Elo ratings and "Hey, That's My Fish!" maps, in Dafny

This project models two small Python programs and proves what they compute.

**The rating engine of `elo-calculator`.** This is a generalised Elo system for matches with more than two players.
- A match is a list of position groups, best first.
- `final_scores` turns a finishing position into a score in [0, 1].
- `winning_probability` gives every player a share of the expected pairwise wins. With two or more players and a complementary term (`t(a, b) + t(b, a) == 1`, which the float logistic term meets only approximately) the shares add up to 1. No players give `{}`; one player raises ZeroDivisionError.
- `calculate_new_ratings` moves each player by `award * (len(players) - 1) * (score - chance)` once per occurrence in the match: a name listed twice moves twice.
- `History` keeps the current ratings and every player's list of recorded ratings. Its `ratings` setter raises every rating to at least 1400 before recording it.
- `main` feeds the matches to the history one at a time.

**The map generator of `hey-thats-my-fish`.** `MapObject` builds a board for the game.
- The board is a rectangle, a triangle or a diamond of hexagonal tiles.
- It first draws how many tiles carry 0 to 5 fish (`_generate_pts`).
- A shuffled list of those fish counts is then popped, one count per tile inside the shape, in row-major order.

Modules:

- `Outcomes`: `Option`, `Result` and the Python exceptions the code can raise: ZeroDivisionError, KeyError, IndexError and TypeError.
- `Ordered`: Python's insertion-ordered dictionaries with string keys, as `Dict<V>`: a key list plus a map.
- `Quotients`: facts about dividing reals, shared by the score and probability proofs.
- `EloScore`: `final_scores`, exact on integers.
- `EloProbability`: `winning_probability`. The logistic term `1 / (1 + 10 ** ((r2 - r1) / diff))` is a parameter `t`. Where a property needs it, `t` must satisfy `t(a, b) + t(b, a) == 1`.
- `EloUpdate`: `calculate_new_ratings`. Specification functions describe every point of each loop, and the methods fill `players`, `player_scores` and `player_ratings` and apply the changes.
- `EloUpdateFacts`: what the update promises:
  - which inputs raise;
  - who moves, and by how much;
  - a strict ranking is zero-sum;
  - two equally rated players move by half the award.
- `EloHistory`: the `History` class, `reset_ratings`, and the `main` loop.
- `FishPoints`: `_generate_pts`: the six counts, the unshuffled list, and the shuffle.
- `FishBoard`: the shapes, the cells inside each, and the nested loops of the three generators as a walk over the grid.
- `FishMap`: `tiles_cnt`, the generators as methods, and the `MapObject` class with its constructor's dispatch on the type.

Four behaviours of the rating engine's code that are easy to misread, and how the model follows them:
- **The winner's score.** For alpha >= 2 (the code's `ALPHA = 4`), the code's `final_scores(1, T)` is 1 only for T = 2. For three or more positions the winner's summand is only part of the denominator, so the score is below 1 (`EloScore.TopOfManyScoresBelowOne`).
- **The initial ratings.** `History.__init__` stores and records the initial ratings without clamping them (`EloHistory.History.constructor`).
- **Where each match starts.** `main` passes the module-level `ratings` dictionary to `calculate_new_ratings`, which updates it in place. So each match starts from the unclamped result of the previous one, not from the clamped copy the setter keeps (`EloHistory.TraceFeedsUnclamped`).
- **No position check.** The code does not reject a position outside `1..no_pos`: such a position gives whatever the formula gives, or ZeroDivisionError for `0 ** -k`.

## Model

| member | source | states |
|---|---|---|
| EloScore.PyPow | elo-calculator/elo_calculator.py:85 | definition: Python's `alpha ** e` on ints, an int for e >= 0, `1 / alpha ** -e` for e < 0, and ZeroDivisionError for `0 ** -k`; its use is proved in the rows below |
| EloScore.FinalScores | elo-calculator/elo_calculator.py:83-87 | definition: `final_scores`, 0.5 for a single position, otherwise the position's summand over the sum of all summands, with the exceptions as errors; the rows below state what it gives |
| EloScore.UndividedMatchScoresHalf | elo-calculator/elo_calculator.py:83-84 | a match with one position scores 0.5 whatever the position and alpha |
| EloScore.ScoreIsShare | elo-calculator/elo_calculator.py:85-87 | for two or more positions and alpha >= 2, the denominator is at least 1 and the score is the position's summand `alpha ** (no_pos - pos) - 1` divided by the sum of all summands |
| EloScore.DenPositive | elo-calculator/elo_calculator.py:86 | the denominator is positive once there are two positions and alpha >= 2 |
| EloScore.ScoreInUnitInterval | elo-calculator/elo_calculator.py:83-87 | for alpha >= 2 (the code's `ALPHA = 4`), every position from 1 to no_pos gets a score, which lies in [0, 1] |
| EloScore.LastPositionScoresZero | elo-calculator/elo_calculator.py:85-87 | for two or more positions and alpha >= 2 (the code's `ALPHA = 4`), the last position scores exactly 0 |
| EloScore.TopOfTwoScoresOne | elo-calculator/elo_calculator.py:85-87 | in a two-position match the winner scores exactly 1 (for alpha != 1) |
| EloScore.TopOfManyScoresBelowOne | elo-calculator/elo_calculator.py:85-87 | for alpha >= 2 (the code's `ALPHA = 4`), with three or more positions the winner scores strictly less than 1 |
| EloScore.ScoreStrictlyDecreasing | elo-calculator/elo_calculator.py:85-87 | for alpha >= 2 (the code's `ALPHA = 4`), of two positions from 1 to no_pos the better one scores strictly more |
| EloScore.DegenerateScoresDivideByZero | elo-calculator/elo_calculator.py:86-87 | alpha = 1 with two or more positions, or no positions at all, raises ZeroDivisionError whatever the position |
| EloScore.ScoresSumToOne | elo-calculator/elo_calculator.py:85-87 | for two or more positions and alpha >= 2 (the code's `ALPHA = 4`), the scores of positions 1 to no_pos add up to exactly 1 |
| EloProbability.Probabilities | elo-calculator/elo_calculator.py:56-66 | definition: the share dictionary over the players in order, or ZeroDivisionError when the pair count is 0 with a player to divide for; stated by `ProbabilitiesKeys`, `ProbabilitiesSumToOne`, `EqualRatingsShareEvenly` |
| EloProbability.ExpectedWins | elo-calculator/elo_calculator.py:58-63 | the inner loop's `num` is the sum of the player's terms against every other player, in dictionary order |
| EloProbability.PairsClosedForm | elo-calculator/elo_calculator.py:64 | `den = N * (N - 1) / 2` is the number of pairs; it is 0 exactly when N <= 1 and at least 1 otherwise |
| EloProbability.Probs | elo-calculator/elo_calculator.py:58-65 | after i players, `rv` holds exactly the first i players, in order, each with `num / den` |
| EloProbability.WinningProbability | elo-calculator/elo_calculator.py:56-66 | the method's result is the specification function `Probabilities`'s: the dictionary of shares, or ZeroDivisionError |
| EloProbability.ProbabilitiesKeys | elo-calculator/elo_calculator.py:56-66 | it raises ZeroDivisionError exactly for a single player; otherwise the result has the input's players in the input's order; no players gives `{}` |
| EloProbability.SelfTermIsHalf | elo-calculator/elo_calculator.py:63 | a complementary term gives 0.5 between equal ratings |
| EloProbability.ProbabilitiesSumToOne | elo-calculator/elo_calculator.py:56-66 | with two or more players and a complementary term, the probabilities add up to 1 |
| EloProbability.EqualRatingsShareEvenly | elo-calculator/elo_calculator.py:56-66 | with N >= 2 players and a complementary term, when all ratings are equal every player gets 1/N, so 0.5 each for two players (one player raises ZeroDivisionError instead) |
| EloUpdate.Flatten | elo-calculator/elo_calculator.py:106-108 | definition: `players`, the names of every group in match order, repeats kept |
| EloUpdate.Scores | elo-calculator/elo_calculator.py:106-109 | definition: `player_scores` after the first loop; stated by `ScoresAreLastPositions` |
| EloUpdate.Participants | elo-calculator/elo_calculator.py:106-110 | definition: `player_ratings` after the first loop; stated by `ParticipantsContents` |
| EloUpdate.Change | elo-calculator/elo_calculator.py:114-116 | definition: the change `award * (len(players) - 1) * (score - chance)` added per occurrence; stated by `UpdatedTotals` and `KnownPlayersUpdate` |
| EloUpdate.LastPosTo | elo-calculator/elo_calculator.py:106-109 | the position a player's score ends up from is the last of the visited groups that names them, 0 if none does |
| EloUpdate.ScoresAreLastPositions | elo-calculator/elo_calculator.py:106-109 | `player_scores` has exactly the players; each gets `final_scores` of the last group naming them, since later occurrences overwrite |
| EloUpdate.FirstMissing | elo-calculator/elo_calculator.py:110 | the index of the first player lacking a rating: every earlier one has a rating, and that one has none |
| EloUpdate.ParticipantsContents | elo-calculator/elo_calculator.py:110 | when every player is rated, `player_ratings` holds exactly the players, each with their rating |
| EloUpdate.UpdatedTotals | elo-calculator/elo_calculator.py:113-116 | the last loop keeps the keys and their order; each rating grows by its player's change once per occurrence in `players`; others stay |
| EloUpdate.NewRatings | elo-calculator/elo_calculator.py:103-117 | a successful update returns a valid dictionary with the same keys in the same order |
| EloUpdate.GatherPlayers | elo-calculator/elo_calculator.py:103-110 | the first loop stops at the first unknown name, and reports it; otherwise it ends with the flattened match, its scores and the participants' ratings |
| EloUpdate.ApplyChanges | elo-calculator/elo_calculator.py:113-116 | the last loop leaves the dictionary the specification function describes |
| EloUpdate.CalculateNewRatings | elo-calculator/elo_calculator.py:103-117 | the method returns exactly what the specification function `NewRatings` says, exceptions included |
| EloUpdateFacts.UnknownPlayerRaisesKeyError | elo-calculator/elo_calculator.py:106-110 | KeyError is raised exactly when some player is unrated, and it names the first such player in match order |
| EloUpdateFacts.OneParticipant | elo-calculator/elo_calculator.py:106-112 | `player_ratings` has one entry exactly when the match names a single person, possibly several times |
| EloUpdateFacts.LonePlayerDividesByZero | elo-calculator/elo_calculator.py:112 | such a match raises ZeroDivisionError in `winning_probability` |
| EloUpdateFacts.KnownChances | elo-calculator/elo_calculator.py:106-112 | with every player rated and not a single participant, nobody is missing, the chances exist, and every player has a score and a chance |
| EloUpdateFacts.NewRatingsIsUpdated | elo-calculator/elo_calculator.py:112-116 | in that case the result is the last loop applied with the scores and the chances |
| EloUpdateFacts.KnownPlayersUpdate | elo-calculator/elo_calculator.py:103-117 | with every player rated and two different players, the update succeeds. It keeps the keys in order and leaves non-players alone. Each player moves by `award * (len(players) - 1) * (score - chance)` per occurrence, with the score of the last group naming them |
| EloUpdateFacts.EmptyMatchChangesNothing | elo-calculator/elo_calculator.py:103-117 | a match without groups returns the ratings unchanged |
| EloUpdateFacts.StrictChanges | elo-calculator/elo_calculator.py:113-116 | in a strict ranking of distinct players, each moves once by the change for their own position |
| EloUpdateFacts.ChancesSumToOne | elo-calculator/elo_calculator.py:112 | in a strict ranking (two or more groups of one) of distinct rated players with a complementary term, the players' chances add up to 1 |
| EloUpdateFacts.StrictRankingIsZeroSum | elo-calculator/elo_calculator.py:103-117 | in a strict ranking (two or more groups of one) of distinct rated players with a complementary term, the players' ratings add up to the same total before and after |
| EloUpdateFacts.EvenPairChances | elo-calculator/elo_calculator.py:56-66 | with a complementary term, two distinct players of equal rating each have a winning chance of 0.5 |
| EloUpdateFacts.EvenPairMatch | elo-calculator/elo_calculator.py:103-117 | with a complementary term, two distinct players of equal rating x, one beating the other: the winner ends at x + award/2, the loser at x - award/2 |
| EloUpdateFacts.DefaultAwardMatch | elo-calculator/elo_calculator.py:90-117 | with a complementary term and the default award K = 50, two distinct players rated 1500, one beating the other, end at 1525 and 1475 |
| EloHistory.Appended | elo-calculator/elo_calculator.py:24-26 | definition: `update_history` on values, each current rating appended to its player's list; stated by `AppendedContents` |
| EloHistory.ResetRatings | elo-calculator/elo_calculator.py:37-38 | same players in the same order; each rating is raised to 1400 if below it, kept otherwise |
| EloHistory.ResetIdempotent | elo-calculator/elo_calculator.py:37-38 | clamping twice gives the same as clamping once |
| EloHistory.AppendedContents | elo-calculator/elo_calculator.py:24-26 | every current player gets their rating appended to their list (a new list starts empty); the other lists stay; no other key appears |
| EloHistory.History.constructor | elo-calculator/elo_calculator.py:19-22 | the initial ratings are stored unclamped and recorded as every player's first entry |
| EloHistory.History.UpdateHistory | elo-calculator/elo_calculator.py:24-26 | the ratings stay; the history becomes the appended one |
| EloHistory.History.SetRatings | elo-calculator/elo_calculator.py:32-35 | the stored ratings become the clamped copy, and that copy is recorded |
| EloHistory.SetterRecordsFloored | elo-calculator/elo_calculator.py:32-38 | the setter records one more entry per player, never below 1400, equal to the given rating when that is at or above 1400 |
| EloHistory.ShapedStep | elo-calculator/elo_calculator.py:32-35 | a recording keeps the lists a fixed length in step with the number of matches, the first entry initial and later ones floored; the new entry is the clamped rating |
| EloHistory.RatingStep | elo-calculator/elo_calculator.py:135 | the step of `main` is `calculate_new_ratings`, defined on every valid dictionary and keeping its players |
| EloHistory.Trace | elo-calculator/elo_calculator.py:133-135 | the dictionaries `calculate_new_ratings` returns for the first i matches, one per match, all with the initial players, or the exception that stopped the loop |
| EloHistory.HistoryOf | elo-calculator/elo_calculator.py:19-35 | the history after the constructor and one setter call per returned dictionary is a valid dictionary; its shape is stated by `HistoryShape` |
| EloHistory.Recorded | elo-calculator/elo_calculator.py:132-135 | definition: the history `main` leaves, or the exception that ended its loop; stated by `RecordedShape` and `ErrorStops` |
| EloHistory.TraceFeedsUnclamped | elo-calculator/elo_calculator.py:133-135 | each match is rated from the unclamped result of the previous one |
| EloHistory.HistoryShape | elo-calculator/elo_calculator.py:133-135 | after n matches every initial player, and no one else, has n + 1 entries: the first is the initial rating, every later one at least 1400, and the last is the clamped current rating |
| EloHistory.ErrorStops | elo-calculator/elo_calculator.py:134-135 | an exception ends the loop: later matches do not change the outcome |
| EloHistory.PlayMatch | elo-calculator/elo_calculator.py:135 | one pass: the new ratings, then the setter; an exception leaves the history untouched |
| EloHistory.Replay | elo-calculator/elo_calculator.py:132-135 | `main` returns exactly the history the specification function `Recorded` describes, or the exception that stopped it |
| EloHistory.RecordedShape | elo-calculator/elo_calculator.py:132-135 | a run without exception leaves that shape for as many matches as were played |
| FishPoints.Unshuffled | hey-thats-my-fish/hey-thats-my-fish.py:114-121 | definition: `[0] * zeroes + ... + [5] * fives` before the shuffle; stated by `UnshuffledCounts` |
| FishPoints.Points | hey-thats-my-fish/hey-thats-my-fish.py:105-124 | definition: the shuffled points `_generate_pts` returns; stated by `PointsFacts` |
| FishPoints.Ratio | hey-thats-my-fish/hey-thats-my-fish.py:107-113 | six counts that add up to the area, the last being the number of fives |
| FishPoints.RatioNonNegative | hey-thats-my-fish/hey-thats-my-fish.py:107-113 | for a positive area and a zero percentage from 1 to 10, no count is negative |
| FishPoints.Repeat | hey-thats-my-fish/hey-thats-my-fish.py:115-120 | `[v] * n` has n copies of v, none when n is not positive |
| FishPoints.UnshuffledCounts | hey-thats-my-fish/hey-thats-my-fish.py:114-121 | for six counts none of which is negative, the concatenated list has as many elements as the counts add up to, and value v occurs exactly `ratio[v]` times |
| FishPoints.PointsFacts | hey-thats-my-fish/hey-thats-my-fish.py:105-124 | for a positive area, draws in their ranges and a shuffle that only reorders, the points number exactly the area and each is 0 to 5. Value v occurs as often as `_ratio` says, with at most one five. The sum of `_ratio[1:]` is the number of non-zero points |
| FishBoard.ShapeName | hey-thats-my-fish/hey-thats-my-fish.py:10 | every shape is named by an entry of `MAP_CHOICES` |
| FishBoard.ShapeOf | hey-thats-my-fish/hey-thats-my-fish.py:46-51 | the constructor recognises a type exactly when it is in `MAP_CHOICES`, and then as the shape that entry names |
| FishBoard.TruncHalf | hey-thats-my-fish/hey-thats-my-fish.py:66 | `int()` of n / 2 rounds toward zero: twice the result is n, or one step closer to 0 than n, for negative n too |
| FishBoard.DiamondColsValue | hey-thats-my-fish/hey-thats-my-fish.py:66 | a diamond of R >= 0 rows has 3R/2 + 1 columns, rounded down; for negative R the truncation rounds (3R + 2) / 2 up |
| FishBoard.InShape | hey-thats-my-fish/hey-thats-my-fish.py:90 | definition: the cells that take a fish count, every cell for a rectangle, the triangle's and the diamond's conditions otherwise; counted by `ShapeCount` |
| FishBoard.Cols | hey-thats-my-fish/hey-thats-my-fish.py:61-67 | definition: `C` per shape; stated by `MapObject.C` and `DiamondColsValue` |
| FishBoard.Area | hey-thats-my-fish/hey-thats-my-fish.py:77-103 | definition: the area each generator passes to `_generate_pts`; stated by `ShapeCount` |
| FishBoard.Visit | hey-thats-my-fish/hey-thats-my-fish.py:90-91 | definition: one cell, `pts.pop()` inside the shape and 0 outside; stated by `VisitFacts` |
| FishBoard.FillTo | hey-thats-my-fish/hey-thats-my-fish.py:88-92 | definition: the nested loops up to a cursor; stated by `FillToFacts` and `FillToPrefix` |
| FishBoard.Board | hey-thats-my-fish/hey-thats-my-fish.py:77-103 | definition: the list a generator returns, or its IndexError; stated by `BoardCells` and `BoardUsesAllPoints` |
| FishBoard.VisitFacts | hey-thats-my-fish/hey-thats-my-fish.py:90-91 | one cell fails exactly when it is inside the shape and `pts` is empty; otherwise it adds one tile and pops one value exactly when the cell is inside the shape |
| FishBoard.FillToFacts | hey-thats-my-fish/hey-thats-my-fish.py:88-92 | at every point of the nested loops, the walk has not failed exactly when `pts` holds at least as many values as the cells already visited inside the shape. It has then built one tile per cell and taken that many values from the end of `pts`, in pop order |
| FishBoard.FillToPrefix | hey-thats-my-fish/hey-thats-my-fish.py:88-92 | the walk only appends: the list at an earlier point is a prefix of the list at a later one |
| FishBoard.BoardCells | hey-thats-my-fish/hey-thats-my-fish.py:77-103 | a successful generator lists every cell once in row-major order: the tile at index r * C + c is cell (r, c), and it has 0 fish outside the shape |
| FishBoard.RectangleCount | hey-thats-my-fish/hey-thats-my-fish.py:79-81 | for R >= 1 and C >= 1, a rectangle of R x C holds R C cells |
| FishBoard.TriangleCount | hey-thats-my-fish/hey-thats-my-fish.py:86-90 | for R >= 1, a triangle of R rows (and R + 1 columns) has R (R + 1) / 2 cells inside it |
| FishBoard.DiamondCount | hey-thats-my-fish/hey-thats-my-fish.py:97-101 | for R >= 1, a diamond of R rows (and int(R * 1.5 + 1) columns) has R R cells inside it |
| FishBoard.ShapeCount | hey-thats-my-fish/hey-thats-my-fish.py:77-103 | when the grid has at least one row and one column, the area each generator asks `_generate_pts` for is exactly the number of cells inside its shape, and positive; otherwise no cell is inside, whatever the area |
| FishBoard.BoardUsesAllPoints | hey-thats-my-fish/hey-thats-my-fish.py:77-103 | given as many points as cells inside the shape, the generator never pops an empty list and uses every point, in the reverse of their order |
| FishMap.TilesCount | hey-thats-my-fish/hey-thats-my-fish.py:74-75 | `tiles_cnt` raises TypeError exactly when there is no ratio; otherwise it is the total of the six counts minus the zeroes |
| FishMap.TilesCountOfPoints | hey-thats-my-fish/hey-thats-my-fish.py:74-75 | after `_generate_pts` of an area >= 1 with draws in their ranges, `tiles_cnt` is the number of generated points that are not zero |
| FishMap.FillToErrorStays | hey-thats-my-fish/hey-thats-my-fish.py:88-92 | an IndexError ends the loops: every later point reports it too |
| FishMap.Walk | hey-thats-my-fish/hey-thats-my-fish.py:88-92 | the nested loops build exactly the board the specification function `Board` describes, or raise its IndexError |
| FishMap.EmptyGridBoard | hey-thats-my-fish/hey-thats-my-fish.py:88-92 | a grid with no cell inside the shape takes nothing and succeeds |
| FishMap.TileFishBounds | hey-thats-my-fish/hey-thats-my-fish.py:88-92 | if every value taken is a fish count from 0 to 5, so is every tile's |
| FishMap.GeneratedOk | hey-thats-my-fish/hey-thats-my-fish.py:77-103 | for any size, the generated map never pops an empty list. With a row and a column, the cells inside the shape receive exactly all the points, in reverse order |
| FishMap.GeneratedFish | hey-thats-my-fish/hey-thats-my-fish.py:77-124 | every tile of a generated map holds a fish count from 0 to 5 |
| FishMap.MapObject.R | hey-thats-my-fish/hey-thats-my-fish.py:57-59 | definition: the `R` property, the first size |
| FishMap.MapObject.TilesCnt | hey-thats-my-fish/hey-thats-my-fish.py:73-75 | definition: the `tiles_cnt` property, `TilesCount` of the stored ratio; stated by `TilesCount` and `TilesCountOfPoints` |
| FishMap.MapObject.C | hey-thats-my-fish/hey-thats-my-fish.py:61-67 | `C` is R + 1 for a triangle, `int(R * 1.5 + 1)` for a diamond, and the second size otherwise |
| FishMap.MapObject.GeneratePts | hey-thats-my-fish/hey-thats-my-fish.py:105-124 | stores the counts in `_ratio`, returns the shuffled points, and changes nothing else |
| FishMap.MapObject.GenerateMap | hey-thats-my-fish/hey-thats-my-fish.py:77-103 | asks for the shape's area, stores the ratio, and returns the walked board; size, type and map stay |
| FishMap.MapObject.Install | hey-thats-my-fish/hey-thats-my-fish.py:46-51 | for a known type the map is set to a full board of the shape, and the ratio to the counts of its area |
| FishMap.MapObject.constructor | hey-thats-my-fish/hey-thats-my-fish.py:41-51 | size and type are stored; an unknown type leaves map and ratio `None`; a known one generates its map |

## Left out

- The floating-point logistic term `1 / (1 + 10 ** ((r2 - r1) / diff))` is a parameter of type `(real, real) -> real`. So `DIFF` does not appear, and ratings are exact reals, not floats. Where a property needs it, the term is only required to be complementary.
- `final_scores` is computed exactly on integers and reals, so float rounding is not modelled. A negative exponent gives the exact real `1 / alpha ** k`.
- Plotting (`plot_hist`, `add_fishes` and the drawing of maps), the command-line parsing, and the PDF output are not modelled: they are I/O.
- The imported `records` module with the real matches is not part of this model. The matches and initial ratings are parameters.
- `__repr__` and the read-only properties `ratings`, `map` and `ratio` are not modelled as separate members.
- The random draws `randint(1, 10)` and `randint(0, 100)` are parameters. `random.shuffle` is a parameter function required only to reorder (keep the multiset).
- `MapObject.__init__`'s default arguments are not modelled: the caller passes the type and size.
- `int(self.R * 1.5 + 1)` is modelled exactly as `(3R + 2) / 2` truncated toward zero. Float rounding for huge R is not modelled.
- EloUpdate.CalculateNewRatings: returns the updated dictionary as a new value instead of changing the caller's dictionary in place. The aliasing this causes in `main`, where the module-level `ratings` keeps the unclamped values, is modelled in `EloHistory.Replay` by the separate current ratings `cur`.
- `player_ratings` at a point of the first loop (`RatingsTo`) skips a name without a rating rather than raising. The raise itself is modelled by `FirstMissing` and `GatherPlayers`, which stop there.
- The two loops of `calculate_new_ratings` are methods of their own (`GatherPlayers`, `ApplyChanges`), and each pass of `main` is `PlayMatch`. The inner loop of `winning_probability` is `ExpectedWins`; the generators' shared nested loops are `Walk`; the type dispatch is `Install`.
- The history `main` leaves (`Recorded`) is defined for any step that keeps the players. It is applied to `calculate_new_ratings` through `RatingStep`.
- FishMap.TilesCount: a `_ratio` that is not six counts long cannot arise; for it the model only gives `sum(_ratio[1:])` without a closed form.
