# SiteArchitect placement engine, modelled in Dafny

SiteArchitect places rectangular buildings of two types on a site. Type A is
30 × 20 and type B is 20 × 20. The site is 200 × 140, with a setback of 10 on
every side and a 40 × 40 plaza at (85, 55). Four rules decide whether a layout
is valid:

- every building lies inside the setback lines;
- no building strictly overlaps the plaza;
- every pair of buildings is at least 15 apart, measured edge to edge;
- at least one B exists, and every A has a B whose center lies within 60 of its own.

The repository has three parts, and this project models each one:

- **Geometry** (`geometry.dfy`): the rule checks, the four-flag report and the index-level diagnosis.
- **Generator** (`generator.dfy`): random placement with bounded retries, a layout generator, a batch
  collector and per-layout statistics.
- **Evolution** (`evolution.dfy`):
  - the score;
  - mutation by clamped jitter and a type flip;
  - insertion of one more building in three tiers;
  - the generational loop that keeps the best layout;
  - the search over a pool of layouts.

Three supporting parts:

- `config.dfy` holds the constants.
- `oracle.dfy` holds the random source.
- `ranking.dfy` holds the stable descending sort that the evolution uses.

`fixtures.dfy` evaluates the model on the seven hand-built layouts of the
repository's test script.

Modelling conventions:

- Coordinates, areas and scores are `real`.
- Every `math.hypot` comparison is a comparison of squares. `d >= ms` becomes
  `ms <= 0 || ms² <= d²`, and `d <= r` becomes `0 <= r && d² <= r²`
  (`Geometry.FarEnough`, `Geometry.Near`).
- The random source is a parameter, `s: Stream`. It is an infinite sequence of
  draws in [0, 1), and every method threads a cursor `pos` through it:
  - `random.uniform(a, b)` is `a + (b - a) * u`, which is Python's own formula;
  - `random.choice` and `random.randint` scale one draw to an index (`Oracle.Below`, `Oracle.RandInt`).
- The cosine and sine of the coverage tier are one function parameter,
  `polar(angle, distance)`.
- Where the source mutates a list, the methods build a new `seq` and return it.
  The Python code always mutates its own `deepcopy`, so no caller ever sees the
  change.

## Model

| member | source | states |
|---|---|---|
| Config.Width | config.py:14-17 | the catalogue widths (A 30, B 20) are positive and fit between the setback lines |
| Config.Height | config.py:14-17 | the catalogue heights (20) are positive and fit between the setback lines |
| Config.Flip | evolution.py:63 | the swapped type differs from the old one |
| Oracle.Uniform | generator.py:18-19 | `random.uniform(lo, hi)` returns a value in [lo, hi] |
| Oracle.Scaled | generator.py:18-19 | a draw times a non-negative amount stays in [0, amount), which keeps uniform draws in range |
| Oracle.ScaleUnit | generator.py:18-19 | the arithmetic fact that keeps uniform draws in range |
| Oracle.Below | evolution.py:99 | `random.choice` picks an index below the length of the list |
| Oracle.RandInt | generator.py:47 | `random.randint(lo, hi)` lies in the closed range [lo, hi] |
| Geometry.Center | geometry.py:10-11 | the center is halfway between opposite edges, and it lies in a non-inverted rectangle |
| Geometry.InsideSite | geometry.py:14-20 | only a footprint that fits between the setback lines (at most 180 by 120) can pass the setback test |
| Geometry.InsideSiteIffAllPointsBuildable | geometry.py:14-20 | a non-inverted rectangle passes the setback test iff every point of it is in the buildable area |
| Geometry.FlushWithSetbackIsInside | geometry.py:14-20 | a rectangle flush with both setback lines of a corner counts as inside |
| Geometry.IntersectsPlaza | geometry.py:23-30 | a non-inverted rectangle whose center lies strictly inside the plaza fails the plaza test |
| Geometry.TouchingPlazaIsNotIntersecting | geometry.py:23-30 | a rectangle that only shares an edge line with the plaza does not intersect it |
| Geometry.IntersectsPlazaIffSharedInterior | geometry.py:23-30 | for positive-size rectangles, the plaza test holds iff some point is strictly inside both |
| Geometry.GapX | geometry.py:34 | the horizontal gap, clamped at zero, is non-negative |
| Geometry.GapY | geometry.py:35 | the vertical gap, clamped at zero, is non-negative |
| Geometry.EdgeDistanceSq | geometry.py:33-36 | the squared edge distance dx² + dy² is non-negative |
| Geometry.EdgeDistanceSymmetric | geometry.py:33-36 | the edge distance is symmetric |
| Geometry.EdgeDistanceZeroIffTouching | geometry.py:33-36 | the edge distance is zero exactly when the closed rectangles overlap or touch |
| Geometry.EdgeDistanceToSelf | geometry.py:33-36 | a rectangle is at edge distance zero from itself |
| Geometry.SquareOfNegation | geometry.py:34-35 | a negated gap has the same square, so either gap orientation gives the same distance |
| Geometry.AxisGapBound | geometry.py:34-35 | along one axis, two points of the two extents are at least the clamped gap apart |
| Geometry.EdgeDistanceIsLowerBound | geometry.py:33-36 | no pair of points of the two rectangles is closer than the edge distance |
| Geometry.NearestOnAxis | geometry.py:34-35 | along one axis, a pair of points of the two extents realises the clamped gap |
| Geometry.EdgeDistanceIsAttained | geometry.py:33-36 | some pair of points of the two rectangles is exactly the edge distance apart |
| Geometry.FarEnough | geometry.py:39-40 | for a positive threshold, two rectangles that pass the spacing test are at a positive edge distance, so they neither overlap nor touch |
| Geometry.FarEnoughSymmetric | geometry.py:39-40 | the spacing test does not depend on the order of the two rectangles |
| Geometry.FarEnoughIffClearance | geometry.py:39-40 | two rectangles pass the spacing test iff every pair of their points is at least `ms` apart |
| Geometry.SeparatedOnAnAxis | geometry.py:33-40 | rectangles separated by `ms` along one axis pass the spacing test |
| Geometry.SpacingOk | geometry.py:39-40 | for a positive threshold, a non-inverted rectangle that passes `spacing_ok` against a list is not itself in that list |
| Geometry.SpacingOkAppend | geometry.py:39-40 | `spacing_ok` holds for no others, and for `others + [o]` it is `spacing_ok(others)` and the test against `o` |
| Geometry.OfKind | geometry.py:45 | the buildings of one type are exactly the layout's buildings of that type |
| Geometry.CountKind | evolution.py:77-78 | a type count never exceeds the layout length, and equals it when every building has that type |
| Geometry.CountsAddUp | evolution.py:77-78 | the A count and the B count add up to the layout length |
| Geometry.CountPositiveIffPresent | generator.py:90-92 | a type's count is positive iff the layout holds a building of that type |
| Geometry.Near | geometry.py:53-56 | two centers within the radius are within it on each axis separately, and the radius is non-negative |
| Geometry.NeighborMix | geometry.py:43-60 | a layout that satisfies the neighbour-mix rule has a positive B count |
| Geometry.NeighborMixOk | geometry.py:43-60 | the loop returns true iff a B exists and every A has a B within the radius, inclusive; so it is false for a layout without B, the empty one included |
| Geometry.LayoutValid | geometry.py:63-78 | `all` is the conjunction of the four flags, and a valid layout is non-empty |
| Geometry.SpacingFlagCoversAllPairs | geometry.py:66-70 | checking each unordered pair i < j once is the same as checking every ordered pair of distinct indices |
| Geometry.AppendPlaceablePreservesRules | generator.py:28-33 | appending a building that passes the three placement checks keeps boundary, plaza and pairwise spacing |
| Geometry.RowFailures | geometry.py:87-91 | the inner loop lists exactly the failing pairs (i, j) with j > i, in increasing j |
| Geometry.SpacingFailures | geometry.py:85-91 | the nested loop lists exactly the failing pairs i < j, each with i < j and distance below 15, in loop order |
| Geometry.NeighborFailures | geometry.py:93-101 | an index is reported iff it holds an A with no B within the radius |
| Geometry.FindViolations | geometry.py:81-111 | each index set is exactly the indices that break its rule, and `affected` is their union plus the indices of the failing pairs; each set is empty iff the matching flag of the report holds; with no B every A is reported; the empty layout reports nothing yet fails the neighbour-mix flag |
| Geometry.IndexSetsAgree | geometry.py:82-83 | the boundary and plaza sets are empty iff the boundary and plaza flags hold |
| Geometry.SpacingFailuresAgree | geometry.py:85-91 | the list of failing pairs is empty iff the spacing flag holds |
| Geometry.NeighborFailuresAgree | geometry.py:93-101 | when a B exists, the neighbour set is empty iff the neighbour flag holds; without B every A is reported; the empty layout reports nothing but fails the flag |
| Generator.RandomPosition | generator.py:17-20 | the drawn origin lies in [SETBACK, SITE − SETBACK − size] on each axis whenever the footprint fits |
| Generator.SampledOriginIsInside | generator.py:17-20 | an origin drawn in those ranges always passes the setback test, so that check never rejects a candidate |
| Generator.Candidate | generator.py:26-27 | an attempt's candidate has its type's catalogue footprint and lies inside the site |
| Generator.ChooseKind | generator.py:50-52 | the type drawn by `random.choice(["A", "B"])` is A exactly when the draw is below one half |
| Generator.TryPlace | generator.py:23-35 | the loop returns None after exactly `attempts` candidates that all failed, or the first candidate that passes, found at some attempt k within the budget with the cursor right after it; that candidate has its catalogue size, is inside the site, clear of the plaza and spaced from every building of `current` |
| Generator.GenerateLayout | generator.py:38-69 | `built` is the sequence of placements made: each building is the first passing candidate of a `_try_place` of the drawn type against the buildings before it, at cursors chained from the target draw; a failed mandatory placement (every attempt failed, pinned at its cursor) returns None; a failed fill placement ends the filling and keeps the layout; once the mandatory phase is complete the layout is returned exactly when it passes the neighbour-mix rule; a returned layout has between `min_buildings` and `max_buildings + fill_extra` buildings, is catalogue-typed and passes all four rules |
| Generator.PlaceMandatory | generator.py:51-56 | the mandatory phase either places all `target` buildings, chained from its first cursor and ending at the last one, or stops at the first placement whose every attempt failed, with fewer buildings; what it builds is catalogue-typed and keeps the boundary, plaza and spacing rules |
| Generator.FillPlacements | generator.py:58-65 | the fill phase keeps the layout built so far as a prefix, adds at most `fill_extra` further placements chained at the same cursors, and when it adds fewer, the placement after the last one failed at every attempt; the rules of the input are kept |
| Generator.CollectValidLayouts | generator.py:72-86 | `trials` are the generator runs made, chained cursor to cursor, each one a run as `GenerateLayout` describes; the kept layouts are exactly the valid results of those runs, in order; there are at most `max_tries` runs, and fewer only when the last run returned a layout that brought the kept ones to `count`; no earlier run stopped the loop; so at most `count` are kept when `count >= 1`, and at most one when `count <= 0` |
| Generator.CollectRounds | generator.py:78-85 | the loop: at most `max_tries` runs, the collector state of `Collecting` holds of them, and fewer runs only after a returned layout brought the kept ones to `count` |
| Generator.CollectOne | generator.py:79-83 | one round makes exactly one more run, from where the last ended, and keeps its layout exactly when it returned one that passes every rule |
| Generator.RunGenerator | generator.py:79 | one call of the generator from a cursor is a run as `GenerateLayout` describes, recorded with its start, end and result; a returned layout is valid, catalogue-typed and in size range |
| Generator.Kept | generator.py:80-83 | the kept layouts of a sequence of runs are at most as many as the runs, and all pass every rule |
| Generator.Area | generator.py:93 | a catalogue building has area 600 (A) or 400 (B) |
| Generator.TotalArea | generator.py:93 | the total area of a catalogue-typed layout lies between 400 and 600 per building |
| Generator.TotalAreaByKind | generator.py:93 | the total area of a catalogue-typed layout is 600 per A plus 400 per B |
| Generator.CountKindSnoc | generator.py:91-92 | appending a building adds one to the count of its own type only |
| Generator.CountPrefixStep | generator.py:91-92 | counting one more building of the layout adds one to the count of its own type only |
| Generator.CountKinds | generator.py:90-92 | the one-pass tally yields exactly the per-type counts of the layout |
| Generator.Summarize | generator.py:89-104 | the counts are the per-type counts and add up to the length; the area is the sum of w·h; the four flags and `valid` are those of the report; a valid layout has a B |
| Evolution.MaxOf | evolution.py:28-29 | `max` returns an element that no element exceeds |
| Evolution.MinOf | evolution.py:28-29 | `min` returns an element that exceeds no element |
| Evolution.Spread | evolution.py:28-29 | the spread is non-negative, bounds every difference of two values, and equals one of them |
| Evolution.SpreadIsRange | evolution.py:28-29 | the spread is the difference between a largest and a smallest element |
| Evolution.Distribution | evolution.py:25-32 | the distribution term is non-negative |
| Evolution.BalancePenalty | evolution.py:35-37 | the penalty is non-negative, is zero iff countA ≤ countB + 3, and is at most 15 per A |
| Evolution.ScoreLayout | evolution.py:13-40 | an invalid layout scores exactly −1000, whatever its size or area; a valid one scores its weighted objective |
| Evolution.Quality | evolution.py:20-39 | with catalogue footprints the objective is at least 140 per building, so it outweighs the balance penalty |
| Evolution.ScoreSeparatesValidity | evolution.py:13-40 | with catalogue footprints a layout scores above −1000 iff it is valid, and never below −1000 |
| Evolution.Clamp | evolution.py:56-57 | `max(lo, min(v, hi))` is at least `lo`, at most `hi` when `lo ≤ hi`, and is `v` when `v` is in range |
| Evolution.ClampedIsInside | evolution.py:106-107 | a building whose origin is clamped into its sampling range lies inside the site |
| Evolution.Jitter | evolution.py:54-57 | a jittered building keeps its size and type; its origin is in the sampling range and moved no more than the shift |
| Evolution.Retype | evolution.py:62-67 | a flipped building gets the new type's catalogue size at the same origin |
| Evolution.JitterPositions | evolution.py:51-57 | each building keeps type and size and is either left in place or jittered by at most 10 into the sampling range; all are jittered when rate ≥ 1; none is touched when rate ≤ 0 |
| Evolution.SwapOneType | evolution.py:59-67 | each building is unchanged or retyped to the other type with its catalogue size at the same origin; at most one changes; nothing changes when rate ≤ 0 |
| Evolution.MutateLayout | evolution.py:43-69 | the result has the input's length; each building is in place or jittered; at most one changes type, taking the new catalogue size; every other building keeps type and size; the input is returned when rate ≤ 0; catalogue typing is preserved |
| Evolution.NeedsCoverage | evolution.py:84-90 | the search is true iff some A has no B within the radius |
| Evolution.CoverageCandidate | evolution.py:99-109 | one coverage attempt yields a catalogue B building that, once clamped, lies inside the site |
| Evolution.CoverageTier | evolution.py:93-113 | it returns None after exactly `attempts` candidates that all failed the placement checks, or the first candidate that passes them, found at some attempt k within the budget with the cursor right after it; that candidate is a catalogue B |
| Evolution.BoundaryZones | evolution.py:121-135 | the eight anchors of an A footprint are all inside the site, and the four edge anchors are flush with their setback line |
| Evolution.BoundaryCandidate | evolution.py:139-147 | one boundary attempt yields a catalogue A building that, once clamped, lies inside the site |
| Evolution.BoundaryTier | evolution.py:115-151 | after the four anchor draws, it returns None after exactly `attempts // 2` candidates that all failed the placement checks, or the first candidate that passes them, found at some attempt k within the budget with the cursor right after it; that candidate is a catalogue A |
| Evolution.BoundaryStart | evolution.py:93-115 | the boundary tier starts no earlier than the cursor the method was called with |
| Evolution.FallbackStart | evolution.py:115-154 | the fallback starts no earlier than the boundary tier |
| Evolution.CoverageStep | evolution.py:84-113 | a placed building is a catalogue B placed only when some A lacks a close B and B < A, and it is the coverage tier's first passing candidate; when nothing is placed the cursor is where the boundary tier starts, and if the tier ran, every one of its attempts failed |
| Evolution.BoundaryStep | evolution.py:115-151 | a placed building is a catalogue A placed only when A ≤ B + 4, and it is the boundary tier's first passing candidate; when nothing is placed, the cursor has moved past the tier's draws exactly when it ran, and then every one of its attempts failed |
| Evolution.EarlyTiers | evolution.py:92-151 | the boundary tier is reached only after the coverage tier placed nothing; when neither places anything, the cursor is where the fallback starts and every attempt of each tier that ran failed |
| Evolution.PlaceByTiers | evolution.py:92-166 | the three tiers in turn: a coverage building is a B placed only when coverage applies; a boundary building is an A placed only when A ≤ B + 4 and after coverage failed; a fallback building comes after every earlier tier that ran failed; the placing tier's building is its first passing candidate within its budget, with the cursor right after it; None only after the fallback's `attempts` candidates of its drawn type also failed |
| Evolution.TryAddBuilding | evolution.py:72-166 | a result exists exactly when the tiers placed a building (`placed`), and is the input with that building appended; that building has catalogue size and passes the placement checks; boundary, plaza and spacing validity and catalogue typing of the input are preserved; a coverage-tier building is a B placed only when some A lacked a B and B < A; a boundary-tier building is an A placed only when A ≤ B + 4 and the coverage tier, when it ran, failed; the building is the placing tier's first passing candidate within its budget; None means that every attempt of every tier that ran failed, the fallback's included |
| Evolution.EntriesItems | evolution.py:182 | the layouts of the scored pairs are the population in order |
| Evolution.Ranked | evolution.py:182-183 | the sorted scored pairs: each is the layout at its original position with that layout's score, no position occurs twice, and they are in rank order |
| Evolution.SortedEntriesComeFromPopulation | evolution.py:182-183 | every pair of a reordering of the scored population is the pair of its own original position |
| Evolution.RankOrder | evolution.py:182-183 | the original positions in sorted order form a permutation of the positions |
| Evolution.ByScore | evolution.py:182-183 | the sorted population is the population read in `RankOrder`, a permutation of it, with scores never increasing, and layouts of equal score keep their original relative order, as Python's stable `sort(reverse=True)` does |
| Evolution.RankedIsStable | evolution.py:183 | in rank order with distinct positions, scores never increase and equal scores have increasing original positions |
| Evolution.ByScoreLeadsWithBest | evolution.py:183-186 | the first sorted layout has the highest score of the population |
| Evolution.NextGeneration | evolution.py:181-208 | the next population has `population_size` members and starts with the better half by score; the best score never decreases and dominates the population; the best layout becomes the head of the stable sort, `scored[0][1]`, exactly when that head scores strictly above the best score, and otherwise stays; every later slot holds an offspring of the surviving half |
| Evolution.Refill | evolution.py:194-206 | the survivors are kept as a prefix, and every slot after them up to `population_size` holds an offspring of some survivor: its mutation, or its mutation with one building added that passes the placement checks |
| Evolution.Offspring | evolution.py:197-206 | the child is a mutation of the survivor the first draw picks, or that mutation with one catalogue-typed building appended that passes the placement checks against it |
| Evolution.EvolveLayout | evolution.py:169-210 | one scored population per generation: the first is `population_size` copies of the initial layout, each later one is the better half of the one before followed by offspring of that half; the result scores at least as well as every layout of every scored population and as the initial layout; it is the initial layout or a strictly better layout from a scored population; with catalogue footprints a changed result is valid |
| Evolution.RunGenerations | evolution.py:176-208 | the generation loop makes one scored population per generation, each following the one before, and keeps a best layout that dominates them all and is the initial layout or a strictly better scored one |
| Evolution.Advance | evolution.py:180-208 | one generation: the scored population joins the history, and the evolution state (successor populations, a dominating best that is the initial layout or a better scored layout) is kept |
| Evolution.HistoryStep | evolution.py:185-188 | after one more scored population, a best that scores at least as well as the old best and every new member dominates every scored population, and stays a scored layout |
| Evolution.Prefix | evolution.py:222 | Python's `xs[:n]` keeps the first n items, or drops the last −n when n is negative |
| Evolution.EvolutionarySearch | evolution.py:213-232 | one evolution run per seed of `pool[:count]`, in order, each a run as `EvolveLayout` describes with its scored populations; the kept layouts are exactly the valid results of those runs, in order; the result is the first `count` of them sorted by score, so every returned layout is valid, scores never increase and there are at most `count` and at most as many as seeds; when every seed is valid and catalogue-typed, every run is kept, no worse than its seed, and with `count >= 0` the result has one layout per seed |
| Evolution.EvolveSeeds | evolution.py:222-226 | one evolution run per seed, in seed order, each a run as `EvolveLayout` describes; the kept layouts are exactly the valid results of the runs, in order; with valid catalogue-typed seeds every run is kept, no worse than its seed |
| Evolution.EvolveNext | evolution.py:223-226 | one round of the loop: one more run, of the next seed, and its result kept exactly when it passes every rule |
| Evolution.ValidOnes | evolution.py:224-226 | the layouts the loop keeps are at most as many as the runs and all pass every rule |
| Evolution.EvolvedRunsAt | evolution.py:222-223 | the run recorded at position k is a run of the k-th seed as `EvolveLayout` describes |
| Evolution.NoWorseThanValidIsValid | evolution.py:224-225 | a layout that scores at least as well as a valid catalogue-typed layout is itself valid |
| Evolution.BestPrefixValid | evolution.py:229-232 | the best `count` of valid layouts are valid |
| Evolution.BestPrefixDescending | evolution.py:229-232 | the best `count` layouts are in non-increasing score |
| Ranking.ItemsConcat | evolution.py:191 | the items of a concatenation are the concatenated items |
| Ranking.ItemsCons | evolution.py:191 | the item multiset of a list is its head plus that of its tail |
| Ranking.Insert | evolution.py:183 | inserting into a ranked list keeps it ranked and adds exactly the new entry |
| Ranking.InsertItems | evolution.py:183 | inserting adds exactly the new entry's item to the items |
| Ranking.InsertStep | evolution.py:183 | an entry that the inserted one does not precede can stay ahead of the rest |
| Ranking.PrecedesHead | evolution.py:183 | whatever ranks before the head of a ranked list ranks before all of it |
| Ranking.PrependRanked | evolution.py:183 | prepending an entry that ranks before every element keeps the list ranked |
| Ranking.SortByScore | evolution.py:183 | the stable descending sort returns a permutation in rank order: higher score first, and equal scores in their original order |
| Ranking.SortKeepsItems | evolution.py:183 | sorting only reorders the items |
| Fixtures.CloseBAt | geometry.py:53-57 | a B at some index within the radius is a close B |
| Fixtures.BasicLayoutIsValid | test.py:79-84 | the basic layout passes all four rules |
| Fixtures.BasicLayoutSpaced | test.py:79-84 | every pair of the basic layout is at least 15 apart |
| Fixtures.BasicLayoutMixed | test.py:79-84 | each A of the basic layout has a B within 60 |
| Fixtures.BasicLayoutStats | test.py:79-84 | the basic layout has two A, two B and area 2000 |
| Fixtures.BasicLayoutDistribution | test.py:79-84 | the distribution term of the basic layout is 80 |
| Fixtures.BasicLayoutSpreadX | test.py:79-84 | the horizontal spread of the basic layout's centers is 120 |
| Fixtures.BasicLayoutSpreadY | test.py:79-84 | the vertical spread of the basic layout's centers is 40 |
| Fixtures.BasicLayoutScore | test.py:79-84 | the basic layout scores 400 + 200 + 40 = 640 |
| Fixtures.SpacingLayoutReport | test.py:93-98 | only the spacing flag is false, and the score is −1000 |
| Fixtures.SpacingLayoutMixed | test.py:93-98 | each A of the spacing case has a B within 60 |
| Fixtures.PlazaLayoutReport | test.py:107-112 | only the plaza flag is false, and the score is −1000 |
| Fixtures.PlazaLayoutSpaced | test.py:107-112 | every pair of the plaza case is at least 15 apart, and the B at index 1 is at squared edge distance exactly 225 from the A at index 2 |
| Fixtures.PlazaLayoutMixed | test.py:107-112 | each A of the plaza case has a B within 60 |
| Fixtures.NeighborLayoutReport | test.py:121-126 | only the neighbour-mix flag is false, and the score is −1000 |
| Fixtures.NeighborLayoutInside | test.py:121-126 | every building of the neighbour case is inside the site and clear of the plaza |
| Fixtures.NeighborLayoutSpaced | test.py:121-126 | every pair of the neighbour case is at least 15 apart |
| Fixtures.NeighborLayoutFirstALonely | test.py:121-126 | the first A of the neighbour case has no B within 60 |
| Fixtures.BoundaryLayoutReport | test.py:135-140 | only the boundary flag is false, and the score is −1000 |
| Fixtures.BoundaryLayoutSpaced | test.py:135-140 | every pair of the boundary case is at least 15 apart, and the first two buildings are at squared edge distance exactly 225 |
| Fixtures.BoundaryLayoutMixed | test.py:135-140 | each A of the boundary case has a B within 60 |
| Fixtures.MultipleLayoutReport | test.py:149-154 | all four flags are false, and the score is −1000 |
| Fixtures.MultipleLayoutSecondALonely | test.py:149-154 | the A over the plaza has no B within 60 |
| Fixtures.DenseLayoutReport | test.py:163-172 | the layout the script calls dense and valid fails the spacing flag (indices 4 and 6 are 5 apart) and scores −1000; its other three flags hold |
| Fixtures.DenseLayoutInside | test.py:163-172 | every building of the dense case is inside the site and clear of the plaza |
| Fixtures.DenseLayoutMixed | test.py:163-172 | every A of the dense case has a B within 60 |
| Fixtures.DenseLayoutLeftCloseBs | test.py:163-172 | the two left-hand A have a B within 60 |
| Fixtures.DenseLayoutRightCloseBs | test.py:163-172 | the two right-hand A have a B within 60 |
| Fixtures.DenseLayoutTypeA | test.py:163-172 | the A buildings of the dense case are at indices 0, 2, 4 and 7 |
| RealArith.SquareSign | geometry.py:36 | a square is non-negative, and positive away from zero |
| RealArith.SquareMonotone | geometry.py:36 | squaring is monotone on the non-negative reals, so comparing squares is the same as comparing distances |
| RealArith.SumOfSquaresZero | geometry.py:36 | dx² + dy² is zero iff both gaps are zero |

Proof helpers without a row, because they state nothing specific to the source:
`Evolution.CenterXs`, `Evolution.CenterYs` and `Evolution.Entries` (the lists built at evolution.py:26-27 and 182),
`Ranking.Items`, `Generator.Iterations` (the trip count of `range(n)`), `Geometry.PairIndices`,
`Evolution.SnocNoWorse`, `Evolution.KeptStep`, `Evolution.BestStep`, `Evolution.FinishedRun`, the one-more-step lemmas `Generator.PlacementsSnoc`,
`Generator.CollectingSnoc`, `Generator.KeptSnoc`, `Generator.TrialChainSnoc`, `Generator.ChainedSnoc`,
`Generator.AllRunsSnoc`, `Generator.RunsOnSnoc`, `Evolution.SuccessorsStep`, `Evolution.EvolvedRunsSnoc`
and `Evolution.ValidOnesSnoc`, the multiset facts `Ranking.OccursAtMostOnce`, `Ranking.NotRepeated`,
`Ranking.PositionDeterminesPlace` and `Ranking.ReorderKeepsDistinct`, the real-number facts
`RealArith.ProductNonNegative` and `RealArith.ProductPositive`, and the fixture helper `Fixtures.FourMembers`.

## Left out

- Floating point: all arithmetic is exact real arithmetic. Float rounding, for example of `40.0 + 30.0 * 0.5`, is not modelled.
- Square roots: `math.hypot` is never computed, and every comparison with it is replaced by the equivalent comparison of squares.
- The stored spacing distance: a failing pair (`Geometry.SpacingFailure`) holds the squared edge distance instead of the distance itself.
- Python's random generator: the Mersenne Twister, `random.seed`, and the exact way `randint` and `choice` turn bits into an integer are not modelled. Every draw is a value of the stream parameter. The `seed` argument of `generate_layout` is left out with it.
- The cosine and sine of the coverage tier, evolution.py:99-104: the offset is the parameter `polar`.
- Evolution.CoverageTier: describes each attempt's candidate and which one is returned, but does not state that the B lands near an A, because that depends on `polar`.
- Evolution.BoundaryTier: describes each attempt's candidate and which one is returned, but does not state how close to the setback lines the A lands.
- Evolution.TryAddBuilding: the fallback tier, evolution.py:153-166, is the same loop as `_try_place` and is modelled by calling `Generator.TryPlace`. Through that fallback, a B can also be added by the fallback tier. So the contract ties B to the coverage tier only when that tier placed it (the ghost `tier` result), not for every B.
- Evolution.EvolveLayout: monotonicity is proved within one run, across its generations. Nothing relates separate runs.
- Default arguments: the model has none. Every parameter is explicit, including `min_buildings=5`, `max_buildings=12`, `attempts_per_building=120`, `max_tries=800`, `mutation_rate=0.3`, `generations=100` and `population_size=20`. The one default a call site relies on, `attempts=50` in `try_add_building`, is written into `Evolution.Offspring`.
- `copy.deepcopy` and aliasing: layouts are values, so the fact that the input layout is never modified holds by construction and is not stated.
- Exceptions the source would raise are preconditions:
  - `random.randint(min, max)` requires `min <= max` (`Generator.GenerateLayout`, `Generator.CollectValidLayouts`).
  - `evolve_layout` requires `population_size >= 2` whenever it runs a generation. Smaller sizes index or sample an empty list. `evolutionary_search` needs this only when `initial_pool[:count]` is non-empty.
  - The coverage tier requires an A to exist, which its guard `count_b < count_a` ensures.
- Rendering, export, the command-line drivers and the analysis scripts (`viz.py`, `comparison.py`, `export.py`, `main.py`, `analysis.py`) are not part of this model. Neither is the printing in `test.py`: only its hand-built layouts are used, in `fixtures.dfy`.

## Observations

- The layout at test.py:163-172 is labelled as a dense valid layout, but under the rules it is not valid. The A at index 4 spans x 130–160 and the B at index 6 starts at x 165 on the same row. The gap is 5, below the spacing of 15 (`Fixtures.DenseLayoutReport`).
- In the layout at test.py:149-154, the comment on the last building calls it too close to the edge. It is flush with the right setback line (x + w = 190) and 10 inside the bottom one (y + h = 120 < 130), so it passes the boundary rule. The layout still breaks all four rules through its other buildings (`Fixtures.MultipleLayoutReport`).
- The diagnosis and the report disagree on the empty layout. It has nothing to report, yet it fails the neighbour-mix rule (`Geometry.FindViolations`).
- `collect_valid_layouts` compares the count only after the append. So with `count <= 0` it still returns the first valid layout it finds (`Generator.CollectValidLayouts`).
