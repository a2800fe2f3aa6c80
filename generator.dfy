/**
 The random generator: rejection sampling of one building at a time, a layout
 of a random target size built by repeated placement, the optional fill phase,
 the collector of valid layouts and the statistics summary.

 Every random draw reads the stream `s` at the cursor; each method returns the
 cursor after its last draw.
 */
module Generator {

  import opened Config
  import opened Oracle
  import opened Geometry
  import opened Wrappers

  /** `max(n, 0)`: the number of iterations of `range(n)`. */
  function Iterations(n: int): (k: nat)
    ensures n <= 0 ==> k == 0
    ensures 0 <= n ==> k == n
  {
    if n < 0 then 0 else n
  }

  /**
   A uniformly drawn origin for a footprint of `w` by `h` (two draws): within
   the setback on the low sides and far enough from the high sides for the
   footprint to fit.
   */
  function RandomPosition(s: Stream, pos: nat, w: real, h: real): (p: Point)
    ensures w <= SITE_WIDTH - 2.0 * SETBACK ==> SETBACK <= p.x <= SITE_WIDTH - SETBACK - w
    ensures h <= SITE_HEIGHT - 2.0 * SETBACK ==> SETBACK <= p.y <= SITE_HEIGHT - SETBACK - h
  {
    Point(Uniform(s, pos, SETBACK, SITE_WIDTH - SETBACK - w), Uniform(s, pos + 1, SETBACK, SITE_HEIGHT - SETBACK - h))
  }

  /** An origin in the sampling range of a catalogue footprint always gives a building inside the site. */
  lemma SampledOriginIsInside(kind: Kind, x: real, y: real)
    requires SETBACK <= x <= SITE_WIDTH - SETBACK - Width(kind)
    requires SETBACK <= y <= SITE_HEIGHT - SETBACK - Height(kind)
    ensures InsideSite(Rect(x, y, Width(kind), Height(kind), kind))
  {
  }

  /** The building of the given type at the randomly drawn origin. */
  function Candidate(kind: Kind, s: Stream, pos: nat): (r: Rect)
    ensures WellTyped(r) && r.kind == kind
    ensures InsideSite(r)
  {
    var p := RandomPosition(s, pos, Width(kind), Height(kind));
    SampledOriginIsInside(kind, p.x, p.y);
    Rect(p.x, p.y, Width(kind), Height(kind), kind)
  }

  /** The candidate of the `k`-th attempt of a placement that starts at `pos`. */
  function AttemptAt(kind: Kind, s: Stream, pos: nat, k: nat): Rect
  {
    Candidate(kind, s, pos + 2 * k)
  }

  /** Every one of the `attempts` candidates of a placement that starts at `pos` fails the placement checks. */
  predicate AttemptsFail(kind: Kind, current: Layout, attempts: int, s: Stream, pos: nat)
  {
    forall k: nat :: k < Iterations(attempts) ==> !Placeable(AttemptAt(kind, s, pos, k), current)
  }

  /** `random.choice(["A", "B"])`: A on the lower half of the unit interval, B on the upper half. */
  function ChooseKind(s: Stream, pos: nat): (k: Kind)
    ensures k == A <==> s(pos) < 0.5
  {
    if Below(s, pos, 2) == 0 then A else B
  }

  /**
   A placement that starts at `pos` succeeds with `r`: `r` is the candidate of
   some attempt `k` within the budget, it passes the placement checks, every
   earlier candidate failed them, and `pos'` is the cursor after attempt `k`.
   */
  ghost predicate PlacedAt(kind: Kind, current: Layout, attempts: int, s: Stream, pos: nat, r: Rect, pos': nat)
  {
    exists k: nat :: k < Iterations(attempts) && pos' == pos + 2 * k + 2 && r == AttemptAt(kind, s, pos, k)
      && Placeable(r, current) && forall j: nat :: j < k ==> !Placeable(AttemptAt(kind, s, pos, j), current)
  }

  /**
   Rejection sampling: up to `attempts` candidates, each rejected when it
   leaves the site, intersects the plaza or comes too close to a building of
   `current`. The first candidate that passes is returned; every earlier one
   failed.
   */
  method TryPlace(kind: Kind, current: Layout, attempts: int, s: Stream, pos: nat)
    returns (r: Option<Rect>, pos': nat)
    ensures pos <= pos' <= pos + 2 * Iterations(attempts)
    ensures r.None? ==> pos' == pos + 2 * Iterations(attempts) && AttemptsFail(kind, current, attempts, s, pos)
    ensures r.Some? ==> pos + 2 <= pos' && r.value == Candidate(kind, s, pos' - 2)
    ensures r.Some? ==>
      exists k: nat :: k < Iterations(attempts) && pos' == pos + 2 * k + 2 && r.value == AttemptAt(kind, s, pos, k)
    ensures r.Some? ==> WellTyped(r.value) && r.value.kind == kind && Placeable(r.value, current)
    ensures forall k: nat :: pos + 2 * k < pos' - (if r.Some? then 2 else 0) ==>
      !Placeable(AttemptAt(kind, s, pos, k), current)
    ensures r.Some? ==> PlacedAt(kind, current, attempts, s, pos, r.value, pos')
  {
    var n := Iterations(attempts);
    var a := 0;
    pos' := pos;
    while a < n
      invariant 0 <= a <= n && pos' == pos + 2 * a
      invariant forall k: nat :: k < a ==> !Placeable(AttemptAt(kind, s, pos, k), current)
    {
      var p := RandomPosition(s, pos', Width(kind), Height(kind));
      var rect := Rect(p.x, p.y, Width(kind), Height(kind), kind);
      assert rect == AttemptAt(kind, s, pos, a);
      pos' := pos' + 2;
      if InsideSite(rect) && !IntersectsPlaza(rect) && SpacingOk(rect, current, MIN_SPACING) {
        return Some(rect), pos';
      }
      a := a + 1;
    }
    return None, pos';
  }

  /**
   One placement of the generator at cursor `c`: the type draw at `c`, then a
   successful `_try_place` of that type against `prefix` from `c + 1`, giving
   `r` and the cursor `c'` after it.
   */
  ghost predicate Placement(prefix: Layout, attempts: int, s: Stream, c: nat, r: Rect, c': nat)
  {
    PlacedAt(ChooseKind(s, c), prefix, attempts, s, c + 1, r, c')
  }

  /** One placement of the generator at cursor `c` fails: every attempt of the drawn type failed, ending at `c'`. */
  ghost predicate PlacementFails(prefix: Layout, attempts: int, s: Stream, c: nat, c': nat)
  {
    c' == c + 1 + 2 * Iterations(attempts) && AttemptsFail(ChooseKind(s, c), prefix, attempts, s, c + 1)
  }

  /**
   `built` is the outcome of successive placements: building `i` is placed
   against the buildings before it, starting at `cursors[i]` and ending at
   `cursors[i + 1]`.
   */
  ghost predicate Placements(built: Layout, cursors: seq<nat>, attempts: int, s: Stream)
  {
    && |cursors| == |built| + 1
    && forall i :: 0 <= i < |built| ==> Placement(built[..i], attempts, s, cursors[i], built[i], cursors[i + 1])
  }

  /** One more successful placement at the last cursor extends the placements. */
  lemma PlacementsSnoc(built: Layout, cursors: seq<nat>, attempts: int, s: Stream, r: Rect, c': nat)
    requires Placements(built, cursors, attempts, s)
    requires Placement(built, attempts, s, cursors[|built|], r, c')
    ensures Placements(built + [r], cursors + [c'], attempts, s)
  {
    var b, cs := built + [r], cursors + [c'];
    forall i | 0 <= i < |b| ensures Placement(b[..i], attempts, s, cs[i], b[i], cs[i + 1]) {
      if i < |built| {
        assert b[..i] == built[..i];
      } else {
        assert b[..i] == built;
      }
    }
  }

  /**
   What one run of the generator from cursor `pos` yields. The target is drawn
   at `pos`; `built` holds the buildings placed one after another from
   `pos + 1`, mandatory ones first, then fill. When a mandatory placement
   fails, nothing is returned. When a fill placement fails, the filling ends
   and the layout built so far is kept. When every placement succeeds, the
   cursor is the last placement's. Once the mandatory phase is complete, the
   layout is returned exactly when it passes the neighbour-mix rule.
   */
  ghost predicate Generation(minB: int, maxB: int, attempts: int, fillExtra: int, s: Stream, pos: nat,
                             res: Option<Layout>, pos': nat, built: Layout, cursors: seq<nat>)
    requires minB <= maxB
  {
    var target := Iterations(RandInt(s, pos, minB, maxB));
    && Placements(built, cursors, attempts, s) && cursors[0] == pos + 1
    && |built| <= target + Iterations(fillExtra)
    && (|built| < target ==> res.None? && PlacementFails(built, attempts, s, cursors[|built|], pos'))
    && (target <= |built| < target + Iterations(fillExtra) ==> PlacementFails(built, attempts, s, cursors[|built|], pos'))
    && (|built| == target + Iterations(fillExtra) ==> pos' == cursors[|built|])
    && (target <= |built| ==> (res.Some? <==> NeighborMix(built, NEIGHBOR_RADIUS)) && (res.Some? ==> res.value == built))
  }

  /**
   One layout: a target size drawn in [minB, maxB], one placement of a random
   type per target slot (a failed placement abandons the layout), then up to
   `fillExtra` further placements that stop at the first failure, and finally
   the neighbour-mix check. `built` and `cursors` are the placements made, as
   `Generation` describes. Every returned layout passes every rule.
   */
  method GenerateLayout(minB: int, maxB: int, attempts: int, fillExtra: int, s: Stream, pos: nat)
    returns (res: Option<Layout>, pos': nat, ghost built: Layout, ghost cursors: seq<nat>)
    requires minB <= maxB
    ensures pos < pos'
    ensures Generation(minB, maxB, attempts, fillExtra, s, pos, res, pos', built, cursors)
    ensures AllWellTyped(built) && GeometricRules(built)
    ensures res.Some? ==> var target := Iterations(RandInt(s, pos, minB, maxB));
      target <= |res.value| <= target + Iterations(fillExtra)
    ensures res.Some? ==> minB <= |res.value| <= Iterations(maxB) + Iterations(fillExtra)
    ensures res.Some? ==> AllWellTyped(res.value) && LayoutValid(res.value, NEIGHBOR_RADIUS).all
  {
    var target := RandInt(s, pos, minB, maxB);
    var ok, current;
    ok, current, pos', cursors := PlaceMandatory(target, attempts, s, pos + 1);
    if !ok {
      return None, pos', current, cursors;
    }
    current, pos', cursors := FillPlacements(current, cursors, pos', fillExtra, attempts, s);
    built := current;
    var mixOk := NeighborMixOk(current, NEIGHBOR_RADIUS);
    if !mixOk {
      return None, pos', built, cursors;
    }
    assert NeighborMix(current, NEIGHBOR_RADIUS);
    return Some(current), pos', built, cursors;
  }

  /**
   The mandatory phase: one placement of a random type per target slot,
   starting at cursor `start`. It fails (`ok` false) at the first placement
   that finds no spot, with the layout built before it.
   */
  method PlaceMandatory(target: int, attempts: int, s: Stream, start: nat)
    returns (ok: bool, current: Layout, pos': nat, ghost cursors: seq<nat>)
    ensures start <= pos'
    ensures AllWellTyped(current) && GeometricRules(current)
    ensures Placements(current, cursors, attempts, s) && cursors[0] == start
    ensures ok ==> |current| == Iterations(target) && pos' == cursors[|current|]
    ensures !ok ==> |current| < Iterations(target) && PlacementFails(current, attempts, s, cursors[|current|], pos')
  {
    pos' := start;
    current := [];
    cursors := [pos'];
    var placed := 0;
    while placed < target
      invariant 0 <= placed <= Iterations(target) && |current| == placed
      invariant start <= pos'
      invariant AllWellTyped(current) && GeometricRules(current)
      invariant Placements(current, cursors, attempts, s) && cursors[0] == start && cursors[|current|] == pos'
    {
      var c := pos';
      var t := ChooseKind(s, c);
      var rect;
      rect, pos' := TryPlace(t, current, attempts, s, c + 1);
      if rect.None? {
        return false, current, pos', cursors;
      }
      AppendPlaceablePreservesRules(current, rect.value);
      PlacementsSnoc(current, cursors, attempts, s, rect.value, pos');
      current, cursors := current + [rect.value], cursors + [pos'];
      placed := placed + 1;
    }
    ok := true;
  }

  /**
   The fill phase: up to `fillExtra` further placements after the ones in
   `layout`, stopping at the first that finds no spot. The layout built so far
   is kept as a prefix.
   */
  method FillPlacements(layout: Layout, ghost cursors: seq<nat>, start: nat, fillExtra: int, attempts: int, s: Stream)
    returns (current: Layout, pos': nat, ghost cursors': seq<nat>)
    requires AllWellTyped(layout) && GeometricRules(layout)
    requires Placements(layout, cursors, attempts, s) && cursors[|layout|] == start
    ensures start <= pos'
    ensures AllWellTyped(current) && GeometricRules(current)
    ensures Placements(current, cursors', attempts, s) && cursors'[0] == cursors[0]
    ensures |layout| <= |current| <= |layout| + Iterations(fillExtra) && current[..|layout|] == layout
    ensures |current| < |layout| + Iterations(fillExtra) ==> PlacementFails(current, attempts, s, cursors'[|current|], pos')
    ensures |current| == |layout| + Iterations(fillExtra) ==> pos' == cursors'[|current|]
  {
    current, cursors' := layout, cursors;
    pos' := start;
    var added := 0;
    while added < fillExtra
      invariant 0 <= added <= Iterations(fillExtra) && |current| == |layout| + added
      invariant start <= pos' && current[..|layout|] == layout
      invariant AllWellTyped(current) && GeometricRules(current)
      invariant Placements(current, cursors', attempts, s) && cursors'[0] == cursors[0] && cursors'[|current|] == pos'
    {
      var c := pos';
      var t := ChooseKind(s, c);
      var rect;
      rect, pos' := TryPlace(t, current, attempts, s, c + 1);
      if rect.None? {
        return;
      }
      AppendPlaceablePreservesRules(current, rect.value);
      PlacementsSnoc(current, cursors', attempts, s, rect.value, pos');
      assert (current + [rect.value])[..|layout|] == current[..|layout|];
      current, cursors' := current + [rect.value], cursors' + [pos'];
      added := added + 1;
    }
  }

  /** One call of the generator inside the collector: where it started and ended, what it returned, and its placements. */
  datatype Trial = Trial(start: nat, res: Option<Layout>, end: nat, built: Layout, cursors: seq<nat>)

  /** The returned layouts of `trials` that pass every rule, in call order: the ones the collector keeps. */
  function Kept(trials: seq<Trial>): (kept: seq<Layout>)
    ensures |kept| <= |trials|
    ensures forall i :: 0 <= i < |kept| ==> LayoutValid(kept[i], NEIGHBOR_RADIUS).all
  {
    if trials == [] then []
    else
      var last := trials[|trials| - 1];
      Kept(trials[..|trials| - 1])
      + (if last.res.Some? && LayoutValid(last.res.value, NEIGHBOR_RADIUS).all then [last.res.value] else [])
  }

  /**
   `trials` are successive runs of the generator: the first starts at `pos`,
   each later one where the one before it ended, and each is a `Generation`.
   */
  ghost predicate TrialChain(minB: int, maxB: int, attempts: int, fillExtra: int, s: Stream, pos: nat,
                             trials: seq<Trial>)
  {
    Chained(pos, trials) && AllRuns(minB, maxB, attempts, fillExtra, s, trials)
  }

  /** The first trial starts at `pos`, and each later one where the one before it ended. */
  ghost predicate Chained(pos: nat, trials: seq<Trial>)
  {
    && (|trials| > 0 ==> trials[0].start == pos)
    && (forall t :: 0 < t < |trials| ==> trials[t].start == trials[t - 1].end)
  }

  /** Every trial is a run of the generator. */
  ghost predicate AllRuns(minB: int, maxB: int, attempts: int, fillExtra: int, s: Stream, trials: seq<Trial>)
  {
    forall t :: 0 <= t < |trials| ==> GeneratorRun(minB, maxB, attempts, fillExtra, s, trials[t])
  }

  /** `trial` is one run of the generator, as `Generation` describes it. */
  ghost predicate GeneratorRun(minB: int, maxB: int, attempts: int, fillExtra: int, s: Stream, trial: Trial)
  {
    minB <= maxB
    && Generation(minB, maxB, attempts, fillExtra, s, trial.start, trial.res, trial.end, trial.built, trial.cursors)
  }

  /**
   Up to `maxTries` generation attempts, keeping the valid layouts and
   stopping once `count` are kept. The length test follows the append, so even
   `count <= 1` keeps the first valid layout. `trials` are the generator runs
   made: the kept layouts are their valid results in order, the collector
   stopped early only right after a returned layout brought the kept ones to
   `count`, and never before.
   */
  method CollectValidLayouts(count: int, maxTries: int, minB: int, maxB: int, attempts: int, fillExtra: int,
                             s: Stream, pos: nat)
    returns (layouts: seq<Layout>, pos': nat, ghost trials: seq<Trial>)
    requires minB <= maxB || maxTries <= 0
    ensures pos <= pos'
    ensures |trials| <= Iterations(maxTries)
    ensures TrialChain(minB, maxB, attempts, fillExtra, s, pos, trials)
    ensures pos' == if |trials| == 0 then pos else trials[|trials| - 1].end
    ensures layouts == Kept(trials)
    ensures |trials| < Iterations(maxTries) ==> 0 < |trials| && trials[|trials| - 1].res.Some? && count <= |layouts|
    ensures RunsOnUntil(trials, count)
    ensures |layouts| <= Iterations(maxTries)
    ensures |layouts| <= if count <= 1 then 1 else count
    ensures forall i :: 0 <= i < |layouts| ==>
      LayoutValid(layouts[i], NEIGHBOR_RADIUS).all && AllWellTyped(layouts[i])
      && minB <= |layouts[i]| <= Iterations(maxB) + Iterations(fillExtra)
  {
    layouts, pos', trials := CollectRounds(count, maxTries, minB, maxB, attempts, fillExtra, s, pos);
  }

  /**
   The collector's loop: rounds of `CollectOne` until `maxTries` runs are made
   or a returned layout brings the kept ones to `count`.
   */
  method CollectRounds(count: int, maxTries: int, minB: int, maxB: int, attempts: int, fillExtra: int,
                       s: Stream, pos: nat)
    returns (layouts: seq<Layout>, pos': nat, ghost trials: seq<Trial>)
    requires minB <= maxB || maxTries <= 0
    ensures |trials| <= Iterations(maxTries)
    ensures Collecting(count, minB, maxB, attempts, fillExtra, s, pos, trials, layouts, pos')
    ensures |trials| < Iterations(maxTries) ==> 0 < |trials| && trials[|trials| - 1].res.Some? && count <= |layouts|
    ensures |layouts| <= if count <= 1 then 1 else count
  {
    layouts := [];
    pos' := pos;
    trials := [];
    var tries := 0;
    while tries < maxTries
      invariant 0 <= tries <= Iterations(maxTries) && |trials| == tries
      invariant Collecting(count, minB, maxB, attempts, fillExtra, s, pos, trials, layouts, pos')
      invariant |trials| > 0 ==> trials[|trials| - 1].res.None? || |layouts| < count
      invariant |layouts| < (if count <= 1 then 1 else count) || tries == 0
    {
      var layout;
      layout, layouts, pos', trials := CollectOne(count, minB, maxB, attempts, fillExtra, s, pos, trials, layouts, pos');
      tries := tries + 1;
      if layout.None? {
        continue;
      }
      if |layouts| >= count {
        break;
      }
    }
  }

  /**
   The collector's state after `trials`: they are a chain of generator runs
   from `pos` ending at `pos'`, `layouts` are their kept results, no run but
   the last stopped the collector, and every kept layout passes every rule
   with a size in range.
   */
  ghost predicate Collecting(count: int, minB: int, maxB: int, attempts: int, fillExtra: int, s: Stream, pos: nat,
                             trials: seq<Trial>, layouts: seq<Layout>, pos': nat)
  {
    && TrialChain(minB, maxB, attempts, fillExtra, s, pos, trials)
    && pos <= pos'
    && pos' == (if |trials| == 0 then pos else trials[|trials| - 1].end)
    && layouts == Kept(trials)
    && RunsOnUntil(trials, count)
    && KeptInRange(layouts, minB, maxB, fillExtra)
  }

  /** Every layout is made of catalogue buildings and has between `minB` and the largest possible number of them. */
  ghost predicate KeptInRange(layouts: seq<Layout>, minB: int, maxB: int, fillExtra: int)
  {
    forall i :: 0 <= i < |layouts| ==>
      AllWellTyped(layouts[i]) && minB <= |layouts[i]| <= Iterations(maxB) + Iterations(fillExtra)
  }

  /**
   One round of the collector: a generator run from where the last one ended,
   its result kept when it passes every rule.
   */
  method CollectOne(count: int, minB: int, maxB: int, attempts: int, fillExtra: int, s: Stream, pos: nat,
                    ghost trials: seq<Trial>, layouts: seq<Layout>, cur: nat)
    returns (layout: Option<Layout>, layouts': seq<Layout>, pos': nat, ghost trials': seq<Trial>)
    requires minB <= maxB
    requires Collecting(count, minB, maxB, attempts, fillExtra, s, pos, trials, layouts, cur)
    requires |trials| > 0 ==> trials[|trials| - 1].res.None? || |layouts| < count
    ensures Collecting(count, minB, maxB, attempts, fillExtra, s, pos, trials', layouts', pos')
    ensures |trials'| == |trials| + 1 && trials'[..|trials|] == trials && trials'[|trials|].res == layout
    ensures layouts' == layouts + if layout.Some? && LayoutValid(layout.value, NEIGHBOR_RADIUS).all then [layout.value] else []
  {
    ghost var trial;
    layout, pos', trial := RunGenerator(minB, maxB, attempts, fillExtra, s, cur);
    trials' := trials + [trial];
    layouts' := layouts;
    if layout.Some? && LayoutValid(layout.value, NEIGHBOR_RADIUS).all {
      layouts' := layouts + [layout.value];
    }
    CollectingSnoc(count, minB, maxB, attempts, fillExtra, s, pos, trials, layouts, trial);
  }

  /** A generator run from where the last one ended, its result kept when valid, extends the collector's state. */
  lemma CollectingSnoc(count: int, minB: int, maxB: int, attempts: int, fillExtra: int, s: Stream, pos: nat,
                       trials: seq<Trial>, layouts: seq<Layout>, trial: Trial)
    requires Collecting(count, minB, maxB, attempts, fillExtra, s, pos, trials, layouts,
                        if |trials| == 0 then pos else trials[|trials| - 1].end)
    requires |trials| > 0 ==> trials[|trials| - 1].res.None? || |layouts| < count
    requires trial.start == (if |trials| == 0 then pos else trials[|trials| - 1].end) && trial.start < trial.end
    requires GeneratorRun(minB, maxB, attempts, fillExtra, s, trial)
    requires trial.res.Some? ==>
      AllWellTyped(trial.res.value) && minB <= |trial.res.value| <= Iterations(maxB) + Iterations(fillExtra)
    ensures Collecting(count, minB, maxB, attempts, fillExtra, s, pos, trials + [trial],
                       layouts + (if trial.res.Some? && LayoutValid(trial.res.value, NEIGHBOR_RADIUS).all
                                  then [trial.res.value] else []),
                       trial.end)
  {
    TrialChainSnoc(minB, maxB, attempts, fillExtra, s, pos, trials, trial);
    RunsOnSnoc(trials, trial, count);
    KeptSnoc(trials, trial);
    var kept := if trial.res.Some? && LayoutValid(trial.res.value, NEIGHBOR_RADIUS).all then [trial.res.value] else [];
    assert KeptInRange(layouts + kept, minB, maxB, fillExtra) by {
      forall i | 0 <= i < |layouts + kept|
        ensures AllWellTyped((layouts + kept)[i]) && minB <= |(layouts + kept)[i]| <= Iterations(maxB) + Iterations(fillExtra)
      {
        if i < |layouts| {
          assert (layouts + kept)[i] == layouts[i];
        }
      }
    }
  }

  /** A further trial adds its layout to the kept ones exactly when it returned one that passes every rule. */
  lemma KeptSnoc(trials: seq<Trial>, trial: Trial)
    ensures Kept(trials + [trial])
      == Kept(trials) + if trial.res.Some? && LayoutValid(trial.res.value, NEIGHBOR_RADIUS).all then [trial.res.value] else []
  {
    assert (trials + [trial])[..|trials|] == trials;
  }

  /** One call of the generator from `start`, recorded as a trial. */
  method RunGenerator(minB: int, maxB: int, attempts: int, fillExtra: int, s: Stream, start: nat)
    returns (layout: Option<Layout>, end: nat, ghost trial: Trial)
    requires minB <= maxB
    ensures start < end
    ensures trial.start == start && trial.res == layout && trial.end == end
    ensures GeneratorRun(minB, maxB, attempts, fillExtra, s, trial)
    ensures layout.Some? ==>
      LayoutValid(layout.value, NEIGHBOR_RADIUS).all && AllWellTyped(layout.value)
      && minB <= |layout.value| <= Iterations(maxB) + Iterations(fillExtra)
  {
    ghost var built, cursors;
    layout, end, built, cursors := GenerateLayout(minB, maxB, attempts, fillExtra, s, start);
    trial := Trial(start, layout, end, built, cursors);
  }

  /** A run that starts where the last one ended extends the chain of runs. */
  lemma TrialChainSnoc(minB: int, maxB: int, attempts: int, fillExtra: int, s: Stream, pos: nat,
                       trials: seq<Trial>, next: Trial)
    requires TrialChain(minB, maxB, attempts, fillExtra, s, pos, trials)
    requires next.start == if |trials| == 0 then pos else trials[|trials| - 1].end
    requires GeneratorRun(minB, maxB, attempts, fillExtra, s, next)
    ensures TrialChain(minB, maxB, attempts, fillExtra, s, pos, trials + [next])
  {
    ChainedSnoc(pos, trials, next);
    AllRunsSnoc(minB, maxB, attempts, fillExtra, s, trials, next);
  }

  /** Appending a trial that starts where the last one ended keeps the trials chained. */
  lemma ChainedSnoc(pos: nat, trials: seq<Trial>, next: Trial)
    requires Chained(pos, trials)
    requires next.start == if |trials| == 0 then pos else trials[|trials| - 1].end
    ensures Chained(pos, trials + [next])
  {
    var ts := trials + [next];
    forall t | 0 < t < |ts| ensures ts[t].start == ts[t - 1].end {
      assert ts[t - 1] == trials[t - 1];
      if t < |trials| {
        assert ts[t] == trials[t];
      }
    }
    if |trials| > 0 {
      assert ts[0] == trials[0];
    }
  }

  /** Appending a run of the generator keeps every trial a run. */
  lemma AllRunsSnoc(minB: int, maxB: int, attempts: int, fillExtra: int, s: Stream, trials: seq<Trial>, next: Trial)
    requires AllRuns(minB, maxB, attempts, fillExtra, s, trials)
    requires GeneratorRun(minB, maxB, attempts, fillExtra, s, next)
    ensures AllRuns(minB, maxB, attempts, fillExtra, s, trials + [next])
  {
    var ts := trials + [next];
    forall t | 0 <= t < |ts| ensures GeneratorRun(minB, maxB, attempts, fillExtra, s, ts[t]) {
      if t < |trials| {
        assert ts[t] == trials[t];
      }
    }
  }

  /**
   No run before the last one stopped the collector: after each of them,
   either it returned nothing or fewer than `count` layouts were kept.
   */
  ghost predicate RunsOnUntil(trials: seq<Trial>, count: int)
  {
    forall t :: 0 < t < |trials| ==> trials[t - 1].res.None? || |Kept(trials[..t])| < count
  }

  /** A run appended after a last run that did not stop the collector keeps every earlier run non-stopping. */
  lemma RunsOnSnoc(trials: seq<Trial>, trial: Trial, count: int)
    requires RunsOnUntil(trials, count)
    requires |trials| > 0 ==> trials[|trials| - 1].res.None? || |Kept(trials)| < count
    ensures RunsOnUntil(trials + [trial], count)
  {
    var ts := trials + [trial];
    forall t | 0 < t < |ts| ensures ts[t - 1].res.None? || |Kept(ts[..t])| < count {
      assert ts[t - 1] == trials[t - 1];
      if t < |trials| {
        assert ts[..t] == trials[..t];
      } else {
        assert ts[..t] == trials;
      }
    }
  }

  /** Footprint area of one building. */
  function Area(r: Rect): (a: real)
    ensures WellTyped(r) ==> a == if r.kind == A then 600.0 else 400.0
  {
    r.w * r.h
  }

  /** Total footprint area, summed over the layout: between 400 and 600 per catalogue building. */
  function TotalArea(layout: Layout): (a: real)
    ensures AllWellTyped(layout) ==> 400.0 * |layout| as real <= a <= 600.0 * |layout| as real
  {
    if layout == [] then 0.0
    else
      assert AllWellTyped(layout) ==> WellTyped(layout[0]) && AllWellTyped(layout[1..]) by {
        if AllWellTyped(layout) {
          forall i | 0 <= i < |layout[1..]| ensures WellTyped(layout[1..][i]) {
            assert layout[1..][i] == layout[i + 1];
          }
        }
      }
      Area(layout[0]) + TotalArea(layout[1..])
  }

  /** With catalogue footprints the total area is 600 per A and 400 per B. */
  lemma {:induction false} TotalAreaByKind(layout: Layout)
    requires AllWellTyped(layout)
    ensures TotalArea(layout) == 600.0 * CountKind(layout, A) as real + 400.0 * CountKind(layout, B) as real
  {
    if layout != [] {
      assert WellTyped(layout[0]);
      assert AllWellTyped(layout[1..]) by {
        forall i | 0 <= i < |layout[1..]| ensures WellTyped(layout[1..][i]) {
          assert layout[1..][i] == layout[i + 1];
        }
      }
      TotalAreaByKind(layout[1..]);
    }
  }

  /** Appending one building adds one to the count of its own type only. */
  lemma {:induction false} CountKindSnoc(layout: Layout, r: Rect, k: Kind)
    ensures CountKind(layout + [r], k) == CountKind(layout, k) + (if r.kind == k then 1 else 0)
  {
    if layout != [] {
      assert (layout + [r])[1..] == layout[1..] + [r];
      CountKindSnoc(layout[1..], r, k);
    }
  }

  /** The statistics of one layout. */
  datatype Stats = Stats(
    countA: nat, countB: nat, area: real,
    ruleBoundary: bool, rulePlaza: bool, ruleSpacing: bool, ruleNeighbor: bool, valid: bool)

  /** The number of buildings of each type, counted in one pass over the layout. */
  method CountKinds(layout: Layout) returns (countA: nat, countB: nat)
    ensures countA == CountKind(layout, A) && countB == CountKind(layout, B)
  {
    countA, countB := 0, 0;
    for i := 0 to |layout|
      invariant countA == CountKind(layout[..i], A) && countA + countB == i
    {
      CountPrefixStep(layout, i, A);
      if layout[i].kind == A {
        countA := countA + 1;
      } else {
        countB := countB + 1;
      }
    }
    assert layout[..|layout|] == layout;
    CountsAddUp(layout);
  }

  /** One more building of the layout adds one to the count of its own type only. */
  lemma CountPrefixStep(layout: Layout, i: int, k: Kind)
    requires 0 <= i < |layout|
    ensures CountKind(layout[..i + 1], k) == CountKind(layout[..i], k) + (if layout[i].kind == k then 1 else 0)
  {
    assert layout[..i + 1] == layout[..i] + [layout[i]];
    CountKindSnoc(layout[..i], layout[i], k);
  }

  /** Per-type counts, total area and the validity flags of a layout. */
  method Summarize(layout: Layout) returns (st: Stats)
    ensures st.countA == CountKind(layout, A) && st.countB == CountKind(layout, B)
    ensures st.countA + st.countB == |layout|
    ensures st.area == TotalArea(layout)
    ensures AllWellTyped(layout) ==> st.area == 600.0 * st.countA as real + 400.0 * st.countB as real
    ensures var v := LayoutValid(layout, NEIGHBOR_RADIUS);
      st.ruleBoundary == v.boundary && st.rulePlaza == v.plaza && st.ruleSpacing == v.spacing
      && st.ruleNeighbor == v.neighborMix && st.valid == v.all
    ensures st.valid ==> st.countB > 0
  {
    var countA, countB := CountKinds(layout);
    CountsAddUp(layout);
    if AllWellTyped(layout) {
      TotalAreaByKind(layout);
    }
    var rules := LayoutValid(layout, NEIGHBOR_RADIUS);
    if rules.all {
      CountPositiveIffPresent(layout, B);
    }
    st := Stats(countA, countB, TotalArea(layout),
                rules.boundary, rules.plaza, rules.spacing, rules.neighborMix, rules.all);
  }
}
